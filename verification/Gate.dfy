/** The enforcement gate: violations of the lexicon detector and of the structural detector, merged by category and
    rounded confidence. What matches where is not part of this model; every list of matches is. */
module Gate {
  import Lists

  datatype Category =
    | ViolenceHarm | ChildSafety | HateSpeech | SelfHarm | SexualContent | Deception | IllegalActivities
    | Misinformation | Privacy | Cybersecurity | Autonomy | SystemOverride

  datatype Thresholds = Thresholds(violation: real, block: real)

  function Limits(c: Category): Thresholds {
    match c
    case ChildSafety => Thresholds(0.30, 0.70)
    case SexualContent => Thresholds(0.35, 0.75)
    case ViolenceHarm => Thresholds(0.40, 0.80)
    case SystemOverride => Thresholds(0.35, 0.80)
    case SelfHarm => Thresholds(0.35, 0.75)
    case HateSpeech => Thresholds(0.40, 0.80)
    case IllegalActivities => Thresholds(0.40, 0.80)
    case Cybersecurity => Thresholds(0.45, 0.85)
    case Deception => Thresholds(0.45, 0.85)
    case Privacy => Thresholds(0.45, 0.85)
    case Misinformation => Thresholds(0.45, 0.85)
    case Autonomy => Thresholds(0.50, 0.90)
  }

  predicate Catastrophic(c: Category) {
    c in {ChildSafety, SexualContent, SelfHarm, ViolenceHarm, HateSpeech, IllegalActivities}
  }

  const CATASTROPHIC_FLOOR := 0.95
  const STRUCTURAL_BLOCK := 0.85

  datatype Pattern =
    | DeportationDemand | NegativeAttribute | DestroyingSociety | Undeserving | TakingResources | RightsDenial
    | ForcedAction | NaturalOrder | Segregation | Pathologization | ConversionDemand
    | Deportacion | AtributoNegativo | DestruyendoSociedad | SinDerechos | Robo | SonCarga

  datatype Row = Row(pattern: Pattern, confidence: real, category: Category)

  // The rows of the two pattern tables, without their templates.
  predicate InTable(row: Row) {
    match row.pattern
    case NegativeAttribute => row.category == HateSpeech && row.confidence in {0.80, 0.82, 0.78}
    case Undeserving =>
      (row.category == ViolenceHarm && row.confidence == 0.88) || (row.category == HateSpeech && row.confidence == 0.85)
    case ForcedAction =>
      (row.category == HateSpeech && row.confidence == 0.88) || (row.category == Autonomy && row.confidence == 0.80)
    case TakingResources | Robo | SonCarga => row.category == HateSpeech && row.confidence == 0.82
    case AtributoNegativo => row.category == HateSpeech && row.confidence == 0.80
    case NaturalOrder | ConversionDemand => row.category == HateSpeech && row.confidence == 0.88
    case DeportationDemand | DestroyingSociety | RightsDenial | Segregation | Pathologization
         | Deportacion | DestruyendoSociedad | SinDerechos => row.category == HateSpeech && row.confidence == 0.85
  }

  datatype Match = Match(row: Row, group: string, text: string)

  datatype Flag = Flag(category: Category, weight: real, suppressed: bool)

  datatype Violation = Violation(category: Category, confidence: real, blocked: bool)

  ghost predicate FromTable(matches: seq<Match>) {
    forall i | 0 <= i < |matches| :: InTable(matches[i].row)
  }

  predicate Blocks(m: Match) { m.row.confidence >= STRUCTURAL_BLOCK }

  ghost predicate AnyBlocked(violations: seq<Violation>) {
    exists i :: 0 <= i < |violations| && violations[i].blocked
  }

  function Prefix(text: string, n: nat): string {
    if |text| <= n then text else text[..n]
  }

  // The keys of the two passes that drop repeated matches; their parts are joined with ':' in the code.
  function ScanKey(m: Match): (Pattern, string, string) { (m.row.pattern, m.group, Prefix(m.text, 50)) }

  function ViolationKey(m: Match): (Pattern, string) { (m.row.pattern, Prefix(m.text, 40)) }

  // The first match for each key.
  function KeepFirst<K(==)>(key: Match -> K, matches: seq<Match>): seq<Match> {
    if matches == [] then []
    else
      var (kept, m) := (KeepFirst(key, matches[..|matches| - 1]), matches[|matches| - 1]);
      if exists i :: 0 <= i < |kept| && key(kept[i]) == key(m) then kept else kept + [m]
  }

  function ToViolation(m: Match): Violation {
    Violation(m.row.category, m.row.confidence, Blocks(m))
  }

  function ToViolations(matches: seq<Match>): seq<Violation> {
    var kept := KeepFirst(ViolationKey, matches);
    seq(|kept|, i requires 0 <= i < |kept| => ToViolation(kept[i]))
  }

  method StructuralMatchesToViolations(matches: seq<Match>) returns (violations: seq<Violation>)
    ensures violations == ToViolations(matches)
  {
    violations := [];
    var seen: set<(Pattern, string)> := {};
    ghost var kept: seq<Match> := [];
    var n := 0;
    while n < |matches|
      invariant 0 <= n <= |matches|
      invariant kept == KeepFirst(ViolationKey, matches[..n])
      invariant violations == seq(|kept|, i requires 0 <= i < |kept| => ToViolation(kept[i]))
      invariant forall k :: k in seen <==> exists i :: 0 <= i < |kept| && ViolationKey(kept[i]) == k
    {
      var m := matches[n];
      assert matches[..n + 1][..n] == matches[..n];
      if ViolationKey(m) !in seen {
        seen := seen + {ViolationKey(m)};
        violations := violations + [ToViolation(m)];
        ghost var before := kept;
        kept := kept + [m];
        assert forall i | 0 <= i < |before| :: kept[i] == before[i];
        assert ViolationKey(kept[|before|]) == ViolationKey(m);
      }
      n := n + 1;
    }
    assert matches[..n] == matches;
  }

  // A flag that counts as a violation, and what is reported of it.
  predicate Reported(f: Flag) { !f.suppressed && f.weight >= Limits(f.category).violation }

  function FlagViolation(f: Flag): Violation {
    Violation(f.category, f.weight, f.weight >= Limits(f.category).block)
  }

  function LexiconViolations(flags: seq<Flag>): seq<Violation> {
    if flags == [] then []
    else
      var f := flags[|flags| - 1];
      LexiconViolations(flags[..|flags| - 1])
      + if !f.suppressed && f.weight >= Limits(f.category).violation
        then [Violation(f.category, f.weight, f.weight >= Limits(f.category).block)] else []
  }

  // Confidence to two decimals, as the merge key prints it.
  function Hundredths(x: real): int { (x * 100.0 + 0.5).Floor }

  function MergeKey(v: Violation): (Category, int) { (v.category, Hundredths(v.confidence)) }

  predicate Seen(violations: seq<Violation>, key: (Category, int)) {
    exists i :: 0 <= i < |violations| && MergeKey(violations[i]) == key
  }

  function Merge(existing: seq<Violation>, structural: seq<Violation>): seq<Violation> {
    if structural == [] then existing
    else
      var (merged, v) := (Merge(existing, structural[..|structural| - 1]), structural[|structural| - 1]);
      if Seen(merged, MergeKey(v)) then merged else merged + [v]
  }

  method MergeViolations(existing: seq<Violation>, structural: seq<Violation>) returns (combined: seq<Violation>)
    ensures combined == Merge(existing, structural)
  {
    var seen: seq<(Category, int)> := seq(|existing|, i requires 0 <= i < |existing| => MergeKey(existing[i]));
    combined := existing;
    var n := 0;
    while n < |structural|
      invariant 0 <= n <= |structural|
      invariant combined == Merge(existing, structural[..n])
      invariant seen == seq(|combined|, i requires 0 <= i < |combined| => MergeKey(combined[i]))
    {
      var v := structural[n];
      assert structural[..n + 1][..n] == structural[..n];
      assert MergeKey(v) in seen <==> Seen(combined, MergeKey(v)) by {
        assert forall i | 0 <= i < |combined| :: seen[i] == MergeKey(combined[i]);
      }
      if MergeKey(v) !in seen {
        seen := seen + [MergeKey(v)];
        combined := combined + [v];
      }
      n := n + 1;
    }
    assert structural[..n] == structural;
  }

  function StructuralFlags(matches: seq<Match>): seq<Flag> {
    seq(|matches|, i requires 0 <= i < |matches| => Flag(matches[i].row.category, matches[i].row.confidence, false))
  }

  predicate CatastrophicHit(flags: seq<Flag>) {
    exists i :: 0 <= i < |flags| && !flags[i].suppressed && flags[i].weight >= CATASTROPHIC_FLOOR
                && Catastrophic(flags[i].category)
  }

  datatype Evaluation = Evaluation(passed: bool, enforcementBlocked: bool, violations: seq<Violation>)

  function Detected(english: seq<Match>, spanish: seq<Match>): seq<Match> {
    KeepFirst(ScanKey, english) + KeepFirst(ScanKey, spanish)
  }

  // In both sources of violations a key of these categories at 0.85 or more means a block.
  predicate BlockingKey(key: (Category, int)) {
    (key.0 == HateSpeech || key.0 == ViolenceHarm) && key.1 >= 85
  }

  ghost predicate Faithful(v: Violation) {
    (BlockingKey(MergeKey(v)) ==> v.blocked)
  }

  lemma {:induction false} LexiconFaithful(flags: seq<Flag>)
    ensures forall i | 0 <= i < |LexiconViolations(flags)| :: Faithful(LexiconViolations(flags)[i])
    ensures forall i | 0 <= i < |flags| && CatastrophicHit([flags[i]]) :: AnyBlocked(LexiconViolations(flags))
  {
    if flags != [] {
      var n := |flags| - 1;
      var (front, f) := (LexiconViolations(flags[..n]), flags[n]);
      LexiconFaithful(flags[..n]);
      var all := LexiconViolations(flags);
      assert forall i | 0 <= i < |front| :: all[i] == front[i];
      forall i | 0 <= i < |flags| && CatastrophicHit([flags[i]]) ensures AnyBlocked(all) {
        if i < n {
          assert CatastrophicHit([flags[..n][i]]);
          var j :| 0 <= j < |front| && front[j].blocked;
          assert all[j].blocked;
        } else {
          assert [f][0] == f;
          assert all[|front|].blocked;
        }
      }
    }
  }

  lemma TableFacts(row: Row)
    requires InTable(row)
    ensures row.confidence < CATASTROPHIC_FLOOR
    ensures row.confidence >= STRUCTURAL_BLOCK <==> BlockingKey((row.category, Hundredths(row.confidence)))
  {
    assert Hundredths(0.78) == 78 && Hundredths(0.80) == 80 && Hundredths(0.82) == 82;
    assert Hundredths(0.85) == 85 && Hundredths(0.88) == 88;
  }

  // Only one pattern has rows on both sides of the block threshold.
  lemma MixedPattern(row: Row, other: Row)
    requires InTable(row) && InTable(other) && row.pattern == other.pattern
    requires row.confidence < STRUCTURAL_BLOCK <= other.confidence
    ensures row.pattern == ForcedAction
  {
  }

  lemma {:induction false} KeepFirstMembers<K>(key: Match -> K, matches: seq<Match>)
    ensures forall i | 0 <= i < |KeepFirst(key, matches)| :: KeepFirst(key, matches)[i] in matches
  {
    if matches != [] {
      KeepFirstMembers(key, matches[..|matches| - 1]);
    }
  }

  lemma ViolationsFaithful(matches: seq<Match>)
    requires FromTable(matches)
    ensures forall i | 0 <= i < |ToViolations(matches)| ::
      var v := ToViolations(matches)[i]; Faithful(v) && (v.blocked ==> BlockingKey(MergeKey(v)))
  {
    var kept := KeepFirst(ViolationKey, matches);
    KeepFirstMembers(ViolationKey, matches);
    forall i | 0 <= i < |kept|
      ensures var v := ToViolation(kept[i]); Faithful(v) && (v.blocked ==> BlockingKey(MergeKey(v)))
    {
      var j :| 0 <= j < |matches| && matches[j] == kept[i];
      TableFacts(matches[j].row);
    }
  }

  // The merge loses no block.
  lemma {:induction false} MergeBlocks(existing: seq<Violation>, structural: seq<Violation>)
    requires forall i | 0 <= i < |existing| :: Faithful(existing[i])
    requires forall i | 0 <= i < |structural| ::
      Faithful(structural[i]) && (structural[i].blocked ==> BlockingKey(MergeKey(structural[i])))
    ensures forall i | 0 <= i < |Merge(existing, structural)| :: Faithful(Merge(existing, structural)[i])
    ensures AnyBlocked(Merge(existing, structural)) <==> AnyBlocked(existing) || AnyBlocked(structural)
  {
    if structural != [] {
      var n := |structural| - 1;
      var (front, v) := (structural[..n], structural[n]);
      MergeBlocks(existing, front);
      MergeOne(Merge(existing, front), v);
      AnyBlockedOne(front, v);
      assert structural == front + [v];
    }
  }

  lemma AnyBlockedOne(violations: seq<Violation>, v: Violation)
    ensures AnyBlocked(violations + [v]) <==> AnyBlocked(violations) || v.blocked
  {
    var all := violations + [v];
    assert all[|violations|] == v && forall i | 0 <= i < |violations| :: all[i] == violations[i];
    if AnyBlocked(violations) {
      var i :| 0 <= i < |violations| && violations[i].blocked;
      assert all[i].blocked;
    }
    if v.blocked {
      assert all[|violations|].blocked;
    }
  }

  lemma MergeOne(merged: seq<Violation>, v: Violation)
    requires forall i | 0 <= i < |merged| :: Faithful(merged[i])
    requires Faithful(v) && (v.blocked ==> BlockingKey(MergeKey(v)))
    ensures var later := if Seen(merged, MergeKey(v)) then merged else merged + [v];
      && (forall i | 0 <= i < |later| :: Faithful(later[i]))
      && (AnyBlocked(later) <==> AnyBlocked(merged) || v.blocked)
  {
    if Seen(merged, MergeKey(v)) {
      var i :| 0 <= i < |merged| && MergeKey(merged[i]) == MergeKey(v);
      if v.blocked {
        assert Faithful(merged[i]) && merged[i].blocked;
      }
    } else {
      AnyBlockedOne(merged, v);
    }
  }

  // At the floor, in one of the gravest categories.
  predicate Grave(category: Category, weight: real) {
    && weight >= 0.95
    && category in {ChildSafety, SexualContent, SelfHarm, ViolenceHarm, HateSpeech, IllegalActivities}
  }

  ghost predicate FloorReached(flags: seq<Flag>, matches: seq<Match>) {
    || (exists i :: 0 <= i < |flags| && !flags[i].suppressed && Grave(flags[i].category, flags[i].weight))
    || (exists i :: 0 <= i < |matches| && Grave(matches[i].row.category, matches[i].row.confidence))
  }

  lemma FloorExactly(flags: seq<Flag>, matches: seq<Match>)
    ensures CatastrophicHit(flags + StructuralFlags(matches)) <==> FloorReached(flags, matches)
  {
    var all := flags + StructuralFlags(matches);
    assert forall i | 0 <= i < |flags| :: all[i] == flags[i];
    assert forall i | 0 <= i < |matches| ::
      all[|flags| + i] == Flag(matches[i].row.category, matches[i].row.confidence, false);
  }

  // For all content: the gate is closed exactly when the lexicon list or the structural list holds a block; a hit
  // above the catastrophic floor always comes with one.
  lemma GateExactly(flags: seq<Flag>, english: seq<Match>, spanish: seq<Match>)
    requires FromTable(english) && FromTable(spanish)
    ensures var matches := Detected(english, spanish);
      var (lexicon, structural) := (LexiconViolations(flags), ToViolations(matches));
      && (AnyBlocked(Merge(lexicon, structural)) <==> AnyBlocked(lexicon) || AnyBlocked(structural))
      && (FloorReached(flags, matches) ==> AnyBlocked(lexicon))
  {
    FloorExactly(flags, Detected(english, spanish));
    var matches := Detected(english, spanish);
    DetectedFromTable(english, spanish);
    LexiconFaithful(flags);
    ViolationsFaithful(matches);
    MergeBlocks(LexiconViolations(flags), ToViolations(matches));
    if CatastrophicHit(flags + StructuralFlags(matches)) {
      var i := HitIsLexical(flags, matches);
    }
  }

  lemma HitIsLexical(flags: seq<Flag>, matches: seq<Match>) returns (i: nat)
    requires FromTable(matches) && CatastrophicHit(flags + StructuralFlags(matches))
    ensures i < |flags| && CatastrophicHit([flags[i]])
  {
    var all := flags + StructuralFlags(matches);
    i :| 0 <= i < |all| && !all[i].suppressed && all[i].weight >= CATASTROPHIC_FLOOR && Catastrophic(all[i].category);
    if i >= |flags| {
      TableFacts(matches[i - |flags|].row);
      assert false;
    }
    assert [flags[i]][0] == flags[i];
  }

  lemma DetectedFromTable(english: seq<Match>, spanish: seq<Match>)
    requires FromTable(english) && FromTable(spanish)
    ensures FromTable(Detected(english, spanish))
  {
    KeepFirstMembers(ScanKey, english);
    KeepFirstMembers(ScanKey, spanish);
    var (a, b) := (KeepFirst(ScanKey, english), KeepFirst(ScanKey, spanish));
    forall i | 0 <= i < |a| ensures InTable(a[i].row) {
      var j :| 0 <= j < |english| && english[j] == a[i];
    }
    forall i | 0 <= i < |b| ensures InTable(b[i].row) {
      var j :| 0 <= j < |spanish| && spanish[j] == b[i];
    }
  }

  // Whether a lexicon violation that does not block can stand in the way of a structural one that does: only where
  // the category blocks later than the key can tell. In the tables no category is of that kind.
  lemma ShadowedExactly(c: Category, x: real)
    requires x >= STRUCTURAL_BLOCK
    ensures (exists w: real :: Hundredths(w) == Hundredths(x) && Limits(c).violation <= w < Limits(c).block) <==>
            Limits(c).block * 100.0 > Hundredths(x) as real - 0.5
  {
    var w := (Hundredths(x) as real - 0.5) / 100.0;
    assert Hundredths(w) == Hundredths(x);
    assert Hundredths(x) >= 85;
  }

  predicate First(matches: seq<Match>, i: nat)
    requires i < |matches|
  {
    forall j | 0 <= j < i :: ViolationKey(matches[j]) != ViolationKey(matches[i])
  }

  predicate HasKey(matches: seq<Match>, k: (Pattern, string)) {
    exists i :: 0 <= i < |matches| && ViolationKey(matches[i]) == k
  }

  lemma HasKeyOne(matches: seq<Match>, m: Match, k: (Pattern, string))
    ensures HasKey(matches + [m], k) <==> HasKey(matches, k) || ViolationKey(m) == k
  {
    var all := matches + [m];
    assert all[|matches|] == m && forall i | 0 <= i < |matches| :: all[i] == matches[i];
    if HasKey(matches, k) {
      var i :| 0 <= i < |matches| && ViolationKey(matches[i]) == k;
      assert ViolationKey(all[i]) == k;
    }
    if ViolationKey(m) == k {
      assert ViolationKey(all[|matches|]) == k;
    }
  }

  lemma {:induction false} KeepFirstKeys(matches: seq<Match>, k: (Pattern, string))
    ensures HasKey(KeepFirst(ViolationKey, matches), k) <==> HasKey(matches, k)
  {
    if matches != [] {
      var n := |matches| - 1;
      KeepFirstKeys(matches[..n], k);
      HasKeyOne(matches[..n], matches[n], k);
      HasKeyOne(KeepFirst(ViolationKey, matches[..n]), matches[n], k);
      assert matches == matches[..n] + [matches[n]];
    }
  }

  predicate FirstAmong(matches: seq<Match>, m: Match) {
    exists i :: 0 <= i < |matches| && matches[i] == m && First(matches, i)
  }

  lemma FirstAmongMore(front: seq<Match>, x: Match, m: Match)
    ensures FirstAmong(front + [x], m) <==> FirstAmong(front, m) || (m == x && !HasKey(front, ViolationKey(x)))
  {
    var (all, n) := (front + [x], |front|);
    assert all[n] == x && forall i | 0 <= i < n :: all[i] == front[i] && (First(all, i) <==> First(front, i));
    assert First(all, n) <==> !HasKey(front, ViolationKey(x));
    if FirstAmong(front, m) {
      var i :| 0 <= i < n && front[i] == m && First(front, i);
      assert all[i] == m && First(all, i);
    }
  }

  lemma KeepFirstMore(front: seq<Match>, x: Match)
    ensures KeepFirst(ViolationKey, front + [x]) ==
            KeepFirst(ViolationKey, front) + if HasKey(front, ViolationKey(x)) then [] else [x]
  {
    assert (front + [x])[..|front|] == front;
    KeepFirstKeys(front, ViolationKey(x));
  }

  // The matches kept are the first of their keys.
  lemma {:induction false} KeepFirstExactly(matches: seq<Match>, m: Match)
    ensures m in KeepFirst(ViolationKey, matches) <==>
            exists i :: 0 <= i < |matches| && matches[i] == m && First(matches, i)
  {
    if matches != [] {
      var n := |matches| - 1;
      var (front, x) := (matches[..n], matches[n]);
      assert matches == front + [x];
      KeepFirstExactly(front, m);
      KeepFirstMore(front, x);
      FirstAmongMore(front, x, m);
      assert FirstAmong(front, m) <==> m in KeepFirst(ViolationKey, front);
      assert FirstAmong(matches, m) <==> m in KeepFirst(ViolationKey, matches);
    }
  }

  // The structural list holds a block exactly when some blocking match is the first with its pattern and its first
  // 40 characters.
  lemma StructuralBlockExactly(matches: seq<Match>)
    ensures AnyBlocked(ToViolations(matches)) <==>
            exists i :: 0 <= i < |matches| && Blocks(matches[i]) && First(matches, i)
  {
    var kept := KeepFirst(ViolationKey, matches);
    if AnyBlocked(ToViolations(matches)) {
      var j :| 0 <= j < |kept| && Blocks(kept[j]);
      KeepFirstExactly(matches, kept[j]);
    }
    if i :| 0 <= i < |matches| && Blocks(matches[i]) && First(matches, i) {
      KeepFirstExactly(matches, matches[i]);
      var j :| 0 <= j < |kept| && kept[j] == matches[i];
      assert ToViolations(matches)[j].blocked;
    }
  }

  // With these tables only one pattern can lose its block that way.
  lemma LostBlocksAreForcedAction(matches: seq<Match>, i: nat)
    requires FromTable(matches) && i < |matches| && Blocks(matches[i]) && !AnyBlocked(ToViolations(matches))
    ensures matches[i].row.pattern == ForcedAction
    ensures exists j :: 0 <= j < i && !Blocks(matches[j]) && ViolationKey(matches[j]) == ViolationKey(matches[i])
  {
    StructuralBlockExactly(matches);
    var j := FirstOf(matches, i);
    MixedPattern(matches[j].row, matches[i].row);
  }

  ghost function FirstOf(matches: seq<Match>, i: nat): (j: nat)
    requires i < |matches|
    ensures j <= i && ViolationKey(matches[j]) == ViolationKey(matches[i]) && First(matches, j)
  {
    if First(matches, i) then i
    else
      var k :| 0 <= k < i && ViolationKey(matches[k]) == ViolationKey(matches[i]);
      FirstOf(matches, k)
  }

  // And it can: two matches of the two rows of that pattern whose texts agree for 40 characters. Content that gives
  // them in this order names one group twice, more than 200 bytes apart, each time with "should be" and then more than
  // 30 blanks behind it, followed by "normalized" the first time and by "registered" the second.
  lemma ForcedActionLost(group: string, text: string, other: string)
    requires |text| >= 40 && |other| >= 40 && text[..40] == other[..40]
    ensures var matches := [Match(Row(ForcedAction, 0.80, Autonomy), group, text),
                            Match(Row(ForcedAction, 0.88, HateSpeech), group, other)];
      FromTable(matches) && Blocks(matches[1]) && !AnyBlocked(ToViolations(matches))
  {
    var matches := [Match(Row(ForcedAction, 0.80, Autonomy), group, text),
                    Match(Row(ForcedAction, 0.88, HateSpeech), group, other)];
    StructuralBlockExactly(matches);
    assert Prefix(text, 40) == text[..40] && Prefix(other, 40) == other[..40];
    assert ViolationKey(matches[0]) == ViolationKey(matches[1]);
  }

  // Matches with one scan key have one violation key.
  lemma ScanKeyFiner(a: Match, b: Match)
    requires ScanKey(a) == ScanKey(b)
    ensures ViolationKey(a) == ViolationKey(b)
  {
    var (p, q) := (Prefix(a.text, 50), Prefix(b.text, 50));
    assert Prefix(p, 40) == Prefix(a.text, 40) && Prefix(q, 40) == Prefix(b.text, 40);
  }

  lemma {:induction false} KeepFirstAfter(a: seq<Match>, b: seq<Match>, tail: seq<Match>)
    requires KeepFirst(ViolationKey, a) == KeepFirst(ViolationKey, b)
    ensures KeepFirst(ViolationKey, a + tail) == KeepFirst(ViolationKey, b + tail)
  {
    if tail == [] {
      assert a + tail == a && b + tail == b;
    } else {
      var front := tail[..|tail| - 1];
      KeepFirstAfter(a, b, front);
      assert (a + tail)[..|a + tail| - 1] == a + front && (b + tail)[..|b + tail| - 1] == b + front;
    }
  }

  lemma {:induction false} ScanAbsorbed(before: seq<Match>, matches: seq<Match>)
    ensures KeepFirst(ViolationKey, before + KeepFirst(ScanKey, matches)) == KeepFirst(ViolationKey, before + matches)
  {
    if matches != [] {
      var n := |matches| - 1;
      var (front, x) := (matches[..n], matches[n]);
      var kept := KeepFirst(ScanKey, front);
      ScanAbsorbed(before, front);
      Lists.FrontAndLast(matches);
      Lists.Assoc(before, front, [x]);
      KeepFirstAfter(before + kept, before + front, [x]);
      ScanNext(before, front, x);
    }
  }

  lemma ScanNext(before: seq<Match>, front: seq<Match>, x: Match)
    ensures KeepFirst(ViolationKey, before + KeepFirst(ScanKey, front + [x])) ==
            KeepFirst(ViolationKey, before + KeepFirst(ScanKey, front) + [x])
  {
    var (kept, all) := (KeepFirst(ScanKey, front), KeepFirst(ScanKey, front + [x]));
    assert (front + [x])[..|front|] == front;
    if i :| 0 <= i < |kept| && ScanKey(kept[i]) == ScanKey(x) {
      assert all == kept && (before + kept)[|before| + i] == kept[i];
      ScanKeyFiner(kept[i], x);
      AlreadyKept(before + kept, |before| + i, x);
    } else {
      assert all == kept + [x];
      Lists.Assoc(before, kept, [x]);
    }
  }

  lemma AlreadyKept(matches: seq<Match>, i: nat, x: Match)
    requires i < |matches| && ViolationKey(matches[i]) == ViolationKey(x)
    ensures KeepFirst(ViolationKey, matches + [x]) == KeepFirst(ViolationKey, matches)
  {
    assert HasKey(matches, ViolationKey(x));
    KeepFirstKeys(matches, ViolationKey(x));
    assert (matches + [x])[..|matches|] == matches;
  }

  // Dropping repeated matches while scanning changes nothing in the violations.
  lemma ScanKeepsViolations(english: seq<Match>, spanish: seq<Match>)
    ensures ToViolations(Detected(english, spanish)) == ToViolations(english + spanish)
  {
    var (a, b) := (KeepFirst(ScanKey, english), KeepFirst(ScanKey, spanish));
    ScanAbsorbed([], english);
    assert [] + a == a && [] + english == english;
    KeepFirstAfter(a, english, spanish);
    ScanAbsorbed(a, spanish);
  }

  lemma {:induction false} LexiconBlockExactly(flags: seq<Flag>)
    ensures AnyBlocked(LexiconViolations(flags)) <==>
            exists i :: 0 <= i < |flags| && !flags[i].suppressed && flags[i].weight >= Limits(flags[i].category).block
  {
    if flags != [] {
      var n := |flags| - 1;
      var f := flags[n];
      LexiconBlockExactly(flags[..n]);
      AnyBlockedOne(LexiconViolations(flags[..n]), FlagViolation(f));
      assert forall i | 0 <= i < n :: flags[..n][i] == flags[i];
      LimitsOrdered(f);
    }
  }

  // What reaches the block threshold is a violation.
  lemma LimitsOrdered(f: Flag)
    ensures f.weight >= Limits(f.category).block ==> f.weight >= Limits(f.category).violation
  {
  }

  // The whole gate in terms of what was detected: an unsuppressed term at its category's block threshold, or a
  // blocking match that is the first with its pattern and its first 40 characters.
  lemma EnforcementExactly(flags: seq<Flag>, english: seq<Match>, spanish: seq<Match>)
    requires FromTable(english) && FromTable(spanish)
    ensures var (matches, all) := (Detected(english, spanish), english + spanish);
      || AnyBlocked(Merge(LexiconViolations(flags), ToViolations(matches)))
      || FloorReached(flags, matches)
      <==>
      || (exists i :: 0 <= i < |flags| && !flags[i].suppressed && flags[i].weight >= Limits(flags[i].category).block)
      || (exists i :: 0 <= i < |all| && Blocks(all[i]) && First(all, i))
  {
    GateExactly(flags, english, spanish);
    LexiconBlockExactly(flags);
    ScanKeepsViolations(english, spanish);
    StructuralBlockExactly(english + spanish);
  }

  /******* What is reported *******/

  // The thresholds: five bands of categories; a violation blocks 0.40 above the weight from which it is reported, for
  // a system override 0.45 above.
  lemma ThresholdBands(c: Category)
    ensures Limits(c).violation ==
      if c == ChildSafety then 0.30
      else if c in {SexualContent, SelfHarm, SystemOverride} then 0.35
      else if c in {ViolenceHarm, HateSpeech, IllegalActivities} then 0.40
      else if c == Autonomy then 0.50 else 0.45
    ensures Limits(c).block == Limits(c).violation + if c == SystemOverride then 0.45 else 0.40
  {
  }

  // `picks` are indices below `n`, in order.
  ghost predicate Picks(picks: seq<nat>, n: nat) {
    && (forall a | 0 <= a < |picks| :: picks[a] < n)
    && (forall a, b | 0 <= a < b < |picks| :: picks[a] < picks[b])
  }

  lemma PickLast(picks: seq<nat>, n: nat) returns (more: seq<nat>)
    requires Picks(picks, n)
    ensures more == picks + [n] && Picks(more, n + 1) && n in more
    ensures forall i: nat | i < n :: i in more <==> i in picks
  {
    more := picks + [n];
  }

  lemma LexiconMore(front: seq<Flag>, f: Flag)
    ensures LexiconViolations(front + [f]) ==
            LexiconViolations(front) + if Reported(f) then [FlagViolation(f)] else []
  {
    Lists.CutAppend(front, [f]);
  }

  lemma {:induction false} LexiconPicks(flags: seq<Flag>) returns (picks: seq<nat>)
    ensures Picks(picks, |flags|) && |picks| == |LexiconViolations(flags)|
    ensures forall i: nat | i < |flags| :: i in picks <==> Reported(flags[i])
    ensures forall a | 0 <= a < |picks| :: LexiconViolations(flags)[a] == FlagViolation(flags[picks[a]])
  {
    if flags == [] {
      picks := [];
    } else {
      var n := |flags| - 1;
      var (front, f) := (flags[..n], flags[n]);
      Lists.FrontAndLast(flags);
      LexiconMore(front, f);
      picks := LexiconPicks(front);
      if Reported(f) {
        picks := PickLast(picks, n);
      }
    }
  }

  // The lexicon violations are, in order and one for one, the flags that nothing suppresses and that reach the
  // threshold of their category, each with its category and weight.
  lemma LexiconExactly(flags: seq<Flag>) returns (picks: seq<nat>)
    ensures Picks(picks, |flags|) && |picks| == |LexiconViolations(flags)|
    ensures forall i: nat | i < |flags| ::
      i in picks <==> !flags[i].suppressed && flags[i].weight >= Limits(flags[i].category).violation
    ensures forall a | 0 <= a < |picks| ::
      var f := flags[picks[a]];
      LexiconViolations(flags)[a] == Violation(f.category, f.weight, f.weight >= Limits(f.category).block)
  {
    picks := LexiconPicks(flags);
  }

  // No earlier match of the same pattern has the same first 40 characters.
  ghost predicate FirstOfKind(matches: seq<Match>, i: nat)
    requires i < |matches|
  {
    forall j | 0 <= j < i ::
      matches[j].row.pattern != matches[i].row.pattern || Prefix(matches[j].text, 40) != Prefix(matches[i].text, 40)
  }

  lemma KeptExactly(matches: seq<Match>) returns (picks: seq<nat>)
    ensures Picks(picks, |matches|) && |picks| == |KeepFirst(ViolationKey, matches)|
    ensures forall i: nat | i < |matches| :: i in picks <==> First(matches, i)
    ensures forall a | 0 <= a < |picks| :: KeepFirst(ViolationKey, matches)[a] == matches[picks[a]]
  {
    if matches == [] {
      picks := [];
    } else {
      var n := |matches| - 1;
      var (front, x) := (matches[..n], matches[n]);
      Lists.FrontAndLast(matches);
      picks := KeptExactly(front);
      KeepFirstMore(front, x);
      assert forall i | 0 <= i < n :: front[i] == matches[i] && (First(front, i) <==> First(matches, i));
      assert First(matches, n) <==> !HasKey(front, ViolationKey(x));
      if First(matches, n) {
        picks := PickLast(picks, n);
      }
    }
  }

  // The structural violations are, in order and one for one, the first matches of their kinds, with the category and
  // the confidence of their rows, blocking from 0.85 on.
  lemma StructuralExactly(matches: seq<Match>) returns (picks: seq<nat>)
    ensures Picks(picks, |matches|) && |picks| == |ToViolations(matches)|
    ensures forall i: nat | i < |matches| :: i in picks <==> FirstOfKind(matches, i)
    ensures forall a | 0 <= a < |picks| ::
      var row := matches[picks[a]].row;
      ToViolations(matches)[a] == Violation(row.category, row.confidence, row.confidence >= 0.85)
  {
    picks := KeptExactly(matches);
    forall i: nat | i < |matches| ensures First(matches, i) <==> FirstOfKind(matches, i) {
    }
  }

  lemma HundredthsExactly(x: real, n: int)
    ensures Hundredths(x) == n <==> n as real - 0.5 <= 100.0 * x < n as real + 0.5
  {
  }

  // Of the same category and, to two decimals, of the same confidence.
  ghost predicate Alike(v: Violation, category: Category, confidence: real) {
    v.category == category && exists n: int :: SameHundredth(v.confidence, confidence, n)
  }

  ghost predicate SameHundredth(x: real, y: real, n: int) {
    n as real - 0.5 <= 100.0 * x < n as real + 0.5 && n as real - 0.5 <= 100.0 * y < n as real + 0.5
  }

  lemma AlikeKeys(v: Violation, w: Violation)
    ensures Alike(v, w.category, w.confidence) <==> MergeKey(v) == MergeKey(w)
  {
    HundredthsExactly(v.confidence, Hundredths(v.confidence));
    if n: int :| SameHundredth(v.confidence, w.confidence, n) {
      HundredthsExactly(v.confidence, n);
      HundredthsExactly(w.confidence, n);
    }
    if Hundredths(v.confidence) == Hundredths(w.confidence) {
      HundredthsExactly(w.confidence, Hundredths(v.confidence));
      assert SameHundredth(v.confidence, w.confidence, Hundredths(v.confidence));
    }
  }

  // What a merge adds is what nothing before it is alike to.
  lemma {:induction false} MergeExactly(existing: seq<Violation>, structural: seq<Violation>)
    returns (picks: seq<nat>)
    ensures Picks(picks, |structural|)
    ensures var merged := Merge(existing, structural);
      && existing <= merged && |merged| == |existing| + |picks|
      && (forall a | 0 <= a < |picks| :: merged[|existing| + a] == structural[picks[a]])
    ensures forall i: nat | i < |structural| ::
      i in picks <==> && (forall v | v in existing :: !Alike(v, structural[i].category, structural[i].confidence))
                      && (forall j | 0 <= j < i ::
                            !Alike(structural[j], structural[i].category, structural[i].confidence))
  {
    picks := MergePicks(existing, structural);
    forall i: nat | i < |structural|
      ensures (forall v | v in existing :: !Alike(v, structural[i].category, structural[i].confidence)) <==>
              !Seen(existing, MergeKey(structural[i]))
      ensures (forall j | 0 <= j < i :: !Alike(structural[j], structural[i].category, structural[i].confidence)) <==>
              !Seen(structural[..i], MergeKey(structural[i]))
    {
      forall v ensures Alike(v, structural[i].category, structural[i].confidence) <==>
                       MergeKey(v) == MergeKey(structural[i])
      {
        AlikeKeys(v, structural[i]);
      }
    }
  }

  lemma SeenOne(violations: seq<Violation>, v: Violation, key: (Category, int))
    ensures Seen(violations + [v], key) <==> Seen(violations, key) || MergeKey(v) == key
  {
    var all := violations + [v];
    assert all[|violations|] == v && forall i | 0 <= i < |violations| :: all[i] == violations[i];
    if Seen(violations, key) {
      var i :| 0 <= i < |violations| && MergeKey(violations[i]) == key;
      assert MergeKey(all[i]) == key;
    }
    if MergeKey(v) == key {
      assert MergeKey(all[|violations|]) == key;
    }
  }

  lemma {:induction false} MergeSeen(existing: seq<Violation>, structural: seq<Violation>, key: (Category, int))
    ensures Seen(Merge(existing, structural), key) <==> Seen(existing, key) || Seen(structural, key)
  {
    if structural != [] {
      var n := |structural| - 1;
      MergeSeen(existing, structural[..n], key);
      MergeSeen(existing, structural[..n], MergeKey(structural[n]));
      SeenOne(structural[..n], structural[n], key);
      SeenOne(Merge(existing, structural[..n]), structural[n], key);
      Lists.FrontAndLast(structural);
    }
  }

  lemma {:induction false} MergePicks(existing: seq<Violation>, structural: seq<Violation>)
    returns (picks: seq<nat>)
    ensures Picks(picks, |structural|)
    ensures var merged := Merge(existing, structural);
      && existing <= merged && |merged| == |existing| + |picks|
      && (forall a | 0 <= a < |picks| :: merged[|existing| + a] == structural[picks[a]])
    ensures forall i: nat | i < |structural| ::
      i in picks <==> !Seen(existing, MergeKey(structural[i])) && !Seen(structural[..i], MergeKey(structural[i]))
  {
    if structural == [] {
      picks := [];
    } else {
      var n := |structural| - 1;
      var (front, v) := (structural[..n], structural[n]);
      picks := MergePicks(existing, front);
      MergeSeen(existing, front, MergeKey(v));
      MergeMore(existing, front, v);
      Lists.FrontAndLast(structural);
      forall i: nat | i < n ensures front[i] == structural[i] && front[..i] == structural[..i] {
      }
      if !Seen(Merge(existing, front), MergeKey(v)) {
        picks := PickLast(picks, n);
      }
    }
  }

  lemma MergeMore(existing: seq<Violation>, front: seq<Violation>, v: Violation)
    ensures Merge(existing, front + [v]) ==
            Merge(existing, front) + if Seen(Merge(existing, front), MergeKey(v)) then [] else [v]
  {
    Lists.CutAppend(front, [v]);
  }

  ghost predicate FromFlag(flags: seq<Flag>, v: Violation) {
    exists i :: 0 <= i < |flags| && Reported(flags[i]) && v == FlagViolation(flags[i])
  }

  ghost predicate FromMatch(matches: seq<Match>, v: Violation) {
    exists i :: 0 <= i < |matches| && FirstOfKind(matches, i) && v == RowViolation(matches[i].row)
  }

  function RowViolation(row: Row): Violation { Violation(row.category, row.confidence, row.confidence >= 0.85) }

  ghost predicate Represented(violations: seq<Violation>, row: Row) {
    exists v :: v in violations && Alike(v, row.category, row.confidence)
  }

  lemma LexiconMembers(flags: seq<Flag>)
    ensures forall i | 0 <= i < |flags| && Reported(flags[i]) :: FlagViolation(flags[i]) in LexiconViolations(flags)
    ensures forall v | v in LexiconViolations(flags) :: FromFlag(flags, v)
  {
    var picks := LexiconPicks(flags);
    forall i | 0 <= i < |flags| && Reported(flags[i]) ensures FlagViolation(flags[i]) in LexiconViolations(flags) {
      var a :| 0 <= a < |picks| && picks[a] == i;
      assert LexiconViolations(flags)[a] == FlagViolation(flags[i]);
    }
    forall v | v in LexiconViolations(flags) ensures FromFlag(flags, v) {
      var a :| 0 <= a < |picks| && LexiconViolations(flags)[a] == v;
      assert picks[a] in picks && Reported(flags[picks[a]]);
    }
  }

  lemma StructuralMembers(matches: seq<Match>)
    ensures forall i | 0 <= i < |matches| && FirstOfKind(matches, i) ::
      RowViolation(matches[i].row) in ToViolations(matches)
    ensures forall v | v in ToViolations(matches) :: FromMatch(matches, v)
  {
    var picks := StructuralExactly(matches);
    forall i | 0 <= i < |matches| && FirstOfKind(matches, i)
      ensures RowViolation(matches[i].row) in ToViolations(matches)
    {
      var a :| 0 <= a < |picks| && picks[a] == i;
      assert ToViolations(matches)[a] == RowViolation(matches[i].row);
    }
    forall v | v in ToViolations(matches) ensures FromMatch(matches, v) {
      var a :| 0 <= a < |picks| && ToViolations(matches)[a] == v;
      assert picks[a] in picks;
    }
  }

  lemma MergeMembers(existing: seq<Violation>, structural: seq<Violation>)
    ensures var merged := Merge(existing, structural);
      && (forall v | v in existing :: v in merged)
      && (forall v | v in merged :: v in existing || v in structural)
      && (forall v | v in structural :: exists w :: w in merged && MergeKey(w) == MergeKey(v))
  {
    var merged := Merge(existing, structural);
    var picks := MergePicks(existing, structural);
    forall v | v in merged ensures v in existing || v in structural {
      var a :| 0 <= a < |merged| && merged[a] == v;
      if a >= |existing| {
        assert merged[|existing| + (a - |existing|)] == structural[picks[a - |existing|]];
      }
    }
    forall v | v in structural ensures exists w :: w in merged && MergeKey(w) == MergeKey(v) {
      MergeSeen(existing, structural, MergeKey(v));
      var a :| 0 <= a < |merged| && MergeKey(merged[a]) == MergeKey(v);
      assert merged[a] in merged;
    }
  }

  // All that is reported, in terms of what was detected.
  lemma EvaluationExactly(flags: seq<Flag>, english: seq<Match>, spanish: seq<Match>)
    ensures var violations := Merge(LexiconViolations(flags), ToViolations(Detected(english, spanish)));
      && (forall i | 0 <= i < |flags| && Reported(flags[i]) :: FlagViolation(flags[i]) in violations)
      && (forall v | v in violations :: FromFlag(flags, v) || FromMatch(english + spanish, v))
    ensures var violations := Merge(LexiconViolations(flags), ToViolations(Detected(english, spanish)));
      var all := english + spanish;
      forall i | 0 <= i < |all| && FirstOfKind(all, i) :: Represented(violations, all[i].row)
  {
    var all := english + spanish;
    var (lexicon, structural) := (LexiconViolations(flags), ToViolations(all));
    ScanKeepsViolations(english, spanish);
    LexiconMembers(flags);
    StructuralMembers(all);
    MergeMembers(lexicon, structural);
    forall i | 0 <= i < |all| && FirstOfKind(all, i) ensures Represented(Merge(lexicon, structural), all[i].row) {
      var v := RowViolation(all[i].row);
      var w :| w in Merge(lexicon, structural) && MergeKey(w) == MergeKey(v);
      AlikeKeys(w, v);
    }
  }

  // `flags` are the lexicon's; the matches are those of the two languages before repeated ones are dropped.
  method Evaluate(flags: seq<Flag>, english: seq<Match>, spanish: seq<Match>) returns (r: Evaluation)
    ensures r.violations == Merge(LexiconViolations(flags), ToViolations(Detected(english, spanish)))
    // Every reported flag is in the list, every first match of its kind is, unless something of its category has its
    // confidence already, and nothing else is.
    ensures forall i | 0 <= i < |flags| && Reported(flags[i]) :: FlagViolation(flags[i]) in r.violations
    ensures var all := english + spanish;
      forall i | 0 <= i < |all| && FirstOfKind(all, i) :: Represented(r.violations, all[i].row)
    ensures forall v | v in r.violations :: FromFlag(flags, v) || FromMatch(english + spanish, v)
    ensures r.enforcementBlocked <==>
            AnyBlocked(r.violations) || FloorReached(flags, Detected(english, spanish))
    ensures r.passed <==> !r.enforcementBlocked
  {
    var matches := Detected(english, spanish);
    var violations: seq<Violation> := [];
    var n := 0;
    while n < |flags|
      invariant 0 <= n <= |flags| && violations == LexiconViolations(flags[..n])
    {
      var (flag, limits) := (flags[n], Limits(flags[n].category));
      assert flags[..n + 1][..n] == flags[..n];
      if !flag.suppressed && flag.weight >= limits.violation {
        violations := violations + [Violation(flag.category, flag.weight, flag.weight >= limits.block)];
      }
      n := n + 1;
    }
    assert flags[..n] == flags;
    var structural := StructuralMatchesToViolations(matches);
    var merged := MergeViolations(violations, structural);
    var catastrophicHit := CatastrophicHit(flags + StructuralFlags(matches));
    EvaluationExactly(flags, english, spanish);
    FloorExactly(flags, matches);
    var anyBlocked := exists i :: 0 <= i < |merged| && merged[i].blocked;
    var passed := !anyBlocked && !catastrophicHit;
    return Evaluation(passed, !passed || anyBlocked || catastrophicHit, merged);
  }
}
