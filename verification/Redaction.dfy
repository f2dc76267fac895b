/** Redaction of detected secrets: normalisation of the detected spans and the rewrite of the content, on UTF-8
    bytes. The patterns that detect the spans are not part of this model. */
module Redaction {
  import Lists
  import opened Characters
  import opened Utf8
  import opened Sorting

  datatype Span = Span(start: nat, end: nat, category: string, replacement: seq<byte>)

  predicate Overlap(a: Span, b: Span) { a.start < b.end && b.start < a.end }

  predicate Inside(a: Span, b: Span) { b.start <= a.start && a.end <= b.end }

  predicate Covers(s: Span, p: nat) { s.start <= p < s.end }

  ghost predicate Covered(spans: seq<Span>, p: nat) { exists i :: 0 <= i < |spans| && Covers(spans[i], p) }

  // What a pattern finds is not empty.
  ghost predicate Proper(spans: seq<Span>) { forall i | 0 <= i < |spans| :: spans[i].start < spans[i].end }

  // Two spans are disjoint or one is inside the other.
  predicate Nested(a: Span, b: Span) {
    Overlap(a, b) ==> Inside(a, b) || Inside(b, a)
  }

  ghost predicate Laminar(spans: seq<Span>) {
    forall i, j | 0 <= i < |spans| && 0 <= j < |spans| :: Nested(spans[i], spans[j])
  }

  ghost predicate Disjoint(spans: seq<Span>) {
    forall i, j | 0 <= i < j < |spans| :: spans[i].end <= spans[j].start
  }

  // By start, the longer first.
  predicate LongerFirst(a: Span, b: Span) {
    a.start < b.start || (a.start == b.start && a.end >= b.end)
  }

  // By start, then by end.
  predicate EarlierFirst(a: Span, b: Span) {
    a.start < b.start || (a.start == b.start && a.end <= b.end)
  }

  lemma OrdersConsistent()
    ensures TotalPreorder(LongerFirst) && TotalPreorder(EarlierFirst)
  {
    forall a, b, c | LongerFirst(a, b) && LongerFirst(b, c) ensures LongerFirst(a, c) {}
    forall a, b, c | EarlierFirst(a, b) && EarlierFirst(b, c) ensures EarlierFirst(a, c) {}
  }

  // The greedy pass: a span is kept if it does not start before the end of the last one kept.
  function Kept(ordered: seq<Span>): (kept: seq<Span>)
    ensures ordered != [] ==> kept != []
  {
    if ordered == [] then []
    else Pushed(Kept(ordered[..|ordered| - 1]), ordered[|ordered| - 1])
  }

  function Pushed(kept: seq<Span>, candidate: Span): seq<Span> {
    if kept == [] || candidate.start >= kept[|kept| - 1].end then kept + [candidate] else kept
  }

  function Normalize(spans: seq<Span>): seq<Span> {
    Kept(Sort(LongerFirst, spans))
  }

  method NormalizeSpans(spans: seq<Span>) returns (normalized: seq<Span>)
    ensures normalized == Normalize(spans)
  {
    var ordered := Sort(LongerFirst, spans);
    normalized := [];
    var n := 0;
    while n < |ordered|
      invariant 0 <= n <= |ordered|
      invariant normalized == Kept(ordered[..n])
    {
      if normalized == [] || ordered[n].start >= normalized[|normalized| - 1].end {
        normalized := normalized + [ordered[n]];
      }
      n := n + 1;
      assert ordered[..n][..n - 1] == ordered[..n - 1];
    }
    assert ordered[..n] == ordered;
  }

  // `k` is why `s` was dropped: it starts inside `k` and does not come before it.
  predicate DroppedFor(s: Span, k: Span) {
    k.start <= s.start < k.end && LongerFirst(k, s)
  }

  ghost predicate Explained(s: Span, kept: seq<Span>) {
    s in kept || exists i :: 0 <= i < |kept| && DroppedFor(s, kept[i])
  }

  // What the greedy pass has made of `ordered`.
  ghost predicate Greedy(ordered: seq<Span>, kept: seq<Span>) {
    && Disjoint(kept) && Proper(kept) && (forall i | 0 <= i < |kept| :: kept[i] in ordered)
    && (forall s | s in ordered :: Explained(s, kept))
  }

  lemma GreedyKeep(front: seq<Span>, kept: seq<Span>, candidate: Span)
    requires Greedy(front, kept) && candidate.start < candidate.end
    requires kept == [] || candidate.start >= kept[|kept| - 1].end
    ensures Greedy(front + [candidate], kept + [candidate])
  {
    var all := kept + [candidate];
    assert all[|kept|] == candidate && forall i | 0 <= i < |kept| :: all[i] == kept[i];
    assert forall i | 0 <= i < |kept| - 1 :: kept[i].end <= kept[|kept| - 1].start;
    forall s | s in front + [candidate] ensures Explained(s, all) {
      if s in front {
        ExplainedStill(s, kept, candidate);
      }
    }
  }

  lemma ExplainedStill(s: Span, kept: seq<Span>, candidate: Span)
    requires Explained(s, kept)
    ensures Explained(s, kept + [candidate])
  {
    if s !in kept {
      var i :| 0 <= i < |kept| && DroppedFor(s, kept[i]);
      assert (kept + [candidate])[i] == kept[i];
    }
  }

  lemma GreedyDrop(front: seq<Span>, kept: seq<Span>, candidate: Span)
    requires Greedy(front, kept) && kept != [] && candidate.start < kept[|kept| - 1].end
    requires forall i | 0 <= i < |front| :: LongerFirst(front[i], candidate)
    ensures Greedy(front + [candidate], kept)
  {
    var last := kept[|kept| - 1];
    assert last in front;
    var i :| 0 <= i < |front| && front[i] == last;
    assert DroppedFor(candidate, kept[|kept| - 1]);
    assert Explained(candidate, kept);
  }

  lemma GreedyPush(front: seq<Span>, kept: seq<Span>, candidate: Span)
    requires Greedy(front, kept) && candidate.start < candidate.end
    requires forall i | 0 <= i < |front| :: LongerFirst(front[i], candidate)
    ensures Greedy(front + [candidate], Pushed(kept, candidate))
  {
    if kept == [] || candidate.start >= kept[|kept| - 1].end {
      GreedyKeep(front, kept, candidate);
    } else {
      GreedyDrop(front, kept, candidate);
    }
  }

  lemma {:induction false} KeptGreedy(ordered: seq<Span>)
    requires Proper(ordered) && Sorted(LongerFirst, ordered)
    ensures Greedy(ordered, Kept(ordered))
  {
    if ordered != [] {
      var n := |ordered| - 1;
      var (front, candidate) := (ordered[..n], ordered[n]);
      assert ordered == front + [candidate];
      assert forall i | 0 <= i < n :: front[i] == ordered[i];
      KeptGreedy(front);
      forall i | 0 <= i < n ensures LongerFirst(front[i], candidate) {
        assert LongerFirst(ordered[i], ordered[n]);
      }
      GreedyPush(front, Kept(front), candidate);
    }
  }

  // The kept spans are sorted and disjoint and come from the input; every dropped span starts inside a kept one.
  lemma NormalizeGreedy(spans: seq<Span>)
    requires Proper(spans)
    ensures Greedy(spans, Normalize(spans))
  {
    var ordered := Sort(LongerFirst, spans);
    OrdersConsistent();
    SortStable(LongerFirst, spans);
    forall i | 0 <= i < |ordered| ensures ordered[i].start < ordered[i].end {
      assert ordered[i] in spans;
    }
    KeptGreedy(ordered);
  }

  // Maximal: no dropped span could be added.
  lemma NormalizeMaximal(spans: seq<Span>, s: Span)
    requires Proper(spans) && s in spans && s !in Normalize(spans)
    ensures exists i :: 0 <= i < |Normalize(spans)| && Overlap(s, Normalize(spans)[i])
  {
    NormalizeGreedy(spans);
    assert Explained(s, Normalize(spans));
    var i :| 0 <= i < |Normalize(spans)| && DroppedFor(s, Normalize(spans)[i]);
    var j :| 0 <= j < |spans| && spans[j] == s;
    assert Overlap(s, Normalize(spans)[i]);
  }

  lemma {:induction false} KeptAll(spans: seq<Span>)
    requires Disjoint(spans)
    ensures Kept(spans) == spans
  {
    if spans != [] {
      KeptAll(spans[..|spans| - 1]);
      assert spans == spans[..|spans| - 1] + [spans[|spans| - 1]];
    }
  }

  lemma {:induction false} SortSorted(order: Order<Span>, s: seq<Span>)
    requires TotalPreorder(order) && Sorted(order, s)
    ensures Sort(order, s) == s
  {
    SortStable(order, s);
    forall x ensures TiedWith(order, Sort(order, s), x) == TiedWith(order, s, x) {
      assert TiedWith(order, s, x) == TiedWith(order, Sort(order, s), x);
    }
    SortUnique(order, Sort(order, s), s);
  }

  lemma DisjointSorted(spans: seq<Span>)
    requires Disjoint(spans) && Proper(spans)
    ensures Sorted(LongerFirst, spans) && Sorted(EarlierFirst, spans)
  {
  }

  lemma NormalizeIdempotent(spans: seq<Span>)
    requires Proper(spans)
    ensures Normalize(Normalize(spans)) == Normalize(spans)
  {
    var kept := Normalize(spans);
    NormalizeGreedy(spans);
    OrdersConsistent();
    DisjointSorted(kept);
    SortSorted(LongerFirst, kept);
    KeptAll(kept);
  }

  // The kept span in which a detected one starts.
  lemma KeeperOf(spans: seq<Span>, s: Span) returns (j: nat)
    requires Proper(spans) && s in spans
    ensures j < |Normalize(spans)| && Covers(Normalize(spans)[j], s.start) && LongerFirst(Normalize(spans)[j], s)
  {
    var kept := Normalize(spans);
    NormalizeGreedy(spans);
    assert Explained(s, kept);
    if s in kept {
      j :| 0 <= j < |kept| && kept[j] == s;
    } else {
      j :| 0 <= j < |kept| && DroppedFor(s, kept[j]);
    }
  }

  lemma CoveredMember(spans: seq<Span>, s: Span, p: nat)
    requires s in spans && Covers(s, p)
    ensures Covered(spans, p)
  {
    var i :| 0 <= i < |spans| && spans[i] == s;
    assert Covers(spans[i], p);
  }

  ghost predicate Begins(spans: seq<Span>, p: nat) { exists i :: 0 <= i < |spans| && spans[i].start == p }

  // `s` runs on past the end of `k`, so that something else must cover what is left of it.
  predicate RunsOver(s: Span, k: Span) { s.start < k.end < s.end }

  // Where a detected span runs on past a kept one, another detected span begins.
  ghost predicate Continued(spans: seq<Span>) {
    forall k, s | k in Normalize(spans) && s in spans && RunsOver(s, k) :: Begins(spans, k.end)
  }

  // What a span that starts before the end of the kept span `i` covers is covered from there on.
  lemma {:induction false} TailCovered(spans: seq<Span>, i: nat, s: Span, p: nat)
    requires Proper(spans) && Continued(spans) && s in spans && Covers(s, p)
    requires i < |Normalize(spans)| && Normalize(spans)[i].start <= p && s.start < Normalize(spans)[i].end
    ensures Covered(Normalize(spans), p)
    decreases |Normalize(spans)| - i
  {
    var kept := Normalize(spans);
    if p < kept[i].end {
      CoveredMember(kept, kept[i], p);
    } else {
      assert RunsOver(s, kept[i]);
      NextKept(spans, i);
      TailCovered(spans, i + 1, s, p);
    }
  }

  // The span that begins at the end of a kept one is kept itself, or gave way to one that begins there.
  lemma NextKept(spans: seq<Span>, i: nat)
    requires Proper(spans) && i < |Normalize(spans)| && Begins(spans, Normalize(spans)[i].end)
    ensures i + 1 < |Normalize(spans)| && Normalize(spans)[i + 1].start == Normalize(spans)[i].end
    ensures Normalize(spans)[i + 1].start < Normalize(spans)[i + 1].end
  {
    var kept := Normalize(spans);
    NormalizeGreedy(spans);
    var l :| 0 <= l < |spans| && spans[l].start == kept[i].end;
    var j := KeeperOf(spans, spans[l]);
    assert j > i;
  }

  lemma ContinuedCovered(spans: seq<Span>, p: nat)
    requires Proper(spans) && Continued(spans) && Covered(spans, p)
    ensures Covered(Normalize(spans), p)
  {
    var kept := Normalize(spans);
    NormalizeGreedy(spans);
    var l :| 0 <= l < |spans| && Covers(spans[l], p);
    assert Explained(spans[l], kept);
    if spans[l] in kept {
      CoveredMember(kept, spans[l], p);
    } else {
      var i :| 0 <= i < |kept| && DroppedFor(spans[l], kept[i]);
      TailCovered(spans, i, spans[l], p);
    }
  }

  lemma CoveredContinued(spans: seq<Span>, k: Span, s: Span)
    requires Proper(spans) && k in Normalize(spans) && s in spans && RunsOver(s, k)
    requires Covered(Normalize(spans), k.end)
    ensures Begins(spans, k.end)
  {
    var kept := Normalize(spans);
    NormalizeGreedy(spans);
    var i :| 0 <= i < |kept| && kept[i] == k;
    var j :| 0 <= j < |kept| && Covers(kept[j], k.end);
    assert j > i && kept[j].start == k.end;
    assert kept[j] in spans;
  }

  // The kept spans cover what the detected ones cover if and only if another detected span begins wherever one
  // runs on past the end of a kept one.
  lemma CoverageExactly(spans: seq<Span>)
    requires Proper(spans)
    ensures (forall p: nat :: Covered(Normalize(spans), p) <==> Covered(spans, p)) <==> Continued(spans)
  {
    if Continued(spans) {
      forall p: nat ensures Covered(Normalize(spans), p) <==> Covered(spans, p) {
        if Covered(spans, p) {
          ContinuedCovered(spans, p);
        } else if Covered(Normalize(spans), p) {
          KeptCovered(spans, p);
        }
      }
    }
    if forall p: nat :: Covered(Normalize(spans), p) <==> Covered(spans, p) {
      forall k, s | k in Normalize(spans) && s in spans && RunsOver(s, k) ensures Begins(spans, k.end) {
        CoveredMember(spans, s, k.end);
        CoveredContinued(spans, k, s);
      }
    }
  }

  lemma KeptCovered(spans: seq<Span>, p: nat)
    requires Proper(spans) && Covered(Normalize(spans), p)
    ensures Covered(spans, p)
  {
    NormalizeGreedy(spans);
    var j :| 0 <= j < |Normalize(spans)| && Covers(Normalize(spans)[j], p);
    CoveredMember(spans, Normalize(spans)[j], p);
  }

  // The longer of two nested spans comes first, so nothing runs on past a kept span.
  lemma LaminarNever(spans: seq<Span>, k: Span, s: Span)
    requires Proper(spans) && Laminar(spans) && k in Normalize(spans) && s in spans
    ensures !RunsOver(s, k)
  {
    var kept := Normalize(spans);
    NormalizeGreedy(spans);
    assert Explained(s, kept);
    var i :| 0 <= i < |kept| && kept[i] == k;
    LaminarPair(spans, k, s);
    if s in kept {
      var j :| 0 <= j < |kept| && kept[j] == s;
      KeptNever(kept, i, j, s);
    } else {
      var j :| 0 <= j < |kept| && DroppedFor(s, kept[j]);
      LaminarPair(spans, kept[j], s);
      KeptNever(kept, i, j, s);
    }
  }

  lemma KeptNever(kept: seq<Span>, i: nat, j: nat, s: Span)
    requires Disjoint(kept) && i < |kept| && j < |kept| && Nested(kept[i], s) && Nested(kept[j], s)
    requires kept[i].start < kept[i].end
    requires s == kept[j] || DroppedFor(s, kept[j])
    ensures !RunsOver(s, kept[i])
  {
  }

  lemma LaminarPair(spans: seq<Span>, a: Span, b: Span)
    requires Laminar(spans) && a in spans && b in spans
    ensures Nested(a, b)
  {
    var i :| 0 <= i < |spans| && spans[i] == a;
    var j :| 0 <= j < |spans| && spans[j] == b;
    assert Nested(spans[i], spans[j]);
  }

  // Detected spans that are nested or disjoint are covered by the kept ones, byte for byte.
  lemma LaminarCovered(spans: seq<Span>, p: nat)
    requires Proper(spans) && Laminar(spans)
    ensures Covered(Normalize(spans), p) <==> Covered(spans, p)
  {
    forall k, s | k in Normalize(spans) && s in spans ensures !RunsOver(s, k) {
      LaminarNever(spans, k, s);
    }
    CoverageExactly(spans);
  }

  predicate SameBounds(a: Span, b: Span) { a.start == b.start && a.end == b.end }

  // `tiles` are detected spans that do not overlap, each the longest at its start, and cover what is detected.
  ghost predicate Tiles(tiles: seq<Span>, spans: seq<Span>) {
    && Disjoint(tiles)
    && (forall t | t in tiles :: t in spans && Longest(t, spans))
    && (forall p: nat | Covered(spans, p) :: Covered(tiles, p))
  }

  ghost predicate Longest(t: Span, spans: seq<Span>) { forall s | s in spans && s.start == t.start :: s.end <= t.end }

  lemma KeptLongest(spans: seq<Span>, k: Span)
    requires Proper(spans) && k in Normalize(spans)
    ensures Longest(k, spans)
  {
    var kept := Normalize(spans);
    NormalizeGreedy(spans);
    var i :| 0 <= i < |kept| && kept[i] == k;
    forall s | s in spans && s.start == k.start ensures s.end <= k.end {
      var j := KeeperOf(spans, s);
      AtMostOne(kept, i, j, k.start);
    }
  }

  lemma AtMostOne(spans: seq<Span>, i: nat, j: nat, p: nat)
    requires Disjoint(spans) && i < |spans| && j < |spans| && Covers(spans[i], p) && Covers(spans[j], p)
    ensures i == j
  {
  }

  // Every kept span is one of the tiles.
  lemma {:induction false} KeptIsTile(spans: seq<Span>, tiles: seq<Span>, i: nat) returns (t: nat)
    requires Proper(spans) && Tiles(tiles, spans) && i < |Normalize(spans)|
    ensures t < |tiles| && SameBounds(tiles[t], Normalize(spans)[i])
  {
    var kept := Normalize(spans);
    var k := kept[i];
    NormalizeGreedy(spans);
    CoveredMember(spans, k, k.start);
    t :| 0 <= t < |tiles| && Covers(tiles[t], k.start);
    if tiles[t].start == k.start {
      KeptLongest(spans, k);
      assert tiles[t] in tiles;
    } else {
      assert tiles[t] in tiles;
      var j := KeeperOf(spans, tiles[t]);
      assert j < i && kept[j].end <= k.start;
      var u := KeptIsTile(spans, tiles, j);
      NoneInside(tiles, t, u);
    }
  }

  lemma NoneInside(tiles: seq<Span>, t: nat, u: nat)
    requires Disjoint(tiles) && t < |tiles| && u < |tiles| && tiles[t].start < tiles[t].end
    ensures Covers(tiles[u], tiles[t].start) ==> u == t
    ensures Covers(tiles[u], tiles[t].end) ==> tiles[u].start >= tiles[t].end
  {
  }

  // In terms of the detected spans alone: the kept spans cover what is detected if and only if some of the detected
  // spans, without overlap and each the longest at its start, do.
  lemma CoverageOfTiles(spans: seq<Span>)
    requires Proper(spans)
    ensures (forall p: nat :: Covered(Normalize(spans), p) <==> Covered(spans, p)) <==>
            exists tiles :: Tiles(tiles, spans)
  {
    if forall p: nat :: Covered(Normalize(spans), p) <==> Covered(spans, p) {
      NormalizeGreedy(spans);
      forall k | k in Normalize(spans) ensures Longest(k, spans) {
        KeptLongest(spans, k);
      }
      assert Tiles(Normalize(spans), spans);
    }
    if tiles :| Tiles(tiles, spans) {
      forall k, s | k in Normalize(spans) && s in spans && RunsOver(s, k) ensures Begins(spans, k.end) {
        TileBegins(spans, tiles, k, s);
      }
      CoverageExactly(spans);
    }
  }

  lemma TileBegins(spans: seq<Span>, tiles: seq<Span>, k: Span, s: Span)
    requires Proper(spans) && Tiles(tiles, spans) && k in Normalize(spans) && s in spans && RunsOver(s, k)
    ensures Begins(spans, k.end)
  {
    NormalizeGreedy(spans);
    var i :| 0 <= i < |Normalize(spans)| && Normalize(spans)[i] == k;
    var t := KeptIsTile(spans, tiles, i);
    CoveredMember(spans, s, k.end);
    var u :| 0 <= u < |tiles| && Covers(tiles[u], k.end);
    NoneInside(tiles, t, u);
    assert tiles[u] in tiles;
  }

  lemma PairLaminar(a: Span, b: Span)
    requires LongerFirst(a, b)
    ensures Laminar([a, b]) <==> !RunsOver(b, a)
  {
    assert [a, b][0] == a && [a, b][1] == b;
    if !RunsOver(b, a) {
      assert Nested(a, a) && Nested(b, b) && Nested(a, b) && Nested(b, a);
    } else {
      assert !Nested([a, b][0], [a, b][1]);
    }
  }

  lemma PairKept(a: Span, b: Span)
    requires LongerFirst(a, b) && RunsOver(b, a)
    ensures Normalize([a, b]) == [a]
  {
    OrdersConsistent();
    assert Sorted(LongerFirst, [a, b]);
    SortSorted(LongerFirst, [a, b]);
    assert [a, b][..1] == [a] && [a][..0] == [];
    assert Kept([a]) == [a];
  }

  // For two spans nothing can begin where the dropped one runs on: a partial overlap leaves its tail in the content.
  lemma TwoSpansExactly(a: Span, b: Span)
    requires a.start < a.end && b.start < b.end && LongerFirst(a, b)
    ensures (forall p: nat :: Covered(Normalize([a, b]), p) <==> Covered([a, b], p)) <==> Laminar([a, b])
  {
    CoverageExactly([a, b]);
    PairLaminar(a, b);
    if RunsOver(b, a) {
      PairKept(a, b);
      assert [a, b][1] == b && a in [a] && !Begins([a, b], a.end);
    } else {
      forall p: nat ensures Covered(Normalize([a, b]), p) <==> Covered([a, b], p) {
        LaminarCovered([a, b], p);
      }
    }
  }

  predicate CharBoundary(content: seq<byte>, index: nat) {
    index == 0 || index == |content| || (index < |content| && !Continuation(content[index]))
  }

  predicate Usable(content: seq<byte>, s: Span) {
    s.start < s.end <= |content| && CharBoundary(content, s.start) && CharBoundary(content, s.end)
  }

  // The spans that the rewrite uses, from `cursor` on.
  function Used(content: seq<byte>, ordered: seq<Span>, cursor: nat): seq<Span> {
    if ordered == [] then []
    else if ordered[0].start < cursor || !Usable(content, ordered[0]) then Used(content, ordered[1..], cursor)
    else [ordered[0]] + Used(content, ordered[1..], ordered[0].end)
  }

  // The content from `cursor` on with the given spans replaced.
  ghost predicate Fits(content: seq<byte>, spans: seq<Span>, cursor: nat) {
    && cursor <= |content| && Disjoint(spans)
    && (forall i | 0 <= i < |spans| :: cursor <= spans[i].start < spans[i].end <= |content|)
  }

  ghost function Splice(content: seq<byte>, spans: seq<Span>, cursor: nat): seq<byte>
    requires Fits(content, spans, cursor)
  {
    if spans == [] then content[cursor..]
    else content[cursor..spans[0].start] + spans[0].replacement + Splice(content, spans[1..], spans[0].end)
  }

  lemma {:induction false} UsedFits(content: seq<byte>, ordered: seq<Span>, cursor: nat)
    requires cursor <= |content|
    ensures Fits(content, Used(content, ordered, cursor), cursor)
    ensures forall s | s in Used(content, ordered, cursor) :: s in ordered && Usable(content, s)
  {
    if ordered != [] {
      var s := ordered[0];
      if s.start < cursor || !Usable(content, s) {
        UsedFits(content, ordered[1..], cursor);
      } else {
        UsedFits(content, ordered[1..], s.end);
      }
    }
  }

  ghost function Redacted(content: seq<byte>, spans: seq<Span>): seq<byte> {
    UsedFits(content, Sort(EarlierFirst, spans), 0);
    Splice(content, Used(content, Sort(EarlierFirst, spans), 0), 0)
  }

  method Redact(content: seq<byte>, spans: seq<Span>) returns (output: seq<byte>)
    ensures output == Redacted(content, spans)
  {
    var ordered := Sort(EarlierFirst, spans);
    output := [];
    var cursor: nat := 0;
    var n := 0;
    UsedFits(content, ordered, 0);
    while n < |ordered|
      invariant 0 <= n <= |ordered| && cursor <= |content|
      invariant Fits(content, Used(content, ordered[n..], cursor), cursor)
      invariant Redacted(content, spans) == output + Splice(content, Used(content, ordered[n..], cursor), cursor)
    {
      var s := ordered[n];
      assert ordered[n..][0] == s && ordered[n..][1..] == ordered[n + 1..];
      if s.start < cursor || !Usable(content, s) {
        n := n + 1;
        continue;
      }
      UsedFits(content, ordered[n + 1..], s.end);
      SpliceFirst(content, s, Used(content, ordered[n + 1..], s.end), cursor, output);
      output := output + content[cursor..s.start];
      output := output + s.replacement;
      cursor := s.end;
      n := n + 1;
    }
    output := output + content[cursor..];
  }

  lemma SpliceFirst(content: seq<byte>, s: Span, rest: seq<Span>, cursor: nat, output: seq<byte>)
    requires Fits(content, [s] + rest, cursor) && Fits(content, rest, s.end) && cursor <= s.start <= |content|
    ensures output + Splice(content, [s] + rest, cursor) ==
            output + content[cursor..s.start] + s.replacement + Splice(content, rest, s.end)
  {
    assert ([s] + rest)[1..] == rest;
  }

  function Taken(spans: seq<Span>): int {
    if spans == [] then 0 else spans[0].end - spans[0].start + Taken(spans[1..])
  }

  function Given(spans: seq<Span>): int {
    if spans == [] then 0 else |spans[0].replacement| + Given(spans[1..])
  }

  lemma {:induction false} SpliceLength(content: seq<byte>, spans: seq<Span>, cursor: nat)
    requires Fits(content, spans, cursor)
    ensures |Splice(content, spans, cursor)| == |content| - cursor - Taken(spans) + Given(spans)
  {
    if spans != [] {
      SpliceLength(content, spans[1..], spans[0].end);
    }
  }

  // Where a byte outside the spans ends up, relative to the rest of the content.
  function Shift(spans: seq<Span>, p: nat): int {
    if spans == [] || p < spans[0].start then 0
    else |spans[0].replacement| - (spans[0].end - spans[0].start) + Shift(spans[1..], p)
  }

  // Bytes outside the spans are copied in order; each span's replacement stands where the span was.
  lemma {:induction false} SpliceCopies(content: seq<byte>, spans: seq<Span>, cursor: nat, p: nat)
    requires Fits(content, spans, cursor) && cursor <= p < |content| && !Covered(spans, p)
    ensures 0 <= p - cursor + Shift(spans, p) < |Splice(content, spans, cursor)|
    ensures Splice(content, spans, cursor)[p - cursor + Shift(spans, p)] == content[p]
  {
    if spans != [] && p >= spans[0].start {
      assert !Covers(spans[0], p);
      forall i | 0 <= i < |spans| - 1 ensures !Covers(spans[1..][i], p) {
        assert !Covers(spans[i + 1], p);
      }
      SpliceCopies(content, spans[1..], spans[0].end, p);
    }
  }

  lemma {:induction false} SpliceReplaces(content: seq<byte>, spans: seq<Span>, cursor: nat, i: nat, q: nat)
    requires Fits(content, spans, cursor) && i < |spans| && q < |spans[i].replacement|
    ensures 0 <= spans[i].start - cursor + ShiftBefore(spans, i) + q < |Splice(content, spans, cursor)|
    ensures Splice(content, spans, cursor)[spans[i].start - cursor + ShiftBefore(spans, i) + q] ==
            spans[i].replacement[q]
  {
    if i != 0 {
      assert spans[1..][i - 1] == spans[i];
      SpliceReplaces(content, spans[1..], spans[0].end, i - 1, q);
    }
  }

  // How far the first `i` spans move what comes after them.
  function ShiftBefore(spans: seq<Span>, i: nat): int
    requires i <= |spans|
  {
    if i == 0 then 0 else |spans[0].replacement| - (spans[0].end - spans[0].start) + ShiftBefore(spans[1..], i - 1)
  }

  lemma {:induction false} UsedAll(content: seq<byte>, spans: seq<Span>, cursor: nat)
    requires Fits(content, spans, cursor) && forall s | s in spans :: Usable(content, s)
    ensures Used(content, spans, cursor) == spans
  {
    if spans != [] {
      UsedAll(content, spans[1..], spans[0].end);
      assert spans == [spans[0]] + spans[1..];
    }
  }

  // A span that can be replaced at all: it is not empty, lies within the text and cuts no character.
  ghost predicate WholeCharacters(text: string, s: Span) {
    s.start < s.end <= |Encode(text)| && AtCharacter(text, s.start) && AtCharacter(text, s.end)
  }

  lemma UsableExactly(text: string, s: Span)
    ensures Usable(Encode(text), s) <==> WholeCharacters(text, s)
  {
    if s.start < s.end <= |Encode(text)| {
      BoundaryExactly(text, s.start);
      BoundaryExactly(text, s.end);
      BoundaryExactly(text, 0);
      assert text[..0] == [];
    }
  }

  // On a normalised list of spans between characters nothing is skipped.
  lemma NormalizedAllUsed(text: string, spans: seq<Span>)
    requires forall s | s in spans :: WholeCharacters(text, s)
    ensures Fits(Encode(text), Normalize(spans), 0)
    ensures Redacted(Encode(text), Normalize(spans)) == Splice(Encode(text), Normalize(spans), 0)
  {
    var (content, kept) := (Encode(text), Normalize(spans));
    forall i | 0 <= i < |spans| ensures spans[i].start < spans[i].end {
      assert spans[i] in spans;
    }
    forall s | s in spans ensures Usable(content, s) {
      UsableExactly(text, s);
    }
    NormalizeGreedy(spans);
    OrdersConsistent();
    DisjointSorted(kept);
    SortSorted(EarlierFirst, kept);
    UsedAll(content, kept, 0);
  }

  // The order in which the spans are given never matters, whatever they are, if no two different spans have the
  // same bounds.
  lemma RedactPermutation(content: seq<byte>, a: seq<Span>, b: seq<Span>)
    requires multiset(a) == multiset(b)
    requires forall i, j | 0 <= i < |a| && 0 <= j < |a| ::
      a[i].start == a[j].start && a[i].end == a[j].end ==> a[i] == a[j]
    ensures Redacted(content, a) == Redacted(content, b)
  {
    OrdersConsistent();
    SortPermutation(EarlierFirst, a, b);
  }

  // Of two usable spans with one start the rewrite uses the shorter, where the normalisation keeps the longer.
  lemma ShorterUsed(text: string, a: Span, b: Span)
    requires WholeCharacters(text, a) && WholeCharacters(text, b) && a.start == b.start && a.end < b.end
    ensures Redacted(Encode(text), [b, a]) == Splice(Encode(text), [a], 0) && Normalize([b, a]) == [b]
  {
    var content := Encode(text);
    UsableExactly(text, a);
    UsableExactly(text, b);
    OrdersConsistent();
    assert [b, a][..1] == [b] && [b][..0] == [] && [a, b][1..] == [b] && [b][1..] == [];
    assert Sort(EarlierFirst, [b]) == Inserted(EarlierFirst, Sort(EarlierFirst, []), b) == [b];
    assert Sort(EarlierFirst, [b, a]) == Inserted(EarlierFirst, [b], a) == [a, b];
    assert Sorted(LongerFirst, [b, a]);
    SortSorted(LongerFirst, [b, a]);
    assert Kept([b]) == [b];
    assert Used(content, [b], a.end) == Used(content, [], a.end) == [];
    assert Used(content, [a, b], 0) == [a] + Used(content, [b], a.end);
  }

  lemma {:induction false} UsedMembers(content: seq<byte>, ordered: seq<Span>, cursor: nat, s: Span)
    requires cursor <= |content| && Sorted(EarlierFirst, ordered)
    ensures s in Used(content, ordered, cursor) <==>
      && s in ordered && Usable(content, s) && s.start >= cursor
      && forall u | u in Used(content, ordered, cursor) && u != s :: !Covers(u, s.start)
  {
    var used := Used(content, ordered, cursor);
    UsedFits(content, ordered, cursor);
    if s in used {
      AloneAtStart(used, s);
    } else if ordered != [] && s in ordered && Usable(content, s) && s.start >= cursor {
      UnusedCovered(content, ordered, cursor, s);
    }
  }

  lemma AloneAtStart(used: seq<Span>, s: Span)
    requires Disjoint(used) && s in used && s.start < s.end
    ensures forall u | u in used && u != s :: !Covers(u, s.start)
  {
    var i :| 0 <= i < |used| && used[i] == s;
    forall u | u in used && u != s ensures !Covers(u, s.start) {
      var j :| 0 <= j < |used| && used[j] == u;
      assert i != j;
    }
  }

  lemma {:induction false} UnusedCovered(content: seq<byte>, ordered: seq<Span>, cursor: nat, s: Span)
    requires cursor <= |content| && Sorted(EarlierFirst, ordered)
    requires s in ordered && Usable(content, s) && s.start >= cursor && s !in Used(content, ordered, cursor)
    ensures exists u :: u in Used(content, ordered, cursor) && u != s && Covers(u, s.start)
  {
    var (head, rest) := (ordered[0], ordered[1..]);
    Lists.FirstAndRest(ordered);
    if head.start < cursor || !Usable(content, head) {
      UnusedCovered(content, rest, cursor, s);
    } else {
      assert head in Used(content, ordered, cursor);
      var i :| 0 <= i < |ordered| && ordered[i] == s;
      assert EarlierFirst(ordered[0], ordered[i]);
      if s.start >= head.end {
        UnusedCovered(content, rest, head.end, s);
        var u :| u in Used(content, rest, head.end) && u != s && Covers(u, s.start);
        assert u in Used(content, ordered, cursor);
      }
    }
  }

  // `used` are the spans that are replaced: those that cut no character, lie within the text and do not start inside
  // another one that is replaced.
  ghost predicate Chosen(text: string, spans: seq<Span>, used: seq<Span>) {
    && Disjoint(used)
    && forall s :: s in used <==>
         && s in spans && s.start < s.end <= |Encode(text)| && AtCharacter(text, s.start) && AtCharacter(text, s.end)
         && forall u | u in used && u != s :: !(u.start <= s.start < u.end)
  }

  // For every text and every list of spans: what is replaced is exactly what can be.
  lemma RedactExactly(text: string, spans: seq<Span>) returns (used: seq<Span>)
    ensures Chosen(text, spans, used) && Fits(Encode(text), used, 0)
    ensures Redacted(Encode(text), spans) == Splice(Encode(text), used, 0)
  {
    var (content, ordered) := (Encode(text), Sort(EarlierFirst, spans));
    OrdersConsistent();
    SortStable(EarlierFirst, spans);
    UsedFits(content, ordered, 0);
    used := Used(content, ordered, 0);
    forall s
      ensures s in used <==> s in spans && WholeCharacters(text, s)
                             && forall u | u in used && u != s :: !(u.start <= s.start < u.end)
    {
      UsedMembers(content, ordered, 0, s);
      UsableExactly(text, s);
      assert forall u :: Covers(u, s.start) <==> u.start <= s.start < u.end;
    }
  }

  // One detected secret, wherever it stands in the text, its end included, is replaced by what stands for it.
  lemma OneSecret(before: string, secret: string, after: string, s: Span)
    requires secret != "" && s.start == |Encode(before)| && s.end == |Encode(before + secret)|
    ensures Redacted(Encode(before + secret + after), [s]) == Encode(before) + s.replacement + Encode(after)
  {
    var text := before + secret + after;
    var (a, b, c) := (Encode(before), Encode(secret), Encode(after));
    EncodeAppend(before, secret);
    EncodeAppend(before + secret, after);
    assert text[..|before|] == before && text[..|before + secret|] == before + secret;
    assert AtCharacter(text, s.start) && AtCharacter(text, s.end);
    UsableExactly(text, s);
    assert [s][..0] == [] && [s][1..] == [];
    assert Sort(EarlierFirst, [s]) == Inserted(EarlierFirst, Sort(EarlierFirst, []), s) == [s];
    assert Used(Encode(text), [s], 0) == [s] + Used(Encode(text), [], s.end);
    SpliceOne(a, b, c, s);
  }

  lemma SpliceOne(a: seq<byte>, b: seq<byte>, c: seq<byte>, s: Span)
    requires s.start == |a| && s.end == |a + b| && b != []
    ensures Fits(a + b + c, [s], 0) && Splice(a + b + c, [s], 0) == a + s.replacement + c
  {
    var content := a + b + c;
    assert content[..|a|] == a && content[|a + b|..] == c;
    assert [s][1..] == [];
    assert Splice(content, [], s.end) == c;
  }

  // For every list of spans, nested, overlapping, out of range or empty ones included: the exact length.
  lemma RedactLength(content: seq<byte>, spans: seq<Span>)
    ensures var used := Used(content, Sort(EarlierFirst, spans), 0);
      |Redacted(content, spans)| == |content| - Taken(used) + Given(used)
  {
    UsedFits(content, Sort(EarlierFirst, spans), 0);
    SpliceLength(content, Used(content, Sort(EarlierFirst, spans), 0), 0);
  }
}
