/** Cross-source deduplication: one record per paper, shared by two indexes and the output list. */
module Dedup {
  import Lists
  import opened Wrappers

  // An absent DOI, URL or external id is the empty string: the code treats the two alike.
  datatype Document = Document(title: string, abstract_: string, url: string, authors: seq<string>,
                               year: Option<real>, source: string, score: real, doi: string, externalId: string)

  datatype Rank = Rank(source: string, rank: nat)

  datatype FusedDocument = FusedDocument(doc: Document, sources: seq<string>, ranks: seq<Rank>)

  // The text normalisers; the text functions they are built from are not part of this model.
  datatype Normalizer = Normalizer(doi: string -> Option<string>, title: string -> string)

  predicate Sane(norm: Normalizer) { norm.doi("") == None }

  // A normalised title and a rounded year, if the year is known.
  datatype TitleKey = TitleKey(title: string, year: Option<int>)

  datatype State = State(out: seq<FusedDocument>, byDoi: map<string, nat>, byTitle: map<TitleKey, nat>,
                         cursor: map<string, nat>)

  const START := State([], map[], map[], map[])

  function Bucket(year: Option<real>): Option<int> {
    if year.Some? then Some((year.value + 0.5).Floor) else None
  }

  function TitleOf(norm: Normalizer, d: Document): Option<TitleKey> {
    var title := norm.title(d.title);
    if title != "" then Some(TitleKey(title, Bucket(d.year))) else None
  }

  function Cursor(cursor: map<string, nat>, source: string): nat {
    if source in cursor then cursor[source] else 0
  }

  function Near(byTitle: map<TitleKey, nat>, key: TitleKey): Option<nat> {
    match key.year
    case None => None
    case Some(year) =>
      var (before, after) := (TitleKey(key.title, Some(year - 1)), TitleKey(key.title, Some(year + 1)));
      if before in byTitle then Some(byTitle[before])
      else if after in byTitle then Some(byTitle[after])
      else None
  }

  function ByTitle(byTitle: map<TitleKey, nat>, key: Option<TitleKey>): Option<nat> {
    if key.None? then None
    else if key.value in byTitle then Some(byTitle[key.value])
    else Near(byTitle, key.value)
  }

  // The output that `d` is merged into, if there is one.
  function Target(norm: Normalizer, s: State, d: Document): Option<nat> {
    var doi := norm.doi(d.doi);
    if doi.Some? && doi.value in s.byDoi then Some(s.byDoi[doi.value])
    else ByTitle(s.byTitle, TitleOf(norm, d))
  }

  function Richer(a: Document, b: Document): Document {
    Document(
      if |b.title| > |a.title| && b.title != "(untitled)" then b.title else a.title,
      if |b.abstract_| > |a.abstract_| then b.abstract_ else a.abstract_,
      if a.url == "" && b.url != "" then b.url else a.url,
      if |b.authors| > |a.authors| then b.authors else a.authors,
      if a.year.None? && b.year.Some? then b.year else a.year,
      a.source,
      a.score,
      if a.doi == "" && b.doi != "" then b.doi else a.doi,
      if a.externalId == "" && b.externalId != "" then b.externalId else a.externalId)
  }

  function Merge(f: FusedDocument, d: Document, rank: nat): FusedDocument {
    FusedDocument(Richer(f.doc, d),
                  if d.source in f.sources then f.sources else f.sources + [d.source],
                  f.ranks + [Rank(d.source, rank)])
  }

  // The state once `d` is merged into output `i`; a DOI that came with it is indexed.
  function Merged(norm: Normalizer, s: State, d: Document, i: nat): State
    requires i < |s.out|
  {
    var rank := Cursor(s.cursor, d.source);
    var merged := Merge(s.out[i], d, rank);
    var doi := norm.doi(merged.doc.doi);
    State(s.out[i := merged],
          if doi.Some? && doi.value !in s.byDoi then s.byDoi[doi.value := i] else s.byDoi,
          s.byTitle, s.cursor[d.source := rank + 1])
  }

  // The state once `d` is an output of its own.
  function Added(norm: Normalizer, s: State, d: Document): State {
    var rank := Cursor(s.cursor, d.source);
    var (doi, title) := (norm.doi(d.doi), TitleOf(norm, d));
    State(s.out + [FusedDocument(d, [d.source], [Rank(d.source, rank)])],
          if doi.Some? then s.byDoi[doi.value := |s.out|] else s.byDoi,
          if title.Some? then s.byTitle[title.value := |s.out|] else s.byTitle,
          s.cursor[d.source := rank + 1])
  }

  function Step(norm: Normalizer, s: State, d: Document): State {
    var target := Target(norm, s, d);
    if target.Some? && target.value < |s.out| then Merged(norm, s, d, target.value) else Added(norm, s, d)
  }

  function Run(norm: Normalizer, docs: seq<Document>): State {
    if docs == [] then START else Step(norm, Run(norm, docs[..|docs| - 1]), docs[|docs| - 1])
  }

  // The output that `d` ends up in.
  function Where(norm: Normalizer, s: State, d: Document): nat {
    var target := Target(norm, s, d);
    if target.Some? then target.value else |s.out|
  }

  // The output that each document ends up in.
  function Places(norm: Normalizer, docs: seq<Document>): (places: seq<nat>)
    ensures |places| == |docs|
  {
    if docs == [] then []
    else
      var front := docs[..|docs| - 1];
      Places(norm, front) + [Where(norm, Run(norm, front), docs[|docs| - 1])]
  }

  lemma {:induction false} PlacesAt(norm: Normalizer, docs: seq<Document>, j: nat)
    requires j < |docs|
    ensures Places(norm, docs)[j] == Where(norm, Run(norm, docs[..j]), docs[j])
  {
    if j < |docs| - 1 {
      PlacesAt(norm, docs[..|docs| - 1], j);
      assert docs[..|docs| - 1][..j] == docs[..j];
    }
  }

  // The position of document `j` among those of its source.
  function Label(docs: seq<Document>, j: nat): Rank
    requires j < |docs|
  {
    Rank(docs[j].source, Count(docs[..j], docs[j].source))
  }

  function Count(docs: seq<Document>, source: string): nat {
    if docs == [] then 0
    else Count(docs[..|docs| - 1], source) + if docs[|docs| - 1].source == source then 1 else 0
  }

  // All (source, rank) pairs of a list of outputs.
  function AllRanks(out: seq<FusedDocument>): multiset<Rank> {
    if out == [] then multiset{} else AllRanks(out[..|out| - 1]) + multiset(out[|out| - 1].ranks)
  }

  // The DOI index holds exactly the present DOI of each output; both indexes point into the output list.
  ghost predicate Indexed(norm: Normalizer, s: State) {
    && (forall doi | doi in s.byDoi :: s.byDoi[doi] < |s.out| && norm.doi(s.out[s.byDoi[doi]].doc.doi) == Some(doi))
    && (forall i | 0 <= i < |s.out| ::
          var doi := norm.doi(s.out[i].doc.doi); doi.Some? ==> doi.value in s.byDoi && s.byDoi[doi.value] == i)
    && (forall key | key in s.byTitle :: s.byTitle[key] < |s.out|)
  }

  lemma TargetInRange(norm: Normalizer, s: State, d: Document)
    requires Indexed(norm, s)
    ensures Target(norm, s, d).Some? ==> Target(norm, s, d).value < |s.out|
  {
  }

  lemma IndexedNew(norm: Normalizer, s: State, d: Document)
    requires Sane(norm) && Indexed(norm, s) && Target(norm, s, d).None?
    ensures Indexed(norm, Step(norm, s, d))
  {
    var later := Step(norm, s, d);
    assert forall i | 0 <= i < |s.out| :: later.out[i] == s.out[i];
    assert later.out[|s.out|].doc == d;
  }

  // A merge leaves a present DOI as it is; an absent one becomes that of the new copy, which no output has.
  lemma MergedDoi(norm: Normalizer, s: State, d: Document)
    requires Sane(norm) && Indexed(norm, s) && Target(norm, s, d).Some? && Target(norm, s, d).value < |s.out|
    ensures var (old_, new_) := (norm.doi(s.out[Target(norm, s, d).value].doc.doi),
                                 norm.doi(Richer(s.out[Target(norm, s, d).value].doc, d).doi));
      new_ == old_ || (old_ == None && new_ == norm.doi(d.doi) && new_.Some? && new_.value !in s.byDoi)
  {
  }

  lemma IndexedMerge(norm: Normalizer, s: State, d: Document)
    requires Sane(norm) && Indexed(norm, s) && Target(norm, s, d).Some?
    ensures Indexed(norm, Step(norm, s, d))
  {
    TargetInRange(norm, s, d);
    MergedDoi(norm, s, d);
    var (later, target) := (Step(norm, s, d), Target(norm, s, d).value);
    assert forall i | 0 <= i < |s.out| && i != target :: later.out[i] == s.out[i];
    assert later.out[target].doc == Richer(s.out[target].doc, d);
  }

  lemma IndexedStep(norm: Normalizer, s: State, d: Document)
    requires Sane(norm) && Indexed(norm, s)
    ensures Indexed(norm, Step(norm, s, d))
  {
    if Target(norm, s, d).Some? {
      IndexedMerge(norm, s, d);
    } else {
      IndexedNew(norm, s, d);
    }
  }

  lemma {:induction false} RunIndexed(norm: Normalizer, docs: seq<Document>)
    requires Sane(norm)
    ensures Indexed(norm, Run(norm, docs))
  {
    if docs != [] {
      RunIndexed(norm, docs[..|docs| - 1]);
      IndexedStep(norm, Run(norm, docs[..|docs| - 1]), docs[|docs| - 1]);
    }
  }

  // No two outputs have the same DOI.
  lemma DoisUnique(norm: Normalizer, docs: seq<Document>, i: nat, j: nat)
    requires Sane(norm) && i < j < |Run(norm, docs).out|
    ensures var out := Run(norm, docs).out;
      norm.doi(out[i].doc.doi).Some? ==> norm.doi(out[i].doc.doi) != norm.doi(out[j].doc.doi)
  {
    RunIndexed(norm, docs);
  }

  // The one way for a DOI to escape the index: its first copies are merged by title into an output that has a
  // DOI text already.
  predicate Escapes(norm: Normalizer, s: State, d: Document) {
    var (doi, target) := (norm.doi(d.doi), Target(norm, s, d));
    && doi.Some? && doi.value !in s.byDoi
    && target.Some? && target.value < |s.out| && s.out[target.value].doc.doi != ""
  }

  lemma {:induction false} IndexedExactly(norm: Normalizer, s: State, d: Document)
    requires Sane(norm) && Indexed(norm, s) && norm.doi(d.doi).Some?
    ensures var (doi, later) := (norm.doi(d.doi).value, Step(norm, s, d));
      && (doi in later.byDoi <==> !Escapes(norm, s, d))
      && (doi in later.byDoi ==> later.byDoi[doi] == Where(norm, s, d))
  {
    TargetInRange(norm, s, d);
  }

  lemma StepKeepsIndex(norm: Normalizer, s: State, d: Document, doi: string)
    requires Sane(norm) && Indexed(norm, s) && doi in s.byDoi
    ensures doi in Step(norm, s, d).byDoi && Step(norm, s, d).byDoi[doi] == s.byDoi[doi]
  {
    TargetInRange(norm, s, d);
  }

  lemma {:induction false} IndexKept(norm: Normalizer, docs: seq<Document>, n: nat, doi: string)
    requires Sane(norm) && n <= |docs| && doi in Run(norm, docs[..n]).byDoi
    ensures doi in Run(norm, docs).byDoi && Run(norm, docs).byDoi[doi] == Run(norm, docs[..n]).byDoi[doi]
    decreases |docs|
  {
    if n == |docs| {
      assert docs[..n] == docs;
    } else {
      var front := docs[..|docs| - 1];
      assert front[..n] == docs[..n];
      IndexKept(norm, front, n, doi);
      RunIndexed(norm, front);
      StepKeepsIndex(norm, Run(norm, front), docs[|docs| - 1], doi);
    }
  }

  lemma IndexedFrom(norm: Normalizer, docs: seq<Document>, j: nat)
    requires Sane(norm) && j < |docs| && norm.doi(docs[j].doi).Some?
    requires !Escapes(norm, Run(norm, docs[..j]), docs[j])
    ensures var (doi, later) := (norm.doi(docs[j].doi).value, Run(norm, docs[..j + 1]));
      doi in later.byDoi && later.byDoi[doi] == Places(norm, docs)[j]
  {
    var s := Run(norm, docs[..j]);
    PlacesAt(norm, docs, j);
    RunIndexed(norm, docs[..j]);
    IndexedExactly(norm, s, docs[j]);
    RunNext(norm, docs, j);
  }

  lemma RunNext(norm: Normalizer, docs: seq<Document>, j: nat)
    requires j < |docs|
    ensures Run(norm, docs[..j + 1]) == Step(norm, Run(norm, docs[..j]), docs[j])
  {
    assert docs[..j + 1][..j] == docs[..j];
  }

  // An indexed DOI decides.
  lemma WhereIndexed(norm: Normalizer, s: State, d: Document, doi: string)
    requires norm.doi(d.doi) == Some(doi) && doi in s.byDoi
    ensures Where(norm, s, d) == s.byDoi[doi]
  {
  }

  // Two documents with one DOI share an output, unless the earlier escaped the index.
  lemma SameDoiTogether(norm: Normalizer, docs: seq<Document>, j: nat, l: nat)
    requires Sane(norm) && j < l < |docs|
    requires norm.doi(docs[j].doi).Some? && norm.doi(docs[j].doi) == norm.doi(docs[l].doi)
    requires !Escapes(norm, Run(norm, docs[..j]), docs[j])
    ensures Places(norm, docs)[j] == Places(norm, docs)[l]
  {
    var doi := norm.doi(docs[j].doi).value;
    IndexedFrom(norm, docs, j);
    IndexKeptTo(norm, docs, j + 1, l, doi);
    PlacesAt(norm, docs, l);
    WhereIndexed(norm, Run(norm, docs[..l]), docs[l], doi);
  }

  lemma IndexKeptTo(norm: Normalizer, docs: seq<Document>, m: nat, l: nat, doi: string)
    requires Sane(norm) && m <= l <= |docs| && doi in Run(norm, docs[..m]).byDoi
    ensures doi in Run(norm, docs[..l]).byDoi
    ensures Run(norm, docs[..l]).byDoi[doi] == Run(norm, docs[..m]).byDoi[doi]
  {
    assert docs[..l][..m] == docs[..m];
    IndexKept(norm, docs[..l], m, doi);
  }

  // After an escape the next untitled copy with that DOI starts an output of its own.
  lemma EscapeSplits(norm: Normalizer, docs: seq<Document>, d: Document, copy: Document)
    requires Sane(norm) && Escapes(norm, Run(norm, docs), d)
    requires norm.doi(copy.doi) == norm.doi(d.doi) && TitleOf(norm, copy).None?
    ensures var (places, n) := (Places(norm, docs + [d, copy]), |docs|);
      places[n] < |Run(norm, docs).out| == places[n + 1]
  {
    var (all, n) := (docs + [d, copy], |docs|);
    var s := Run(norm, docs);
    assert all[..n] == docs && all[n] == d && all[n + 1] == copy;
    PlacesAt(norm, all, n);
    PlacesAt(norm, all, n + 1);
    RunNext(norm, all, n);
    RunIndexed(norm, docs);
    EscapeStep(norm, s, d);
    WhereNew(norm, Step(norm, s, d), copy, norm.doi(d.doi).value);
  }

  lemma EscapeStep(norm: Normalizer, s: State, d: Document)
    requires Sane(norm) && Indexed(norm, s) && Escapes(norm, s, d)
    ensures norm.doi(d.doi).value !in Step(norm, s, d).byDoi
    ensures Where(norm, s, d) < |s.out| == |Step(norm, s, d).out|
  {
    IndexedExactly(norm, s, d);
  }

  lemma WhereNew(norm: Normalizer, s: State, d: Document, doi: string)
    requires norm.doi(d.doi) == Some(doi) && doi !in s.byDoi && TitleOf(norm, d).None?
    ensures Where(norm, s, d) == |s.out|
  {
  }

  // Three documents, the last two with one DOI, in two outputs.
  lemma SameDoiApart(norm: Normalizer, a: Document, b: Document, c: Document)
    requires Sane(norm) && TitleOf(norm, a).Some? && TitleOf(norm, a) == TitleOf(norm, b)
    requires norm.doi(a.doi).Some? && norm.doi(b.doi).Some? && norm.doi(a.doi) != norm.doi(b.doi)
    requires norm.doi(b.doi) == norm.doi(c.doi) && TitleOf(norm, c).None?
    ensures Places(norm, [a, b, c]) == [0, 0, 1]
  {
    var docs := [a, b, c];
    assert docs[..2] == [a, b] && [a, b][..1] == [a] && [a][..0] == [];
    var s1 := Run(norm, [a]);
    assert s1 == Step(norm, Run(norm, []), a);
    assert Where(norm, START, a) == 0;
    var s2 := Run(norm, [a, b]);
    assert s2 == Step(norm, s1, b);
    assert Where(norm, s1, b) == 0 && Where(norm, s2, c) == 1;
    assert Places(norm, [a]) == [0] && Places(norm, [a, b]) == [0, 0];
  }

  // What one step does to the output list.
  lemma StepOut(norm: Normalizer, s: State, d: Document, place: nat)
    requires Sane(norm) && Indexed(norm, s)
    requires place == Where(norm, s, d)
    ensures var (out, rank) := (Step(norm, s, d).out, Cursor(s.cursor, d.source));
      && place <= |s.out| && |out| == (if place == |s.out| then place + 1 else |s.out|)
      && (forall i | 0 <= i < |s.out| && i != place :: out[i] == s.out[i])
      && out[place] == if place < |s.out| then Merge(s.out[place], d, rank)
                       else FusedDocument(d, [d.source], [Rank(d.source, rank)])
  {
    TargetInRange(norm, s, d);
  }

  lemma {:induction false} CursorCounts(norm: Normalizer, docs: seq<Document>, source: string)
    ensures Cursor(Run(norm, docs).cursor, source) == Count(docs, source)
  {
    if docs != [] {
      CursorCounts(norm, docs[..|docs| - 1], source);
      CursorCounts(norm, docs[..|docs| - 1], docs[|docs| - 1].source);
    }
  }

  lemma {:induction false} AllRanksAppend(out: seq<FusedDocument>, i: nat, f: FusedDocument, rank: Rank)
    requires i < |out| && f.ranks == out[i].ranks + [rank]
    ensures AllRanks(out[i := f]) == AllRanks(out) + multiset{rank}
  {
    var n := |out|;
    if i == n - 1 {
      assert out[i := f][..n - 1] == out[..n - 1];
    } else {
      AllRanksAppend(out[..n - 1], i, f, rank);
      assert out[i := f][..n - 1] == out[..n - 1][i := f];
    }
  }

  function Labels(docs: seq<Document>): seq<Rank> {
    seq(|docs|, j requires 0 <= j < |docs| => Label(docs, j))
  }

  lemma RanksStep(norm: Normalizer, s: State, d: Document)
    requires Sane(norm) && Indexed(norm, s)
    ensures AllRanks(Step(norm, s, d).out) == AllRanks(s.out) + multiset{Rank(d.source, Cursor(s.cursor, d.source))}
  {
    var rank := Rank(d.source, Cursor(s.cursor, d.source));
    var target := Target(norm, s, d);
    TargetInRange(norm, s, d);
    if target.Some? {
      AllRanksAppend(s.out, target.value, Merge(s.out[target.value], d, rank.rank), rank);
    } else {
      assert Step(norm, s, d).out[..|s.out|] == s.out;
    }
  }

  lemma LabelsStep(docs: seq<Document>)
    requires docs != []
    ensures Labels(docs) == Labels(docs[..|docs| - 1]) + [Label(docs, |docs| - 1)]
  {
    forall j | 0 <= j < |docs| - 1 ensures Label(docs[..|docs| - 1], j) == Label(docs, j) {
      assert docs[..|docs| - 1][..j] == docs[..j];
    }
  }

  // Over all outputs there is one (source, rank) pair for each document; `RunRanks` says where it stands.
  lemma {:induction false} RanksConserved(norm: Normalizer, docs: seq<Document>)
    requires Sane(norm)
    ensures AllRanks(Run(norm, docs).out) == multiset(Labels(docs))
  {
    if docs != [] {
      var (front, d) := (docs[..|docs| - 1], docs[|docs| - 1]);
      RanksConserved(norm, front);
      RunIndexed(norm, front);
      RanksStep(norm, Run(norm, front), d);
      LabelsStep(docs);
      CursorCounts(norm, front, d.source);
    }
  }

  // The pairs of one source are its ranks from 0 up, each once.
  lemma {:induction false} LabelsExact(docs: seq<Document>, source: string, rank: nat)
    ensures multiset(Labels(docs))[Rank(source, rank)] == if rank < Count(docs, source) then 1 else 0
  {
    if docs != [] {
      LabelsExact(docs[..|docs| - 1], source, rank);
      LabelsStep(docs);
    }
  }

  lemma RanksExact(norm: Normalizer, docs: seq<Document>, source: string, rank: nat)
    requires Sane(norm)
    ensures AllRanks(Run(norm, docs).out)[Rank(source, rank)] == if rank < Count(docs, source) then 1 else 0
  {
    RanksConserved(norm, docs);
    LabelsExact(docs, source, rank);
  }

  // The documents that end up in output `i`.
  function Members(docs: seq<Document>, places: seq<nat>, i: nat): seq<Document>
    requires |docs| == |places|
  {
    if docs == [] then []
    else
      var n := |docs| - 1;
      Members(docs[..n], places[..n], i) + if places[n] == i then [docs[n]] else []
  }

  // The first of the longest.
  ghost predicate FirstLongest<T>(values: seq<seq<T>>, x: seq<T>) {
    exists j :: 0 <= j < |values| && values[j] == x && LongestAt(values, j)
  }

  predicate LongestAt<T>(values: seq<seq<T>>, j: nat)
    requires j < |values|
  {
    forall i | 0 <= i < |values| :: |values[i]| <= |values[j]| && (i < j ==> |values[i]| < |values[j]|)
  }

  lemma LongestNext<T>(values: seq<seq<T>>, x: seq<T>, y: seq<T>)
    requires FirstLongest(values, x)
    ensures FirstLongest(values + [y], if |y| > |x| then y else x)
  {
    var all := values + [y];
    var j :| 0 <= j < |values| && values[j] == x && LongestAt(values, j);
    assert all[j] == x && all[|values|] == y && LongestAt(all, if |y| > |x| then |values| else j);
  }

  lemma LongestAlone<T>(x: seq<T>)
    ensures FirstLongest([x], x)
  {
    assert [x][0] == x && LongestAt([x], 0);
  }

  function Abstracts(members: seq<Document>): seq<string> {
    seq(|members|, i requires 0 <= i < |members| => members[i].abstract_)
  }

  function AuthorLists(members: seq<Document>): seq<seq<string>> {
    seq(|members|, i requires 0 <= i < |members| => members[i].authors)
  }

  // An output has the longest abstract and the longest author list of its documents, the first such.
  ghost predicate Longest(members: seq<Document>, f: Document) {
    FirstLongest(Abstracts(members), f.abstract_) && FirstLongest(AuthorLists(members), f.authors)
  }

  predicate Earlier(members: seq<Document>, j: nat, source: string) {
    exists i :: 0 <= i < j && i < |members| && members[i].source == source
  }

  // And each of their sources once, in the order in which they came up.
  ghost predicate Sources(members: seq<Document>, sources: seq<string>) {
    && (forall source :: source in sources <==> Earlier(members, |members|, source))
    && (forall a, b | 0 <= a < b < |sources| :: sources[a] != sources[b])
    && (forall a, b, j | 0 <= a < b < |sources| && 0 <= j < |members| && members[j].source == sources[b] ::
          Earlier(members, j, sources[a]))
  }

  ghost predicate Gathers(members: seq<Document>, f: FusedDocument) {
    members != [] && Longest(members, f.doc) && Sources(members, f.sources)
  }

  lemma LongestMerged(members: seq<Document>, f: Document, d: Document)
    requires Longest(members, f)
    ensures Longest(members + [d], Richer(f, d))
  {
    LongestNext(Abstracts(members), f.abstract_, d.abstract_);
    LongestNext(AuthorLists(members), f.authors, d.authors);
    assert Abstracts(members + [d]) == Abstracts(members) + [d.abstract_];
    assert AuthorLists(members + [d]) == AuthorLists(members) + [d.authors];
  }

  lemma EarlierNext(members: seq<Document>, d: Document, j: nat, source: string)
    ensures Earlier(members + [d], j, source) <==>
            Earlier(members, j, source) || (j > |members| && d.source == source)
  {
    var all := members + [d];
    assert all[|members|] == d && forall i | 0 <= i < |members| :: all[i] == members[i];
    if i :| 0 <= i < j && i < |members| && members[i].source == source {
      assert all[i].source == source;
    }
  }

  lemma SourcesMerged(members: seq<Document>, sources: seq<string>, d: Document)
    requires Sources(members, sources)
    ensures Sources(members + [d], if d.source in sources then sources else sources + [d.source])
  {
    var (all, later) := (members + [d], if d.source in sources then sources else sources + [d.source]);
    forall source ensures source in later <==> Earlier(all, |all|, source) {
      EarlierNext(members, d, |all|, source);
    }
    forall a, b, j | 0 <= a < b < |later| && 0 <= j < |all| && all[j].source == later[b]
      ensures Earlier(all, j, later[a])
    {
      EarlierNext(members, d, j, later[a]);
      SourceOrder(members, sources, d, a, b, j);
    }
  }

  lemma SourceOrder(members: seq<Document>, sources: seq<string>, d: Document, a: nat, b: nat, j: nat)
    requires Sources(members, sources) && j <= |members|
    requires var later := if d.source in sources then sources else sources + [d.source];
      a < b < |later| && (members + [d])[j].source == later[b]
    ensures Earlier(members, j, sources[a])
  {
    assert sources[a] in sources;
    if j < |members| {
      assert Earlier(members, |members|, members[j].source);
    }
  }

  lemma GathersMerged(members: seq<Document>, f: FusedDocument, d: Document, rank: nat)
    requires Gathers(members, f)
    ensures Gathers(members + [d], Merge(f, d, rank))
  {
    LongestMerged(members, f.doc, d);
    SourcesMerged(members, f.sources, d);
  }

  lemma GathersNew(d: Document, rank: nat)
    ensures Gathers([d], FusedDocument(d, [d.source], [Rank(d.source, rank)]))
  {
    assert Abstracts([d]) == [d.abstract_] && AuthorLists([d]) == [d.authors];
    LongestAlone(d.abstract_);
    LongestAlone(d.authors);
    assert [d][0].source == d.source;
  }

  lemma MembersNext(docs: seq<Document>, places: seq<nat>, d: Document, place: nat, i: nat)
    requires |docs| == |places|
    ensures var members := Members(docs, places, i);
      Members(docs + [d], places + [place], i) == if place == i then members + [d] else members
  {
    assert (docs + [d])[..|docs|] == docs && (places + [place])[..|docs|] == places;
    assert Members(docs, places, i) + [] == Members(docs, places, i);
  }

  lemma {:induction false} MembersFresh(docs: seq<Document>, places: seq<nat>, i: nat)
    requires |docs| == |places| && forall j | 0 <= j < |places| :: places[j] < i
    ensures Members(docs, places, i) == []
  {
    if docs != [] {
      MembersFresh(docs[..|docs| - 1], places[..|docs| - 1], i);
    }
  }

  lemma {:induction false} RunGathers(norm: Normalizer, docs: seq<Document>)
    requires Sane(norm)
    ensures forall j | 0 <= j < |docs| :: Places(norm, docs)[j] < |Run(norm, docs).out|
    ensures forall i | 0 <= i < |Run(norm, docs).out| ::
      Gathers(Members(docs, Places(norm, docs), i), Run(norm, docs).out[i])
  {
    if docs != [] {
      var (front, d) := (docs[..|docs| - 1], docs[|docs| - 1]);
      RunGathers(norm, front);
      RunIndexed(norm, front);
      GathersStep(norm, front, Places(norm, front), Run(norm, front), d);
      RunAppend(norm, front, d);
      Lists.FrontAndLast(docs);
    }
  }

  lemma RunAppend(norm: Normalizer, docs: seq<Document>, d: Document)
    ensures Run(norm, docs + [d]) == Step(norm, Run(norm, docs), d)
    ensures Places(norm, docs + [d]) == Places(norm, docs) + [Where(norm, Run(norm, docs), d)]
  {
    Lists.CutAppend(docs, [d]);
  }

  lemma GathersStep(norm: Normalizer, docs: seq<Document>, places: seq<nat>, s: State, d: Document)
    requires Sane(norm) && Indexed(norm, s) && |docs| == |places|
    requires forall j | 0 <= j < |docs| :: places[j] < |s.out|
    requires forall i | 0 <= i < |s.out| :: Gathers(Members(docs, places, i), s.out[i])
    ensures |Step(norm, s, d).out| >= |s.out| && Where(norm, s, d) < |Step(norm, s, d).out|
    ensures forall i | 0 <= i < |Step(norm, s, d).out| ::
      Gathers(Members(docs + [d], places + [Where(norm, s, d)], i), Step(norm, s, d).out[i])
  {
    var (place, out) := (Where(norm, s, d), Step(norm, s, d).out);
    StepOut(norm, s, d, place);
    forall i | 0 <= i < |out| ensures Gathers(Members(docs + [d], places + [place], i), out[i]) {
      if i < |s.out| {
        GathersAt(docs, places, s.out[i], d, Cursor(s.cursor, d.source), place, i);
      } else {
        GathersFirst(docs, places, d, Cursor(s.cursor, d.source), i);
      }
    }
  }

  lemma GathersAt(docs: seq<Document>, places: seq<nat>, f: FusedDocument, d: Document, rank: nat, place: nat, i: nat)
    requires |docs| == |places| && Gathers(Members(docs, places, i), f)
    ensures Gathers(Members(docs + [d], places + [place], i), if i == place then Merge(f, d, rank) else f)
  {
    MembersNext(docs, places, d, place, i);
    GathersMerged(Members(docs, places, i), f, d, rank);
  }

  lemma GathersFirst(docs: seq<Document>, places: seq<nat>, d: Document, rank: nat, i: nat)
    requires |docs| == |places| && forall j | 0 <= j < |places| :: places[j] < i
    ensures Gathers(Members(docs + [d], places + [i], i), FusedDocument(d, [d.source], [Rank(d.source, rank)]))
  {
    MembersNext(docs, places, d, i, i);
    MembersFresh(docs, places, i);
    GathersNew(d, rank);
  }

  // The (source, rank) pairs of the documents that end up in output `i`, in the order of the documents.
  function RanksOf(docs: seq<Document>, places: seq<nat>, i: nat): seq<Rank>
    requires |docs| == |places|
  {
    if docs == [] then []
    else
      var n := |docs| - 1;
      RanksOf(docs[..n], places[..n], i) + if places[n] == i then [Label(docs, n)] else []
  }

  lemma RanksOfNext(docs: seq<Document>, places: seq<nat>, d: Document, place: nat, i: nat)
    requires |docs| == |places|
    ensures var ranks := RanksOf(docs, places, i);
      RanksOf(docs + [d], places + [place], i) ==
        if place == i then ranks + [Rank(d.source, Count(docs, d.source))] else ranks
  {
    assert (docs + [d])[..|docs|] == docs && (places + [place])[..|docs|] == places;
    assert RanksOf(docs, places, i) + [] == RanksOf(docs, places, i);
  }

  lemma {:induction false} RanksAligned(docs: seq<Document>, places: seq<nat>, i: nat)
    requires |docs| == |places|
    ensures var members, ranks := Members(docs, places, i), RanksOf(docs, places, i);
      |ranks| == |members| && forall a | 0 <= a < |ranks| :: ranks[a].source == members[a].source
  {
    if docs != [] {
      RanksAligned(docs[..|docs| - 1], places[..|docs| - 1], i);
    }
  }

  lemma RanksOfStep(norm: Normalizer, docs: seq<Document>, places: seq<nat>, s: State, d: Document)
    requires Sane(norm) && Indexed(norm, s) && |docs| == |places|
    requires forall j | 0 <= j < |docs| :: places[j] < |s.out|
    requires Cursor(s.cursor, d.source) == Count(docs, d.source)
    requires forall i | 0 <= i < |s.out| :: s.out[i].ranks == RanksOf(docs, places, i)
    ensures forall i | 0 <= i < |Step(norm, s, d).out| ::
      Step(norm, s, d).out[i].ranks == RanksOf(docs + [d], places + [Where(norm, s, d)], i)
  {
    var (place, out) := (Where(norm, s, d), Step(norm, s, d).out);
    StepOut(norm, s, d, place);
    forall i | 0 <= i < |out| ensures out[i].ranks == RanksOf(docs + [d], places + [place], i) {
      RanksOfNext(docs, places, d, place, i);
      if i == |s.out| {
        MembersFresh(docs, places, i);
        RanksAligned(docs, places, i);
      }
    }
  }

  // An output has the pairs of exactly its own documents, in their order.
  lemma {:induction false} RunRanks(norm: Normalizer, docs: seq<Document>)
    requires Sane(norm)
    ensures forall i | 0 <= i < |Run(norm, docs).out| ::
      Run(norm, docs).out[i].ranks == RanksOf(docs, Places(norm, docs), i)
  {
    if docs != [] {
      var (front, d) := (docs[..|docs| - 1], docs[|docs| - 1]);
      var (s, places) := (Run(norm, front), Places(norm, front));
      RunRanks(norm, front);
      RunGathers(norm, front);
      RunIndexed(norm, front);
      CursorCounts(norm, front, d.source);
      assert Places(norm, docs) == places + [Where(norm, s, d)];
      RanksOfStep(norm, front, places, s, d);
      assert front + [d] == docs;
    }
  }

  lemma {:induction false} CountGrows(docs: seq<Document>, j: nat, source: string)
    requires j < |docs| && docs[j].source == source
    ensures Count(docs[..j], source) < Count(docs, source)
  {
    var n := |docs| - 1;
    if j < n {
      CountGrows(docs[..n], j, source);
      assert docs[..n][..j] == docs[..j];
    }
  }

  // No two documents have the same pair.
  lemma LabelsDistinct(docs: seq<Document>, j: nat, l: nat)
    requires j < l < |docs|
    ensures Label(docs, j) != Label(docs, l)
  {
    if docs[j].source == docs[l].source {
      CountGrows(docs[..l], j, docs[j].source);
      assert docs[..l][..j] == docs[..j];
    }
  }

  lemma {:induction false} LabelPlaced(docs: seq<Document>, places: seq<nat>, j: nat, i: nat)
    requires |docs| == |places| && j < |docs|
    ensures Label(docs, j) in RanksOf(docs, places, i) <==> places[j] == i
    decreases |docs|
  {
    var n := |docs| - 1;
    if j < n {
      LabelPlaced(docs[..n], places[..n], j, i);
      assert docs[..n][..j] == docs[..j];
      LabelsDistinct(docs, j, n);
    } else {
      LabelFresh(docs[..n], places[..n], docs[n].source, i);
    }
  }

  lemma {:induction false} LabelFresh(docs: seq<Document>, places: seq<nat>, source: string, i: nat)
    requires |docs| == |places|
    ensures forall rank | rank in RanksOf(docs, places, i) && rank.source == source :: rank.rank < Count(docs, source)
  {
    if docs != [] {
      LabelFresh(docs[..|docs| - 1], places[..|docs| - 1], source, i);
    }
  }

  // The pair of a document stands in the output that the document ended up in, and in no other.
  lemma RankStands(norm: Normalizer, docs: seq<Document>, j: nat, i: nat)
    requires Sane(norm) && j < |docs| && i < |Run(norm, docs).out|
    ensures Label(docs, j) in Run(norm, docs).out[i].ranks <==> Places(norm, docs)[j] == i
  {
    RunRanks(norm, docs);
    LabelPlaced(docs, Places(norm, docs), j, i);
  }

  // The sources of an output are those of its own pairs, each once.
  lemma SourcesOfRanks(norm: Normalizer, docs: seq<Document>, i: nat)
    requires Sane(norm) && i < |Run(norm, docs).out|
    ensures var f := Run(norm, docs).out[i];
      && (forall a, b | 0 <= a < b < |f.sources| :: f.sources[a] != f.sources[b])
      && (forall source :: source in f.sources <==> exists rank :: rank in f.ranks && rank.source == source)
  {
    var (f, members) := (Run(norm, docs).out[i], Members(docs, Places(norm, docs), i));
    RunGathers(norm, docs);
    RunRanks(norm, docs);
    RanksAligned(docs, Places(norm, docs), i);
    assert Gathers(members, f);
    forall source ensures source in f.sources <==> exists rank :: rank in f.ranks && rank.source == source {
      if source in f.sources {
        var m :| m in members && m.source == source;
        var a :| 0 <= a < |members| && members[a] == m;
        assert f.ranks[a] in f.ranks;
      }
      if rank :| rank in f.ranks && rank.source == source {
        var a :| 0 <= a < |f.ranks| && f.ranks[a] == rank;
        assert members[a] in members;
      }
    }
  }

  // The first text that is there.
  function FirstPresent(members: seq<Document>, pick: Document -> string): string {
    if members == [] then ""
    else
      var earlier := FirstPresent(members[..|members| - 1], pick);
      if earlier != "" then earlier else pick(members[|members| - 1])
  }

  function UrlOf(d: Document): string { d.url }

  function DoiOf(d: Document): string { d.doi }

  function ExternalIdOf(d: Document): string { d.externalId }

  function FirstYear(members: seq<Document>): Option<real> {
    if members == [] then None
    else
      var earlier := FirstYear(members[..|members| - 1]);
      if earlier.Some? then earlier else members[|members| - 1].year
  }

  // The title of the first and those of the others that are not the placeholder.
  function Titles(members: seq<Document>): seq<string> {
    if members == [] then []
    else
      var (front, last) := (members[..|members| - 1], members[|members| - 1]);
      Titles(front) + if front == [] || last.title != "(untitled)" then [last.title] else []
  }

  // What else an output keeps: the first URL, DOI, external id and year that were there, source and score of its
  // first document, and the first of the longest of these titles.
  ghost predicate Fills(members: seq<Document>, f: FusedDocument) {
    && members != [] && f.doc.source == members[0].source && f.doc.score == members[0].score
    && f.doc.url == FirstPresent(members, UrlOf) && f.doc.doi == FirstPresent(members, DoiOf)
    && f.doc.externalId == FirstPresent(members, ExternalIdOf)
    && f.doc.year == FirstYear(members)
    && FirstLongest(Titles(members), f.doc.title)
  }

  lemma FillsNew(d: Document, rank: nat)
    ensures Fills([d], FusedDocument(d, [d.source], [Rank(d.source, rank)]))
  {
    assert [d][..0] == [];
    assert Titles([d]) == [] + [d.title] == [d.title];
    LongestAlone(d.title);
  }

  lemma FillsMerged(members: seq<Document>, f: FusedDocument, d: Document, rank: nat)
    requires Fills(members, f)
    ensures Fills(members + [d], Merge(f, d, rank))
  {
    var all := members + [d];
    assert all[..|all| - 1] == members && all[0] == members[0];
    TitlesNext(members, f.doc.title, d);
  }

  lemma TitlesNext(members: seq<Document>, title: string, d: Document)
    requires members != [] && FirstLongest(Titles(members), title)
    ensures FirstLongest(Titles(members + [d]),
                         if |d.title| > |title| && d.title != "(untitled)" then d.title else title)
  {
    Lists.CutAppend(members, [d]);
    LongestNext(Titles(members), title, d.title);
    assert Titles(members) + [] == Titles(members);
  }

  lemma {:induction false} RunFills(norm: Normalizer, docs: seq<Document>)
    requires Sane(norm)
    ensures forall i | 0 <= i < |Run(norm, docs).out| ::
      Fills(Members(docs, Places(norm, docs), i), Run(norm, docs).out[i])
  {
    if docs != [] {
      var (front, d) := (docs[..|docs| - 1], docs[|docs| - 1]);
      var (s, places) := (Run(norm, front), Places(norm, front));
      RunFills(norm, front);
      RunGathers(norm, front);
      RunIndexed(norm, front);
      assert Places(norm, docs) == places + [Where(norm, s, d)];
      FillsStep(norm, front, places, s, d);
      assert front + [d] == docs;
    }
  }

  lemma FillsStep(norm: Normalizer, docs: seq<Document>, places: seq<nat>, s: State, d: Document)
    requires Sane(norm) && Indexed(norm, s) && |docs| == |places|
    requires forall j | 0 <= j < |docs| :: places[j] < |s.out|
    requires forall i | 0 <= i < |s.out| :: Fills(Members(docs, places, i), s.out[i])
    ensures forall i | 0 <= i < |Step(norm, s, d).out| ::
      Fills(Members(docs + [d], places + [Where(norm, s, d)], i), Step(norm, s, d).out[i])
  {
    var (place, out) := (Where(norm, s, d), Step(norm, s, d).out);
    StepOut(norm, s, d, place);
    forall i | 0 <= i < |out| ensures Fills(Members(docs + [d], places + [place], i), out[i]) {
      if i < |s.out| {
        FillsAt(docs, places, s.out[i], d, Cursor(s.cursor, d.source), place, i);
      } else {
        MembersNext(docs, places, d, place, i);
        MembersFresh(docs, places, i);
        FillsNew(d, Cursor(s.cursor, d.source));
      }
    }
  }

  lemma FillsAt(docs: seq<Document>, places: seq<nat>, f: FusedDocument, d: Document, rank: nat, place: nat, i: nat)
    requires |docs| == |places| && Fills(Members(docs, places, i), f)
    ensures Fills(Members(docs + [d], places + [place], i), if i == place then Merge(f, d, rank) else f)
  {
    MembersNext(docs, places, d, place, i);
    FillsMerged(Members(docs, places, i), f, d, rank);
  }

  // Two keys that a merge by title takes for the same paper.
  predicate Close(a: TitleKey, b: TitleKey) {
    && a.title == b.title
    && (a.year == b.year || (a.year.Some? && b.year.Some? && -1 <= a.year.value - b.year.value <= 1))
  }

  // A title finds an output if and only if a close key is indexed; the same year is preferred, then the year before.
  lemma ByTitleExactly(byTitle: map<TitleKey, nat>, key: TitleKey)
    ensures ByTitle(byTitle, Some(key)).Some? <==> exists other :: other in byTitle && Close(other, key)
    ensures ByTitle(byTitle, Some(key)).Some? ==>
      exists other :: other in byTitle && Close(other, key) && byTitle[other] == ByTitle(byTitle, Some(key)).value
    ensures key in byTitle ==> ByTitle(byTitle, Some(key)) == Some(byTitle[key])
    ensures key !in byTitle && key.year.Some? && TitleKey(key.title, Some(key.year.value - 1)) in byTitle ==>
      ByTitle(byTitle, Some(key)) == Some(byTitle[TitleKey(key.title, Some(key.year.value - 1))])
  {
    if key in byTitle {
      assert Close(key, key);
    } else if key.year.Some? {
      var before, after := TitleKey(key.title, Some(key.year.value - 1)), TitleKey(key.title, Some(key.year.value + 1));
      assert Close(before, key) && Close(after, key);
      assert forall other | Close(other, key) :: other == key || other == before || other == after;
    }
  }

  // The title index is by the first document of each output.
  ghost predicate Titled(norm: Normalizer, docs: seq<Document>, places: seq<nat>, byTitle: map<TitleKey, nat>)
    requires |docs| == |places|
  {
    forall key | key in byTitle ::
      var members := Members(docs, places, byTitle[key]); members != [] && TitleOf(norm, members[0]) == Some(key)
  }

  lemma {:induction false} RunTitled(norm: Normalizer, docs: seq<Document>)
    requires Sane(norm)
    ensures Titled(norm, docs, Places(norm, docs), Run(norm, docs).byTitle)
  {
    if docs != [] {
      var (front, d) := (docs[..|docs| - 1], docs[|docs| - 1]);
      var (s, places) := (Run(norm, front), Places(norm, front));
      RunTitled(norm, front);
      RunGathers(norm, front);
      RunIndexed(norm, front);
      TargetInRange(norm, s, d);
      MembersFresh(front, places, |s.out|);
      assert Places(norm, docs) == places + [Where(norm, s, d)];
      TitledStep(norm, front, places, s, d);
      assert front + [d] == docs;
    }
  }

  lemma TitledStep(norm: Normalizer, docs: seq<Document>, places: seq<nat>, s: State, d: Document)
    requires |docs| == |places| && Titled(norm, docs, places, s.byTitle) && Members(docs, places, |s.out|) == []
    requires Target(norm, s, d).Some? ==> Target(norm, s, d).value < |s.out|
    ensures Titled(norm, docs + [d], places + [Where(norm, s, d)], Step(norm, s, d).byTitle)
  {
    var (place, byTitle) := (Where(norm, s, d), Step(norm, s, d).byTitle);
    assert (docs + [d])[..|docs|] == docs && (places + [place])[..|docs|] == places;
    forall key | key in byTitle
      ensures var members := Members(docs + [d], places + [place], byTitle[key]);
        members != [] && TitleOf(norm, members[0]) == Some(key)
    {
      if key in s.byTitle && byTitle[key] == s.byTitle[key] {
        assert TitleOf(norm, Members(docs, places, byTitle[key])[0]) == Some(key);
      }
    }
  }

  // And every output whose first document has a title is in the index.
  ghost predicate Listed(norm: Normalizer, docs: seq<Document>, places: seq<nat>, s: State)
    requires |docs| == |places|
  {
    forall i | 0 <= i < |s.out| :: ListedAt(norm, Members(docs, places, i), s.byTitle, i)
  }

  ghost predicate ListedAt(norm: Normalizer, members: seq<Document>, byTitle: map<TitleKey, nat>, i: nat) {
    && members != []
    && var key := TitleOf(norm, members[0]);
      key.Some? ==> key.value in byTitle && byTitle[key.value] == i
  }

  lemma ListedStep(norm: Normalizer, docs: seq<Document>, places: seq<nat>, s: State, d: Document)
    requires Sane(norm) && Indexed(norm, s) && |docs| == |places| && Listed(norm, docs, places, s)
    requires Members(docs, places, |s.out|) == []
    ensures Listed(norm, docs + [d], places + [Where(norm, s, d)], Step(norm, s, d))
  {
    var (place, later) := (Where(norm, s, d), Step(norm, s, d));
    StepOut(norm, s, d, place);
    forall i | 0 <= i < |later.out|
      ensures ListedAt(norm, Members(docs + [d], places + [place], i), later.byTitle, i)
    {
      MembersNext(docs, places, d, place, i);
      if i < |s.out| {
        assert ListedAt(norm, Members(docs, places, i), s.byTitle, i);
      }
    }
  }

  lemma {:induction false} RunListed(norm: Normalizer, docs: seq<Document>)
    requires Sane(norm)
    ensures Listed(norm, docs, Places(norm, docs), Run(norm, docs))
  {
    if docs != [] {
      var (front, d) := (docs[..|docs| - 1], docs[|docs| - 1]);
      var (s, places) := (Run(norm, front), Places(norm, front));
      RunListed(norm, front);
      RunGathers(norm, front);
      RunIndexed(norm, front);
      MembersFresh(front, places, |s.out|);
      assert Places(norm, docs) == places + [Where(norm, s, d)];
      ListedStep(norm, front, places, s, d);
      assert front + [d] == docs;
    }
  }

  // The title key of the first document of an output.
  function Heading(norm: Normalizer, docs: seq<Document>, i: nat): Option<TitleKey> {
    var members := Members(docs, Places(norm, docs), i);
    if members == [] then None else TitleOf(norm, members[0])
  }

  lemma GrowsIfNew(norm: Normalizer, s: State, d: Document)
    requires Sane(norm) && Indexed(norm, s)
    ensures |Step(norm, s, d).out| == |s.out| + if Target(norm, s, d).None? then 1 else 0
  {
    TargetInRange(norm, s, d);
  }

  lemma HeadMember(docs: seq<Document>, places: seq<nat>, d: Document, place: nat, i: nat)
    requires |docs| == |places| && (Members(docs, places, i) != [] || place == i)
    ensures var members, later := Members(docs, places, i), Members(docs + [d], places + [place], i);
      later != [] && later[0] == if members != [] then members[0] else d
  {
    MembersNext(docs, places, d, place, i);
  }

  lemma HeadingAfter(norm: Normalizer, docs: seq<Document>, d: Document, i: nat)
    requires Sane(norm) && i < |Run(norm, docs + [d]).out|
    ensures Heading(norm, docs + [d], i) ==
      if i < |Run(norm, docs).out| then Heading(norm, docs, i) else TitleOf(norm, d)
    ensures |Run(norm, docs + [d]).out| == |Run(norm, docs).out| +
      if Target(norm, Run(norm, docs), d).None? then 1 else 0
  {
    var (s, places) := (Run(norm, docs), Places(norm, docs));
    assert (docs + [d])[..|docs|] == docs;
    RunGathers(norm, docs);
    RunIndexed(norm, docs);
    GrowsIfNew(norm, s, d);
    MembersFresh(docs, places, |s.out|);
    if i < |s.out| {
      assert Gathers(Members(docs, places, i), s.out[i]);
    }
    HeadMember(docs, places, d, Where(norm, s, d), i);
  }

  lemma {:induction false} HeadingsApart(norm: Normalizer, docs: seq<Document>, i: nat, j: nat)
    requires Sane(norm) && i < j < |Run(norm, docs).out|
    requires Heading(norm, docs, i).Some? && Heading(norm, docs, j).Some?
    ensures !Close(Heading(norm, docs, i).value, Heading(norm, docs, j).value)
  {
    if docs != [] {
      var (front, d) := (docs[..|docs| - 1], docs[|docs| - 1]);
      var s := Run(norm, front);
      assert docs == front + [d];
      HeadingAfter(norm, front, d, i);
      HeadingAfter(norm, front, d, j);
      if j < |s.out| {
        HeadingsApart(norm, front, i, j);
      } else {
        RunListed(norm, front);
        assert ListedAt(norm, Members(front, Places(norm, front), i), s.byTitle, i);
        ByTitleExactly(s.byTitle, Heading(norm, docs, j).value);
      }
    }
  }

  /******* In terms of the documents *******/

  ghost predicate SameDoi(norm: Normalizer, a: Document, b: Document) {
    norm.doi(a.doi).Some? && norm.doi(a.doi) == norm.doi(b.doi)
  }

  // Half up.
  ghost predicate RoundsTo(year: real, k: int) { k as real - 0.5 <= year < k as real + 0.5 }

  ghost predicate OneApart(x: real, y: real, k: int, l: int) { RoundsTo(x, k) && RoundsTo(y, l) && -1 <= k - l <= 1 }

  // No year is known, or both are and, rounded, they are at most one apart.
  ghost predicate NearYears(x: Option<real>, y: Option<real>) {
    (x.None? && y.None?) || (x.Some? && y.Some? && exists k: int, l: int :: OneApart(x.value, y.value, k, l))
  }

  // What a merge by title takes for the same paper.
  ghost predicate AlikeTitled(norm: Normalizer, a: Document, b: Document) {
    norm.title(a.title) != "" && norm.title(a.title) == norm.title(b.title) && NearYears(a.year, b.year)
  }

  lemma BucketRounds(year: real, k: int)
    ensures Bucket(Some(year)) == Some(k) <==> RoundsTo(year, k)
    ensures Bucket(Some(year)).Some? && Bucket(None).None?
  {
  }

  lemma YearsAsBuckets(x: Option<real>, y: Option<real>)
    ensures NearYears(x, y) <==>
      var (k, l) := (Bucket(x), Bucket(y)); k == l || (k.Some? && l.Some? && -1 <= k.value - l.value <= 1)
  {
    if x.Some? && y.Some? {
      var (k, l) := (Bucket(x).value, Bucket(y).value);
      BucketRounds(x.value, k);
      BucketRounds(y.value, l);
      assert -1 <= k - l <= 1 ==> OneApart(x.value, y.value, k, l);
      forall m: int, n: int | OneApart(x.value, y.value, m, n) ensures m == k && n == l {
        BucketRounds(x.value, m);
        BucketRounds(y.value, n);
      }
    }
  }

  lemma AlikeAsKeys(norm: Normalizer, a: Document, b: Document)
    ensures AlikeTitled(norm, a, b) <==>
      var (k, l) := (TitleOf(norm, a), TitleOf(norm, b)); k.Some? && l.Some? && Close(k.value, l.value)
  {
    YearsAsBuckets(a.year, b.year);
  }

  // Output `i` begins with a document that `d` is taken for by title.
  ghost predicate BeginsAlike(norm: Normalizer, docs: seq<Document>, i: nat, d: Document) {
    var members := Members(docs, Places(norm, docs), i);
    members != [] && AlikeTitled(norm, members[0], d)
  }

  lemma DoiAsIndex(norm: Normalizer, s: State, d: Document)
    requires Indexed(norm, s)
    ensures (exists i :: 0 <= i < |s.out| && SameDoi(norm, s.out[i].doc, d)) <==>
            norm.doi(d.doi).Some? && norm.doi(d.doi).value in s.byDoi
    ensures forall i | 0 <= i < |s.out| && SameDoi(norm, s.out[i].doc, d) :: s.byDoi[norm.doi(d.doi).value] == i
  {
    var doi := norm.doi(d.doi);
    if doi.Some? && doi.value in s.byDoi {
      assert SameDoi(norm, s.out[s.byDoi[doi.value]].doc, d);
    }
  }

  lemma TitleAsIndex(norm: Normalizer, docs: seq<Document>, d: Document)
    requires Sane(norm)
    ensures var (s, found) := (Run(norm, docs), ByTitle(Run(norm, docs).byTitle, TitleOf(norm, d)));
      && (found.Some? <==> exists i :: 0 <= i < |s.out| && BeginsAlike(norm, docs, i, d))
      && (found.Some? ==> found.value < |s.out| && BeginsAlike(norm, docs, found.value, d))
  {
    var s := Run(norm, docs);
    RunIndexed(norm, docs);
    RunTitled(norm, docs);
    RunListed(norm, docs);
    forall i | 0 <= i < |s.out| && BeginsAlike(norm, docs, i, d)
      ensures TitleOf(norm, d).Some?
      ensures exists key :: key in s.byTitle && Close(key, TitleOf(norm, d).value)
    {
      var members := Members(docs, Places(norm, docs), i);
      AlikeAsKeys(norm, members[0], d);
      assert ListedAt(norm, members, s.byTitle, i);
    }
    if TitleOf(norm, d).Some? {
      ByTitleExactly(s.byTitle, TitleOf(norm, d).value);
      forall key | key in s.byTitle && Close(key, TitleOf(norm, d).value)
        ensures BeginsAlike(norm, docs, s.byTitle[key], d)
      {
        AlikeAsKeys(norm, Members(docs, Places(norm, docs), s.byTitle[key])[0], d);
      }
    }
  }

  // Where a document ends up: in the output that has its DOI; if there is none, in one that begins with a document of
  // the same normalised title and a year at most one away; if there is none either, in a new one.
  lemma PlaceExactly(norm: Normalizer, docs: seq<Document>, d: Document)
    requires Sane(norm)
    ensures var (out, place) := (Run(norm, docs).out, Places(norm, docs + [d])[|docs|]);
      && place <= |out|
      && (place < |out| <==>
            exists i :: 0 <= i < |out| && (SameDoi(norm, out[i].doc, d) || BeginsAlike(norm, docs, i, d)))
      && (forall i | 0 <= i < |out| && SameDoi(norm, out[i].doc, d) :: place == i)
      && ((forall i | 0 <= i < |out| :: !SameDoi(norm, out[i].doc, d)) && place < |out| ==>
            BeginsAlike(norm, docs, place, d))
  {
    RunIndexed(norm, docs);
    TargetInRange(norm, Run(norm, docs), d);
    DoiAsIndex(norm, Run(norm, docs), d);
    TitleAsIndex(norm, docs, d);
    RunAppend(norm, docs, d);
  }

  // Without a common DOI, two documents share an output exactly if their titles are the same and not empty and their
  // years near.
  lemma TwoByTitle(norm: Normalizer, a: Document, b: Document)
    requires Sane(norm) && !SameDoi(norm, a, b)
    ensures Places(norm, [a, b]) == [0, if AlikeTitled(norm, a, b) then 0 else 1]
  {
    PlaceExactly(norm, [], a);
    PlaceExactly(norm, [a], b);
    assert [] + [a] == [a] && [a] + [b] == [a, b];
    RunAppend(norm, [], a);
    RunAppend(norm, [a], b);
    assert Run(norm, [a]).out == [FusedDocument(a, [a.source], [Rank(a.source, 0)])];
    assert Members([a], [0], 0) == [a];
    assert BeginsAlike(norm, [a], 0, b) <==> AlikeTitled(norm, a, b);
  }

  // If nothing has its DOI, a document is merged exactly if an output begins with one of its title and a near year.
  lemma TitleMergesClose(norm: Normalizer, docs: seq<Document>, d: Document)
    requires Sane(norm) && forall i | 0 <= i < |Run(norm, docs).out| :: !SameDoi(norm, Run(norm, docs).out[i].doc, d)
    ensures var (n, place) := (|Run(norm, docs).out|, Places(norm, docs + [d])[|docs|]);
      && (place < n <==> exists i :: 0 <= i < n && BeginsAlike(norm, docs, i, d))
      && (place < n ==> BeginsAlike(norm, docs, place, d))
  {
    PlaceExactly(norm, docs, d);
  }

  // Between the year before and the year after, the year before wins.
  lemma YearBeforeWins(norm: Normalizer, docs: seq<Document>, d: Document, i: nat, k: int)
    requires Sane(norm) && forall j | 0 <= j < |Run(norm, docs).out| :: !SameDoi(norm, Run(norm, docs).out[j].doc, d)
    requires i < |Run(norm, docs).out| && BeginsAlike(norm, docs, i, d) && d.year.Some? && RoundsTo(d.year.value, k)
    requires RoundsTo(Members(docs, Places(norm, docs), i)[0].year.value, k - 1)
    ensures Places(norm, docs + [d])[|docs|] == i
  {
    var before := TitleKey(norm.title(d.title), Some(k - 1));
    KeysOf(norm, Members(docs, Places(norm, docs), i)[0], d, k);
    IndexedUnder(norm, docs, i, before);
    NotIndexedUnder(norm, docs, i, before, TitleKey(norm.title(d.title), Some(k)));
    RunIndexed(norm, docs);
    DoiAsIndex(norm, Run(norm, docs), d);
    WhereBefore(norm, Run(norm, docs), d, TitleKey(norm.title(d.title), Some(k)), i);
    RunAppend(norm, docs, d);
  }

  lemma KeysOf(norm: Normalizer, first: Document, d: Document, k: int)
    requires AlikeTitled(norm, first, d) && d.year.Some? && RoundsTo(d.year.value, k)
    requires RoundsTo(first.year.value, k - 1)
    ensures TitleOf(norm, d) == Some(TitleKey(norm.title(d.title), Some(k)))
    ensures TitleOf(norm, first) == Some(TitleKey(norm.title(d.title), Some(k - 1)))
  {
    BucketRounds(d.year.value, k);
    BucketRounds(first.year.value, k - 1);
  }

  lemma NotIndexedUnder(norm: Normalizer, docs: seq<Document>, i: nat, a: TitleKey, b: TitleKey)
    requires Sane(norm) && i < |Run(norm, docs).out| && Heading(norm, docs, i) == Some(a) && a != b && Close(a, b)
    ensures b !in Run(norm, docs).byTitle
  {
    if b in Run(norm, docs).byTitle {
      RunTitled(norm, docs);
      RunIndexed(norm, docs);
      SameKeyElsewhere(norm, docs, i, Run(norm, docs).byTitle[b], a, b);
    }
  }

  lemma IndexedUnder(norm: Normalizer, docs: seq<Document>, i: nat, key: TitleKey)
    requires Sane(norm) && i < |Run(norm, docs).out| && Heading(norm, docs, i) == Some(key)
    ensures key in Run(norm, docs).byTitle && Run(norm, docs).byTitle[key] == i
  {
    RunListed(norm, docs);
    assert ListedAt(norm, Members(docs, Places(norm, docs), i), Run(norm, docs).byTitle, i);
  }

  lemma WhereBefore(norm: Normalizer, s: State, d: Document, key: TitleKey, i: nat)
    requires norm.doi(d.doi).Some? ==> norm.doi(d.doi).value !in s.byDoi
    requires TitleOf(norm, d) == Some(key) && key.year.Some? && key !in s.byTitle
    requires TitleKey(key.title, Some(key.year.value - 1)) in s.byTitle
    requires s.byTitle[TitleKey(key.title, Some(key.year.value - 1))] == i
    ensures Where(norm, s, d) == i
  {
  }

  lemma SameKeyElsewhere(norm: Normalizer, docs: seq<Document>, i: nat, j: nat, a: TitleKey, b: TitleKey)
    requires Sane(norm) && i < |Run(norm, docs).out| && j < |Run(norm, docs).out|
    requires Heading(norm, docs, i) == Some(a) && Heading(norm, docs, j) == Some(b)
    ensures a == b || !Close(a, b)
  {
    if i < j {
      HeadingsApart(norm, docs, i, j);
    } else if j < i {
      HeadingsApart(norm, docs, j, i);
    }
  }

  // No two outputs begin with documents that a merge by title takes for the same paper.
  lemma TitlesApart(norm: Normalizer, docs: seq<Document>, i: nat, j: nat)
    requires Sane(norm) && i < j < |Run(norm, docs).out|
    ensures var (a, b) := (Members(docs, Places(norm, docs), i), Members(docs, Places(norm, docs), j));
      a != [] && b != [] && !AlikeTitled(norm, a[0], b[0])
  {
    var (a, b) := (Members(docs, Places(norm, docs), i), Members(docs, Places(norm, docs), j));
    RunGathers(norm, docs);
    assert Gathers(a, Run(norm, docs).out[i]) && Gathers(b, Run(norm, docs).out[j]);
    AlikeAsKeys(norm, a[0], b[0]);
    if Heading(norm, docs, i).Some? && Heading(norm, docs, j).Some? {
      HeadingsApart(norm, docs, i, j);
    }
  }

  /** The record as it lives on the heap: one object is reached from both indexes and the output list. */
  class Fused {
    var doc: Document
    var sources: seq<string>
    var ranks: seq<Rank>
    ghost const position: nat

    function View(): FusedDocument
      reads this
    {
      FusedDocument(doc, sources, ranks)
    }

    constructor (d: Document, rank: nat, ghost position: nat)
      ensures View() == FusedDocument(d, [d.source], [Rank(d.source, rank)]) && this.position == position
    {
      this.position := position;
      doc := d;
      sources := [d.source];
      ranks := [Rank(d.source, rank)];
    }

    // `richer`: field by field.
    method Enrich(b: Document)
      modifies this`doc
      ensures doc == Richer(old(doc), b)
    {
      if |b.abstract_| > |doc.abstract_| { doc := doc.(abstract_ := b.abstract_); }
      if |b.authors| > |doc.authors| { doc := doc.(authors := b.authors); }
      if doc.doi == "" && b.doi != "" { doc := doc.(doi := b.doi); }
      if doc.url == "" && b.url != "" { doc := doc.(url := b.url); }
      if doc.year.None? && b.year.Some? { doc := doc.(year := b.year); }
      if doc.externalId == "" && b.externalId != "" { doc := doc.(externalId := b.externalId); }
      if |b.title| > |doc.title| && b.title != "(untitled)" { doc := doc.(title := b.title); }
    }

    method Absorb(d: Document, rank: nat)
      modifies this
      ensures View() == Merge(old(View()), d, rank)
    {
      if d.source !in sources {
        sources := sources + [d.source];
      }
      ranks := ranks + [Rank(d.source, rank)];
      Enrich(d);
    }
  }

  // An index of objects agrees with an index of positions in the list of objects.
  ghost predicate Agrees<K>(index: map<K, Fused>, out: seq<Fused>, positions: map<K, nat>) {
    && index.Keys == positions.Keys
    && forall k | k in index :: positions[k] < |out| && index[k] == out[positions[k]]
  }

  lemma AgreesAfter<K>(index: map<K, Fused>, out: seq<Fused>, positions: map<K, nat>, more: seq<Fused>, key: K, i: nat)
    requires Agrees(index, out, positions) && out <= more && i < |more|
    ensures Agrees(index, more, positions)
    ensures Agrees(index[key := more[i]], more, positions[key := i])
  {
  }

  lemma AgreesLonger<K>(index: map<K, Fused>, out: seq<Fused>, positions: map<K, nat>, fused: Fused)
    requires Agrees(index, out, positions)
    ensures Agrees(index, out + [fused], positions)
  {
  }

  /** The working state of one deduplication. */
  class Deduper {
    const norm: Normalizer
    var out: seq<Fused>
    var byDoi: map<string, Fused>
    var byTitle: map<TitleKey, Fused>
    var cursor: map<string, nat>
    ghost var state: State

    // The heap is the value-level state, with objects for positions.
    ghost predicate Valid()
      reads this, out
    {
      && cursor == state.cursor
      && |out| == |state.out|
      && (forall i | 0 <= i < |out| :: out[i].position == i && out[i].View() == state.out[i])
      && Agrees(byDoi, out, state.byDoi) && Agrees(byTitle, out, state.byTitle)
    }

    constructor (norm: Normalizer)
      ensures Valid() && out == [] && state == START && this.norm == norm
    {
      this.norm := norm;
      out, byDoi, byTitle, cursor, state := [], map[], map[], map[], START;
    }

    method FindByTitle(key: Option<TitleKey>) returns (existing: Fused?, ghost position: nat)
      requires Valid()
      ensures existing == null <==> ByTitle(state.byTitle, key).None?
      ensures existing != null ==>
        ByTitle(state.byTitle, key) == Some(position) && position < |out| && existing == out[position]
    {
      existing, position := null, 0;
      if key.Some? {
        if key.value in byTitle {
          existing, position := byTitle[key.value], state.byTitle[key.value];
        } else if key.value.year.Some? {
          var (before, after) := (TitleKey(key.value.title, Some(key.value.year.value - 1)),
                                  TitleKey(key.value.title, Some(key.value.year.value + 1)));
          if before in byTitle {
            existing, position := byTitle[before], state.byTitle[before];
          } else if after in byTitle {
            existing, position := byTitle[after], state.byTitle[after];
          }
        }
      }
    }

    method FindExisting(d: Document) returns (existing: Fused?, ghost position: nat)
      requires Valid()
      ensures existing == null <==> Target(norm, state, d).None?
      ensures existing != null ==>
        Target(norm, state, d) == Some(position) && position < |out| && existing == out[position]
    {
      var doi := norm.doi(d.doi);
      if doi.Some? && doi.value in byDoi {
        existing, position := byDoi[doi.value], state.byDoi[doi.value];
      } else {
        existing, position := FindByTitle(TitleOf(norm, d));
      }
    }

    method IndexDoi(doi: Option<string>, existing: Fused, ghost position: nat)
      requires Agrees(byDoi, out, state.byDoi) && position < |out| && existing == out[position]
      modifies this`byDoi
      ensures Agrees(byDoi, out, if doi.Some? && doi.value !in state.byDoi then state.byDoi[doi.value := position]
                                 else state.byDoi)
    {
      if doi.Some? && doi.value !in byDoi {
        AgreesAfter(byDoi, out, state.byDoi, out, doi.value, position);
        byDoi := byDoi[doi.value := existing];
      }
    }

    method MergeInto(existing: Fused, d: Document, ghost position: nat)
      requires Valid() && position < |out| && existing == out[position]
      modifies this, existing
      ensures Valid() && out == old(out) && state == Merged(norm, old(state), d, position)
    {
      var rank := Cursor(cursor, d.source);
      cursor := cursor[d.source := rank + 1];
      existing.Absorb(d, rank);
      IndexDoi(norm.doi(existing.doc.doi), existing, position);
      state := Merged(norm, state, d, position);
    }

    // The two indexes of the new output.
    method IndexNew(d: Document, fused: Fused, ghost position: nat)
      requires Agrees(byDoi, out, state.byDoi) && Agrees(byTitle, out, state.byTitle)
      requires position < |out| && fused == out[position]
      modifies this`byDoi, this`byTitle, this`state
      ensures Agrees(byDoi, out, state.byDoi) && Agrees(byTitle, out, state.byTitle)
      ensures state == old(state).(
        byDoi := if norm.doi(d.doi).Some? then old(state).byDoi[norm.doi(d.doi).value := position]
                 else old(state).byDoi,
        byTitle := if TitleOf(norm, d).Some? then old(state).byTitle[TitleOf(norm, d).value := position]
                   else old(state).byTitle)
    {
      var (doi, title) := (norm.doi(d.doi), TitleOf(norm, d));
      if doi.Some? {
        AgreesAfter(byDoi, out, state.byDoi, out, doi.value, position);
        byDoi := byDoi[doi.value := fused];
        state := state.(byDoi := state.byDoi[doi.value := position]);
      }
      if title.Some? {
        AgreesAfter(byTitle, out, state.byTitle, out, title.value, position);
        byTitle := byTitle[title.value := fused];
        state := state.(byTitle := state.byTitle[title.value := position]);
      }
    }

    // The new output itself.
    method Extend(d: Document) returns (fused: Fused)
      requires Valid()
      modifies this`out, this`cursor, this`state
      ensures Valid() && fresh(fused) && out == old(out) + [fused]
      ensures state == old(state).(
        out := old(state).out + [FusedDocument(d, [d.source], [Rank(d.source, Cursor(old(state).cursor, d.source))])],
        cursor := old(state).cursor[d.source := Cursor(old(state).cursor, d.source) + 1])
    {
      var rank := Cursor(cursor, d.source);
      cursor := cursor[d.source := rank + 1];
      fused := new Fused(d, rank, |out|);
      AgreesLonger(byDoi, out, state.byDoi, fused);
      AgreesLonger(byTitle, out, state.byTitle, fused);
      out := out + [fused];
      state := state.(out := state.out + [FusedDocument(d, [d.source], [Rank(d.source, rank)])], cursor := cursor);
    }

    method Append(d: Document)
      requires Valid()
      modifies this
      ensures Valid() && state == Added(norm, old(state), d)
      ensures old(out) <= out && forall i | |old(out)| <= i < |out| :: fresh(out[i])
    {
      var fused := Extend(d);
      IndexNew(d, fused, |old(out)|);
    }

    // One pass of the loop.
    method Handle(d: Document)
      requires Valid()
      modifies this, out
      ensures Valid() && state == Step(norm, old(state), d)
      ensures old(out) <= out && forall i | |old(out)| <= i < |out| :: fresh(out[i])
    {
      var existing, position := FindExisting(d);
      if existing != null {
        MergeInto(existing, d, position);
      } else {
        Append(d);
      }
    }
  }

  method Dedupe(norm: Normalizer, docs: seq<Document>) returns (out: seq<Fused>)
    requires Sane(norm)
    ensures |out| == |Run(norm, docs).out|
    ensures forall i | 0 <= i < |out| :: fresh(out[i])
    ensures forall i | 0 <= i < |out| :: out[i].View() == Run(norm, docs).out[i]
    ensures forall i, j | 0 <= i < j < |out| :: out[i] != out[j]
  {
    var work := new Deduper(norm);
    var n := 0;
    while n < |docs|
      invariant 0 <= n <= |docs|
      invariant work.Valid() && work.norm == norm && fresh(work)
      invariant forall i | 0 <= i < |work.out| :: fresh(work.out[i])
      invariant work.state == Run(norm, docs[..n])
    {
      work.Handle(docs[n]);
      RunNext(norm, docs, n);
      n := n + 1;
    }
    assert docs[..n] == docs;
    out := work.out;
    forall i, j | 0 <= i < j < |out| ensures out[i] != out[j] {
      assert out[i].position == i && out[j].position == j;
    }
  }
}
