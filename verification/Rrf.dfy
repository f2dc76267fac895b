/** Reciprocal rank fusion of the deduplicated records. Scores are reals: the rounding of doubles and NaN are not
    part of this model. */
module Rrf {
  import opened Dedup
  import opened Sorting

  datatype Ranked = Ranked(fused: FusedDocument, rrfScore: real, consensus: nat, score: real, rank: nat)

  // How the locale orders titles.
  type Collation = string -> int

  // What one rank entry adds to the score.
  function Term(k: real): nat -> real
    requires k > 0.0
  {
    (rank: nat) => Reciprocal(k + rank as real)
  }

  function Reciprocal(x: real): real {
    if x == 0.0 then 0.0 else 1.0 / x
  }

  function Sum(ranks: seq<Rank>, term: nat -> real): real {
    if ranks == [] then 0.0 else Sum(ranks[..|ranks| - 1], term) + term(ranks[|ranks| - 1].rank)
  }

  function Score(ranks: seq<Rank>, k: real): real
    requires k > 0.0
  {
    Sum(ranks, Term(k))
  }

  function Placed(d: FusedDocument, k: real): Ranked
    requires k > 0.0
  {
    Ranked(d, Score(d.ranks, k), |d.sources|, d.doc.score, 0)
  }

  // `a` may come before `b`: the comparator is not positive.
  predicate NotAfter(collate: Collation, a: Ranked, b: Ranked) {
    if a.rrfScore != b.rrfScore then a.rrfScore > b.rrfScore
    else if a.consensus != b.consensus then a.consensus > b.consensus
    else if a.score != b.score then a.score > b.score
    else collate(a.fused.doc.title) <= collate(b.fused.doc.title)
  }

  function Comparator(collate: Collation): Order<Ranked> {
    (a, b) => NotAfter(collate, a, b)
  }

  // The comparator is consistent, so the sort has a meaning.
  lemma {:induction false} ComparatorConsistent(collate: Collation)
    ensures TotalPreorder(Comparator(collate))
  {
    forall a, b, c | NotAfter(collate, a, b) && NotAfter(collate, b, c) ensures NotAfter(collate, a, c) {
    }
  }

  function Stamped(r: Ranked, i: nat): Ranked {
    r.(score := r.rrfScore, rank := i + 1)
  }

  function AllPlaced(docs: seq<FusedDocument>, k: real): seq<Ranked>
    requires k > 0.0
  {
    seq(|docs|, i requires 0 <= i < |docs| => Placed(docs[i], k))
  }

  function Ordered(collate: Collation, docs: seq<FusedDocument>, k: real): seq<Ranked>
    requires k > 0.0
  {
    Sort(Comparator(collate), AllPlaced(docs, k))
  }

  function Fuse(collate: Collation, docs: seq<FusedDocument>, k: real): seq<Ranked>
    requires k > 0.0
  {
    var ordered := Ordered(collate, docs, k);
    seq(|ordered|, i requires 0 <= i < |ordered| => Stamped(ordered[i], i))
  }

  method FuseRrf(collate: Collation, docs: seq<FusedDocument>, k: real) returns (ranked: array<Ranked>)
    requires k > 0.0
    ensures fresh(ranked)
    ensures ranked[..] == Fuse(collate, docs, k)
  {
    var placed: seq<Ranked> := [];
    var n := 0;
    while n < |docs|
      invariant 0 <= n <= |docs|
      invariant placed == AllPlaced(docs[..n], k)
    {
      var rrf := 0.0;
      var j := 0;
      var ranks := docs[n].ranks;
      while j < |ranks|
        invariant 0 <= j <= |ranks| && rrf == Sum(ranks[..j], Term(k))
      {
        rrf := rrf + 1.0 / (k + ranks[j].rank as real);
        j := j + 1;
        assert ranks[..j][..j - 1] == ranks[..j - 1];
      }
      assert ranks[..j] == ranks;
      placed := placed + [Ranked(docs[n], rrf, |docs[n].sources|, docs[n].doc.score, 0)];
      n := n + 1;
    }
    assert docs[..n] == docs;
    var sorted := Sort(Comparator(collate), placed);
    ranked := new Ranked[|sorted|](i requires 0 <= i < |sorted| => sorted[i]);
    var i := 0;
    while i < ranked.Length
      invariant 0 <= i <= ranked.Length == |sorted|
      invariant forall j | 0 <= j < i :: ranked[j] == Stamped(sorted[j], j)
      invariant forall j | i <= j < |sorted| :: ranked[j] == sorted[j]
    {
      ranked[i] := ranked[i].(score := ranked[i].rrfScore);
      ranked[i] := ranked[i].(rank := i + 1);
      i := i + 1;
    }
  }

  // Each rank entry adds its reciprocal, whatever the others are.
  lemma ScoreExactly(ranks: seq<Rank>, r: Rank, k: real)
    requires k > 0.0
    ensures Score([], k) == 0.0
    ensures (Score(ranks + [r], k) - Score(ranks, k)) * (k + r.rank as real) == 1.0
  {
    assert (ranks + [r])[..|ranks|] == ranks;
    TermInverse(k, r.rank);
  }

  lemma PlacedExactly(docs: seq<FusedDocument>, k: real)
    requires k > 0.0
    ensures var placed := AllPlaced(docs, k);
      && |placed| == |docs| && (forall i | 0 <= i < |docs| :: placed[i].fused == docs[i])
      && forall p | p in placed ::
           p.fused in docs && p.rrfScore == Score(p.fused.ranks, k) && p.consensus == |p.fused.sources|
  {
  }

  // The input, each record with its score: nothing is lost, added or duplicated, ties keep their order, and
  // the output carries the fused score and its position.
  lemma FusionOrdered(collate: Collation, docs: seq<FusedDocument>, k: real)
    requires k > 0.0
    ensures var (placed, ordered, out) := (AllPlaced(docs, k), Ordered(collate, docs, k), Fuse(collate, docs, k));
      && |placed| == |docs| && (forall i | 0 <= i < |docs| :: placed[i].fused == docs[i])
      && multiset(ordered) == multiset(placed) && Rearranges(Comparator(collate), placed, ordered)
      && Sorted(Comparator(collate), ordered) && |out| == |docs|
      && forall i | 0 <= i < |out| ::
           && out[i].fused in docs && out[i].fused == ordered[i].fused
           && out[i].consensus == ordered[i].consensus == |out[i].fused.sources| && out[i].rank == i + 1
           && out[i].score == out[i].rrfScore == ordered[i].rrfScore == Score(out[i].fused.ranks, k)
  {
    var placed, ordered := AllPlaced(docs, k), Ordered(collate, docs, k);
    ComparatorConsistent(collate);
    SortStable(Comparator(collate), placed);
    PlacedExactly(docs, k);
    forall i | 0 <= i < |ordered|
      ensures ordered[i].rrfScore == Score(ordered[i].fused.ranks, k) && ordered[i].fused in docs
      ensures ordered[i].consensus == |ordered[i].fused.sources|
    {
      assert ordered[i] in placed;
    }
  }

  // Who comes first, without the comparator: fused score, then number of sources, then the connector's own score,
  // then title; of two that agree in all of these, the one that came first.
  lemma FusionLexicographic(collate: Collation, docs: seq<FusedDocument>, k: real, i: nat, j: nat)
    requires k > 0.0 && i < j < |Fuse(collate, docs, k)|
    ensures var (a, b) := (Fuse(collate, docs, k)[i].fused, Fuse(collate, docs, k)[j].fused);
      && Score(a.ranks, k) >= Score(b.ranks, k)
      && (Score(a.ranks, k) == Score(b.ranks, k) ==> |a.sources| >= |b.sources|)
      && (Score(a.ranks, k) == Score(b.ranks, k) && |a.sources| == |b.sources| ==> a.doc.score >= b.doc.score)
      && (Score(a.ranks, k) == Score(b.ranks, k) && |a.sources| == |b.sources| && a.doc.score == b.doc.score ==>
            collate(a.doc.title) <= collate(b.doc.title))
  {
    var placed, ordered := AllPlaced(docs, k), Ordered(collate, docs, k);
    ComparatorConsistent(collate);
    SortStable(Comparator(collate), placed);
    assert ordered[i] in placed && ordered[j] in placed;
    assert Comparator(collate)(ordered[i], ordered[j]);
  }

  predicate Within(ranks: seq<Rank>, bound: nat) {
    forall r | r in ranks :: r.rank <= bound
  }

  function Times(n: nat, x: real): real {
    if n == 0 then 0.0 else Times(n - 1, x) + x
  }

  lemma {:induction false} TimesIs(n: nat, x: real)
    ensures Times(n, x) == n as real * x
  {
    if n != 0 {
      TimesIs(n - 1, x);
      Distribute((n - 1) as real, x);
    }
  }

  lemma Distribute(n: real, x: real)
    ensures (n + 1.0) * x == n * x + x
  {
  }

  lemma {:induction false} TimesMonotone(a: nat, b: nat, x: real)
    requires a <= b && x >= 0.0
    ensures Times(a, x) <= Times(b, x)
  {
    if a < b {
      TimesMonotone(a, b - 1, x);
    }
  }

  lemma {:induction false} SumBetween(ranks: seq<Rank>, term: nat -> real, low: real, high: real)
    requires forall r | r in ranks :: low <= term(r.rank) <= high
    ensures Times(|ranks|, low) <= Sum(ranks, term) <= Times(|ranks|, high)
  {
    if ranks != [] {
      SumBetween(ranks[..|ranks| - 1], term, low, high);
      assert ranks[|ranks| - 1] in ranks;
    }
  }

  lemma ReciprocalAntitone(x: real, y: real)
    requires 0.0 < x <= y
    ensures 0.0 < Reciprocal(y) <= Reciprocal(x)
  {
    var (u, v) := (Reciprocal(x), Reciprocal(y));
    assert u * x == 1.0 && v * y == 1.0;
    Scale(v, 0.0, y);
    assert v * (y - x) >= 0.0;
    Scale(v, u, x);
  }

  lemma TermBetween(k: real, rank: nat, bound: nat)
    requires k > 0.0 && rank <= bound
    ensures 0.0 < Term(k)(bound) <= Term(k)(rank) <= Term(k)(0)
  {
    ReciprocalAntitone(k + rank as real, k + bound as real);
    ReciprocalAntitone(k, k + rank as real);
  }

  lemma ScoreBounds(ranks: seq<Rank>, k: real, bound: nat)
    requires k > 0.0 && Within(ranks, bound)
    ensures Times(|ranks|, Term(k)(bound)) <= Score(ranks, k) <= Times(|ranks|, Term(k)(0))
  {
    var term := Term(k);
    forall r | r in ranks ensures term(bound) <= term(r.rank) <= term(0) {
      TermBetween(k, r.rank, bound);
    }
    SumBetween(ranks, term, term(bound), term(0));
  }

  function Repeat(n: nat, rank: nat): seq<Rank> {
    seq(n, i => Rank("", rank))
  }

  lemma {:induction false} RepeatSum(n: nat, rank: nat, term: nat -> real)
    ensures Sum(Repeat(n, rank), term) == Times(n, term(rank))
  {
    if n != 0 {
      RepeatSum(n - 1, rank, term);
      assert Repeat(n, rank)[..n - 1] == Repeat(n - 1, rank);
    }
  }

  lemma TermInverse(k: real, rank: nat)
    requires k > 0.0
    ensures Term(k)(rank) * (k + rank as real) == 1.0
  {
  }

  // m/(k+R) > (m-1)/k exactly when k > (m-1)R.
  lemma CrossMultiply(k: real, m: nat, bound: nat, x: real, y: real)
    requires k > 0.0 && m >= 1 && x * (k + bound as real) == 1.0 && y * k == 1.0
    ensures Times(m, x) > Times(m - 1, y) <==> k > (m - 1) as real * bound as real
  {
    TimesIs(m, x);
    TimesIs(m - 1, y);
    Fractions(m as real, x, y, k, bound as real);
    assert (m - 1) as real == m as real - 1.0;
  }

  lemma Fractions(n: real, x: real, y: real, k: real, bound: real)
    requires k > 0.0 && bound >= 0.0 && x * (k + bound) == 1.0 && y * k == 1.0
    ensures n * x > (n - 1.0) * y <==> k > (n - 1.0) * bound
  {
    var c := (k + bound) * k;
    assert c > 0.0;
    assert (n * x) * c == n * (x * (k + bound)) * k;
    assert ((n - 1.0) * y) * c == (n - 1.0) * (y * k) * (k + bound);
    Scale(n * x, (n - 1.0) * y, c);
    assert n * k - (n - 1.0) * (k + bound) == k - (n - 1.0) * bound;
  }

  lemma Compare(k: real, m: nat, bound: nat)
    requires k > 0.0 && m >= 1
    ensures Times(m, Term(k)(bound)) > Times(m - 1, Term(k)(0)) <==> k > (m - 1) as real * bound as real
  {
    TermInverse(k, bound);
    TermInverse(k, 0);
    CrossMultiply(k, m, bound, Term(k)(bound), Term(k)(0));
  }

  lemma Scale(a: real, b: real, c: real)
    requires c > 0.0
    ensures a > b <==> a * c > b * c
  {
    if a > b {
      assert (a - b) * c > 0.0;
    } else {
      assert (b - a) * c >= 0.0;
    }
  }

  ghost predicate Dominates(k: real, m: nat, bound: nat)
    requires k > 0.0
  {
    forall a, b: seq<Rank> {:trigger Score(a, k), Score(b, k)}
      | |a| == m && |b| < m && Within(a, bound) && Within(b, bound) ::
      Score(a, k) > Score(b, k)
  }

  // A record with `m` rank entries beats every record with fewer, whatever the ranks up to the bound, exactly
  // when k > (m - 1) * bound: with k = 60 and ranks up to 24 that is for m up to 3.
  lemma DominanceExactly(k: real, m: nat, bound: nat)
    requires k > 0.0 && m >= 1
    ensures Dominates(k, m, bound) <==> k > (m - 1) as real * bound as real
  {
    Compare(k, m, bound);
    if k > (m - 1) as real * bound as real {
      forall a, b: seq<Rank> {:trigger Score(a, k), Score(b, k)}
        | |a| == m && |b| < m && Within(a, bound) && Within(b, bound)
        ensures Score(a, k) > Score(b, k)
      {
        MoreEntriesWin(a, b, k, bound);
      }
    } else {
      FewerEntriesTie(k, m, bound);
    }
  }

  lemma MoreEntriesWin(a: seq<Rank>, b: seq<Rank>, k: real, bound: nat)
    requires k > 0.0 && |b| < |a| && Within(a, bound) && Within(b, bound)
    requires Times(|a|, Term(k)(bound)) > Times(|a| - 1, Term(k)(0))
    ensures Score(a, k) > Score(b, k)
  {
    ScoreBounds(a, k, bound);
    ScoreBounds(b, k, bound);
    TermBetween(k, 0, bound);
    TimesMonotone(|b|, |a| - 1, Term(k)(0));
  }

  lemma FewerEntriesTie(k: real, m: nat, bound: nat)
    requires k > 0.0 && m >= 1 && k <= (m - 1) as real * bound as real
    ensures !Dominates(k, m, bound)
  {
    var (a, b) := (Repeat(m, bound), Repeat(m - 1, 0));
    Compare(k, m, bound);
    RepeatSum(m, bound, Term(k));
    RepeatSum(m - 1, 0, Term(k));
    assert Within(a, bound) && Within(b, bound) && !(Score(a, k) > Score(b, k));
  }

  lemma HigherScoreFirst(collate: Collation, docs: seq<FusedDocument>, k: real, i: nat, j: nat)
    requires k > 0.0 && i < |Fuse(collate, docs, k)| && j < |Fuse(collate, docs, k)|
    requires Fuse(collate, docs, k)[i].score > Fuse(collate, docs, k)[j].score
    ensures i < j
  {
    var ordered := Ordered(collate, docs, k);
    FusionOrdered(collate, docs, k);
    ScoreDecides(collate, ordered[i], ordered[j]);
  }

  lemma ScoreDecides(collate: Collation, a: Ranked, b: Ranked)
    requires a.rrfScore > b.rrfScore
    ensures !Comparator(collate)(b, a)
  {
  }

  // In the fused list such a record comes first.
  lemma DominantFirst(collate: Collation, docs: seq<FusedDocument>, k: real, bound: nat, i: nat, j: nat)
    requires k > 0.0 && i < |Fuse(collate, docs, k)| && j < |Fuse(collate, docs, k)|
    requires forall d | d in docs :: Within(d.ranks, bound)
    requires var out := Fuse(collate, docs, k);
      |out[j].fused.ranks| < |out[i].fused.ranks| && Dominates(k, |out[i].fused.ranks|, bound)
    ensures i < j
  {
    var out := Fuse(collate, docs, k);
    FusionOrdered(collate, docs, k);
    assert out[i].fused in docs && out[j].fused in docs;
    assert Score(out[i].fused.ranks, k) > Score(out[j].fused.ranks, k);
    HigherScoreFirst(collate, docs, k, i, j);
  }
}
