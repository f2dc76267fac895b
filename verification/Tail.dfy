/** Tail risk: the mean of the worst five per cent of the weighted risks. Weights are reals; the rounding of doubles
    is not part of this model. */
module Tail {
  import Lists
  import opened Sorting

  predicate WorseFirst(a: real, b: real) { a >= b }

  lemma WorseConsistent()
    ensures TotalPreorder(WorseFirst)
  {
    forall a, b, c | WorseFirst(a, b) && WorseFirst(b, c) ensures WorseFirst(a, c) {}
  }

  function Sum(s: seq<real>): real {
    if s == [] then 0.0 else Sum(s[..|s| - 1]) + s[|s| - 1]
  }

  // Five per cent of the risks, rounded up, at least one and no more than there are.
  function TailCount(n: nat): (t: nat)
    ensures n > 0 ==> 1 <= t <= n && 20 * (t - 1) < n <= 20 * t
  {
    var share := (n + 19) / 20;
    var count := if share >= 1 then share else 1;
    if count <= n then count else n
  }

  function Clamp(x: real): (r: real)
    ensures 0.0 <= r <= 1.0 && (0.0 <= x <= 1.0 ==> r == x) && (x < 0.0 ==> r == 0.0) && (x > 1.0 ==> r == 1.0)
  {
    if x < 0.0 then 0.0 else if x > 1.0 then 1.0 else x
  }

  function Mean(sum: real, n: nat): real
    requires n > 0
  {
    Clamp(sum / n as real)
  }

  ghost function TailSum(weights: seq<real>): real {
    WorseConsistent();
    SortStable(WorseFirst, weights);
    Sum(Sort(WorseFirst, weights)[..TailCount(|weights|)])
  }

  function Excess(v: real): real -> real {
    x => if x > v then x - v else 0.0
  }

  function SumOf(s: seq<real>, f: real -> real): real {
    if s == [] then 0.0 else SumOf(s[..|s| - 1], f) + f(s[|s| - 1])
  }

  lemma {:induction false} SumOfAppend(a: seq<real>, b: seq<real>, f: real -> real)
    ensures SumOf(a + b, f) == SumOf(a, f) + SumOf(b, f)
  {
    if b == [] {
      assert a + b == a;
    } else {
      SumOfAppend(a, b[..|b| - 1], f);
      assert (a + b)[..|a + b| - 1] == a + b[..|b| - 1];
    }
  }

  lemma SumOfWithout(low: seq<real>, x: real, high: seq<real>, f: real -> real)
    ensures SumOf(low + [x] + high, f) == SumOf(low + high, f) + f(x)
  {
    SumOfAppend(low + [x], high, f);
    SumOfAppend(low, [x], f);
    SumOfAppend(low, high, f);
    assert SumOf([x], f) == SumOf([x][..0], f) + f(x);
  }

  lemma Without(front: seq<real>, x: real, low: seq<real>, high: seq<real>)
    requires multiset(front + [x]) == multiset(low + [x] + high)
    ensures multiset(front) == multiset(low + high)
  {
    assert multiset(front + [x]) == multiset(front) + multiset{x};
    assert multiset(low + [x] + high) == multiset(low + high) + multiset{x};
    assert multiset(front) == multiset(front) + multiset{x} - multiset{x};
    assert multiset(low + high) == multiset(low + high) + multiset{x} - multiset{x};
  }

  lemma {:induction false} SumOfPermutation(a: seq<real>, b: seq<real>, f: real -> real)
    requires multiset(a) == multiset(b)
    ensures SumOf(a, f) == SumOf(b, f)
  {
    if a == [] {
      assert |b| == |multiset(b)| == 0;
    } else {
      var front, x := a[..|a| - 1], a[|a| - 1];
      Lists.FrontAndLast(a);
      assert x in multiset(b);
      var i :| 0 <= i < |b| && b[i] == x;
      var low, high := b[..i], b[i + 1..];
      assert b == low + [x] + high;
      Without(front, x, low, high);
      SumOfPermutation(front, low + high, f);
      SumOfWithout(low, x, high, f);
      assert SumOf(a, f) == SumOf(front, f) + f(x);
    }
  }

  function Times(n: nat, v: real): real {
    if n == 0 then 0.0 else Times(n - 1, v) + v
  }

  // Every element adds at most its excess over `v` to a sum of `v`s.
  lemma {:induction false} SumBelowExcess(s: seq<real>, v: real)
    ensures Sum(s) <= Times(|s|, v) + SumOf(s, Excess(v)) && SumOf(s, Excess(v)) >= 0.0
  {
    if s != [] {
      SumBelowExcess(s[..|s| - 1], v);
    }
  }

  lemma {:induction false} SumAbove(s: seq<real>, v: real)
    requires forall i | 0 <= i < |s| :: s[i] >= v
    ensures Sum(s) == Times(|s|, v) + SumOf(s, Excess(v))
  {
    if s != [] {
      SumAbove(s[..|s| - 1], v);
    }
  }

  lemma {:induction false} NoExcess(s: seq<real>, v: real)
    requires forall i | 0 <= i < |s| :: s[i] <= v
    ensures SumOf(s, Excess(v)) == 0.0
  {
    if s != [] {
      NoExcess(s[..|s| - 1], v);
    }
  }

  // No choice of that many risks weighs more than the tail: `chosen` and `others` are the risks in any order.
  lemma TailIsWorst(weights: seq<real>, chosen: seq<real>, others: seq<real>)
    requires weights != [] && multiset(chosen + others) == multiset(weights) && |chosen| == TailCount(|weights|)
    ensures Sum(chosen) <= TailSum(weights)
  {
    WorseConsistent();
    SortStable(WorseFirst, weights);
    HeadIsWorst(Sort(WorseFirst, weights), chosen, others);
  }

  lemma HeadIsWorst(sorted: seq<real>, chosen: seq<real>, others: seq<real>)
    requires Sorted(WorseFirst, sorted) && multiset(chosen + others) == multiset(sorted) && 1 <= |chosen| <= |sorted|
    ensures Sum(chosen) <= Sum(sorted[..|chosen|])
  {
    var t := |chosen|;
    assert sorted == sorted[..t] + sorted[t..];
    AroundThreshold(sorted, t);
    SplitAt(chosen, others, sorted[..t], sorted[t..], sorted[t - 1]);
  }

  lemma SplitAt(chosen: seq<real>, others: seq<real>, tail: seq<real>, rest: seq<real>, v: real)
    requires multiset(chosen + others) == multiset(tail + rest) && |chosen| == |tail|
    requires (forall i | 0 <= i < |tail| :: tail[i] >= v) && (forall i | 0 <= i < |rest| :: rest[i] <= v)
    ensures Sum(chosen) <= Sum(tail)
  {
    SumOfPermutation(chosen + others, tail + rest, Excess(v));
    SumOfAppend(chosen, others, Excess(v));
    SumOfAppend(tail, rest, Excess(v));
    SumBelowExcess(chosen, v);
    SumBelowExcess(others, v);
    SumAbove(tail, v);
    NoExcess(rest, v);
  }

  lemma AroundThreshold(sorted: seq<real>, t: nat)
    requires Sorted(WorseFirst, sorted) && 1 <= t <= |sorted|
    ensures forall i | 0 <= i < t :: sorted[..t][i] >= sorted[t - 1]
    ensures forall i | 0 <= i < |sorted| - t :: sorted[t..][i] <= sorted[t - 1]
  {
    forall i | 0 <= i < t ensures sorted[..t][i] >= sorted[t - 1] {
      assert i == t - 1 || WorseFirst(sorted[i], sorted[t - 1]);
    }
    forall i | 0 <= i < |sorted| - t ensures sorted[t..][i] <= sorted[t - 1] {
      assert WorseFirst(sorted[t - 1], sorted[t + i]);
    }
  }

  // The order in which the risks were found does not matter.
  lemma TailPermutation(a: seq<real>, b: seq<real>)
    requires multiset(a) == multiset(b)
    ensures TailSum(a) == TailSum(b)
  {
    WorseConsistent();
    assert |a| == |multiset(a)| == |multiset(b)| == |b|;
    SortPermutation(WorseFirst, a, b);
  }

  // `tail` is five per cent of the risks, rounded up, `rest` the others, and no other choice of as many weighs more.
  ghost predicate Worst(weights: seq<real>, tail: seq<real>, rest: seq<real>) {
    && multiset(tail + rest) == multiset(weights) && 20 * (|tail| - 1) < |weights| <= 20 * |tail|
    && forall chosen, others {:trigger multiset(chosen + others)}
         | multiset(chosen + others) == multiset(weights) && |chosen| == |tail| :: Sum(chosen) <= Sum(tail)
  }

  ghost predicate MeanInRange(tail: seq<real>, mean: real) {
    && tail != [] && 0.0 <= mean <= 1.0
    && (0.0 <= Sum(tail) <= |tail| as real ==> mean * |tail| as real == Sum(tail))
    && (Sum(tail) < 0.0 ==> mean == 0.0) && (Sum(tail) > |tail| as real ==> mean == 1.0)
  }

  lemma {:induction false} HeadWorst(weights: seq<real>)
    requires weights != []
    ensures var (sorted, t) := (Sort(WorseFirst, weights), TailCount(|weights|));
      |sorted| == |weights| && Worst(weights, sorted[..t], sorted[t..])
  {
    WorseConsistent();
    SortStable(WorseFirst, weights);
    var (sorted, t) := (Sort(WorseFirst, weights), TailCount(|weights|));
    assert sorted == sorted[..t] + sorted[t..];
    forall chosen, others {:trigger multiset(chosen + others)}
      | multiset(chosen + others) == multiset(weights) && |chosen| == t
      ensures Sum(chosen) <= Sum(sorted[..t])
    {
      HeadIsWorst(sorted, chosen, others);
    }
  }

  lemma MeanIs(tail: seq<real>)
    requires tail != []
    ensures MeanInRange(tail, Mean(Sum(tail), |tail|))
  {
    MeanBounds(Sum(tail), |tail| as real);
  }

  lemma MeanBounds(sum: real, n: real)
    requires n > 0.0
    ensures (sum / n) * n == sum
    ensures sum < 0.0 <==> sum / n < 0.0
    ensures sum > n <==> sum / n > 1.0
  {
    var q := sum / n;
    assert q * n == sum;
    if q < 0.0 {
      assert q * n < 0.0;
    } else {
      assert q * n >= 0.0;
    }
    if q > 1.0 {
      assert (q - 1.0) * n > 0.0;
    } else {
      assert (1.0 - q) * n >= 0.0;
    }
  }

  ghost predicate MeanOfWorst(weights: seq<real>, mean: real) {
    exists tail, rest :: Worst(weights, tail, rest) && MeanInRange(tail, mean)
  }

  lemma MeanOfTail(weights: seq<real>)
    requires weights != []
    ensures MeanOfWorst(weights, Mean(TailSum(weights), TailCount(|weights|)))
  {
    WorseConsistent();
    SortStable(WorseFirst, weights);
    var (sorted, t) := (Sort(WorseFirst, weights), TailCount(|weights|));
    HeadWorst(weights);
    MeanIs(sorted[..t]);
    assert Worst(weights, sorted[..t], sorted[t..]);
  }

  method SumUp(tail: seq<real>) returns (sum: real)
    ensures sum == Sum(tail)
  {
    sum := 0.0;
    var n := 0;
    while n < |tail|
      invariant 0 <= n <= |tail| && sum == Sum(tail[..n])
    {
      sum := sum + tail[n];
      n := n + 1;
      assert tail[..n][..n - 1] == tail[..n - 1];
    }
    assert tail[..n] == tail;
  }

  method ComputeCvar5(weights: seq<real>) returns (cvar: real)
    ensures weights == [] ==> cvar == 0.0
    // The mean of the worst five per cent of the risks, rounded up, brought into [0, 1].
    ensures weights != [] ==> MeanOfWorst(weights, cvar)
    ensures weights != [] ==> cvar == Mean(TailSum(weights), TailCount(|weights|))
  {
    if weights == [] {
      return 0.0;
    }
    WorseConsistent();
    SortStable(WorseFirst, weights);
    var sorted := Sort(WorseFirst, weights);
    var tail := sorted[..TailCount(|sorted|)];
    var sum := SumUp(tail);
    cvar := Mean(sum, |tail|);
    MeanOfTail(weights);
  }
}
