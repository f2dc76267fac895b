/** The stable sort of the languages' libraries, as far as callers can tell: the result is sorted and elements that
    tie keep their order. There is only one such result. */
module Sorting {
  import Lists

  // `order(a, b)` says that `a` may come before `b`.
  type Order<!T> = (T, T) -> bool

  ghost predicate TotalPreorder<T(!new)>(order: Order<T>) {
    && (forall a, b {:trigger order(a, b)} :: order(a, b) || order(b, a))
    && (forall a, b, c {:trigger order(a, b), order(b, c)} :: order(a, b) && order(b, c) ==> order(a, c))
  }

  predicate Tied<T>(order: Order<T>, a: T, b: T) {
    order(a, b) && order(b, a)
  }

  ghost predicate Sorted<T>(order: Order<T>, s: seq<T>) {
    forall i, j | 0 <= i < j < |s| :: order(s[i], s[j])
  }

  function Inserted<T>(order: Order<T>, t: seq<T>, x: T): seq<T> {
    if t == [] then [x]
    else if order(t[0], x) then [t[0]] + Inserted(order, t[1..], x)
    else [x] + t
  }

  function Sort<T>(order: Order<T>, s: seq<T>): seq<T> {
    if s == [] then [] else Inserted(order, Sort(order, s[..|s| - 1]), s[|s| - 1])
  }

  // The elements that tie with `x`, in order.
  function TiedWith<T>(order: Order<T>, s: seq<T>, x: T): seq<T> {
    if s == [] then []
    else (if Tied(order, s[0], x) then [s[0]] else []) + TiedWith(order, s[1..], x)
  }

  // The same elements, those that tie in the same order.
  ghost predicate Rearranges<T(!new)>(order: Order<T>, s: seq<T>, t: seq<T>) {
    |s| == |t| && forall x :: TiedWith(order, s, x) == TiedWith(order, t, x)
  }

  lemma TiedWithCons<T>(order: Order<T>, a: T, s: seq<T>, x: T)
    ensures TiedWith(order, [a] + s, x) == (if Tied(order, a, x) then [a] else []) + TiedWith(order, s, x)
  {
    assert ([a] + s)[1..] == s;
  }

  lemma {:induction false} TiedWithAppend<T>(order: Order<T>, s: seq<T>, t: seq<T>, x: T)
    ensures TiedWith(order, s + t, x) == TiedWith(order, s, x) + TiedWith(order, t, x)
  {
    if s == [] {
      assert s + t == t;
    } else {
      TiedWithAppend(order, s[1..], t, x);
      Lists.ConsAppend(s, t);
      Lists.Assoc(if Tied(order, s[0], x) then [s[0]] else [], TiedWith(order, s[1..], x), TiedWith(order, t, x));
    }
  }

  lemma {:induction false} TiedWithNone<T>(order: Order<T>, s: seq<T>, x: T)
    requires forall i | 0 <= i < |s| :: !Tied(order, s[i], x)
    ensures TiedWith(order, s, x) == []
  {
    if s != [] {
      TiedWithNone(order, s[1..], x);
    }
  }

  lemma {:induction false} TiedWithMember<T>(order: Order<T>, s: seq<T>, x: T, y: T)
    ensures y in TiedWith(order, s, x) <==> y in s && Tied(order, y, x)
  {
    if s != [] {
      TiedWithMember(order, s[1..], x, y);
    }
  }

  lemma {:induction false} InsertedMembers<T(!new)>(order: Order<T>, t: seq<T>, x: T)
    ensures multiset(Inserted(order, t, x)) == multiset(t) + multiset{x}
    ensures forall y :: y in Inserted(order, t, x) <==> y == x || y in t
  {
    if t != [] {
      InsertedMembers(order, t[1..], x);
      assert t == [t[0]] + t[1..];
    }
  }

  lemma {:induction false} InsertedSorted<T(!new)>(order: Order<T>, t: seq<T>, x: T)
    requires TotalPreorder(order) && Sorted(order, t)
    ensures Sorted(order, Inserted(order, t, x))
  {
    if t != [] {
      if order(t[0], x) {
        var rest := Inserted(order, t[1..], x);
        InsertedSorted(order, t[1..], x);
        InsertedMembers(order, t[1..], x);
        forall i | 0 <= i < |rest| ensures order(t[0], rest[i]) {
          assert rest[i] in rest;
        }
      } else {
        assert order(x, t[0]);
      }
    }
  }

  lemma {:induction false} InsertedTied<T(!new)>(order: Order<T>, t: seq<T>, x: T, y: T)
    requires TotalPreorder(order) && Sorted(order, t)
    ensures TiedWith(order, Inserted(order, t, x), y) == TiedWith(order, t, y) + TiedWith(order, [x], y)
  {
    if t == [] {
      assert TiedWith(order, t, y) == [];
    } else if order(t[0], x) {
      InsertedTied(order, t[1..], x, y);
      TiedWithCons(order, t[0], Inserted(order, t[1..], x), y);
      Lists.Assoc(if Tied(order, t[0], y) then [t[0]] else [], TiedWith(order, t[1..], y), TiedWith(order, [x], y));
    } else {
      InsertedInFront(order, t, x, y);
    }
  }

  lemma InsertedInFront<T(!new)>(order: Order<T>, t: seq<T>, x: T, y: T)
    requires TotalPreorder(order) && Sorted(order, t) && t != [] && !order(t[0], x)
    ensures TiedWith(order, [x] + t, y) == TiedWith(order, t, y) + TiedWith(order, [x], y)
  {
    TiedWithAppend(order, [x], t, y);
    if Tied(order, x, y) {
      forall i | 0 <= i < |t| ensures !order(t[i], x) {
        assert i > 0 ==> order(t[0], t[i]);
      }
      NotTiedBelow(order, t, x, y);
      TiedWithNone(order, t, y);
    } else {
      TiedWithNone(order, [x], y);
    }
  }

  lemma NotTiedBelow<T(!new)>(order: Order<T>, t: seq<T>, x: T, y: T)
    requires TotalPreorder(order) && Tied(order, x, y) && forall i | 0 <= i < |t| :: !order(t[i], x)
    ensures forall i | 0 <= i < |t| :: !Tied(order, t[i], y)
  {
    assert order(y, x);
  }

  lemma {:induction false} SortMembers<T(!new)>(order: Order<T>, s: seq<T>)
    ensures multiset(Sort(order, s)) == multiset(s)
    ensures forall y :: y in Sort(order, s) <==> y in s
  {
    if s != [] {
      var (front, x) := (s[..|s| - 1], s[|s| - 1]);
      SortMembers(order, front);
      InsertedMembers(order, Sort(order, front), x);
      Lists.FrontAndLast(s);
    }
  }

  lemma {:induction false} SortArranged<T(!new)>(order: Order<T>, s: seq<T>)
    requires TotalPreorder(order)
    ensures Sorted(order, Sort(order, s)) && Rearranges(order, s, Sort(order, s))
  {
    if s != [] {
      var (front, x) := (s[..|s| - 1], s[|s| - 1]);
      SortArranged(order, front);
      InsertedSorted(order, Sort(order, front), x);
      RearrangesMore(order, front, Sort(order, front), x);
      Lists.FrontAndLast(s);
    }
  }

  lemma SortStable<T(!new)>(order: Order<T>, s: seq<T>)
    requires TotalPreorder(order)
    ensures Sorted(order, Sort(order, s)) && Rearranges(order, s, Sort(order, s))
    ensures multiset(Sort(order, s)) == multiset(s)
    ensures forall y :: y in Sort(order, s) <==> y in s
  {
    SortArranged(order, s);
    SortMembers(order, s);
  }

  lemma RearrangesMore<T(!new)>(order: Order<T>, s: seq<T>, t: seq<T>, x: T)
    requires TotalPreorder(order) && Sorted(order, t) && Rearranges(order, s, t)
    ensures Rearranges(order, s + [x], Inserted(order, t, x))
  {
    forall y ensures TiedWith(order, s + [x], y) == TiedWith(order, Inserted(order, t, x), y) {
      InsertedTied(order, t, x, y);
      TiedWithAppend(order, s, [x], y);
      assert TiedWith(order, s, y) == TiedWith(order, t, y);
    }
    InsertedLength(order, t, x);
  }

  lemma {:induction false} InsertedLength<T>(order: Order<T>, t: seq<T>, x: T)
    ensures |Inserted(order, t, x)| == |t| + 1
  {
    if t != [] {
      InsertedLength(order, t[1..], x);
    }
  }

  lemma SortedFirst<T(!new)>(order: Order<T>, s: seq<T>, t: seq<T>)
    requires TotalPreorder(order) && Sorted(order, s) && Sorted(order, t) && Rearranges(order, s, t) && s != []
    ensures s[0] == t[0]
  {
    var (a, b) := (s[0], t[0]);
    assert order(a, a) && order(b, b);
    TiedWithMember(order, s, b, b);
    TiedWithMember(order, t, b, b);
    TiedWithMember(order, s, a, a);
    TiedWithMember(order, t, a, a);
    assert TiedWith(order, s, a) == TiedWith(order, t, a) && TiedWith(order, s, b) == TiedWith(order, t, b);
    var i :| 0 <= i < |s| && s[i] == b;
    var j :| 0 <= j < |t| && t[j] == a;
    assert Tied(order, a, b);
    assert TiedWith(order, s, a)[0] == a && TiedWith(order, t, a)[0] == b;
  }

  // Any stable sort gives the same result.
  lemma {:induction false} SortUnique<T(!new)>(order: Order<T>, s: seq<T>, t: seq<T>)
    requires TotalPreorder(order) && Sorted(order, s) && Sorted(order, t) && Rearranges(order, s, t)
    ensures s == t
  {
    if s != [] {
      SortedFirst(order, s, t);
      var head := s[0];
      forall x ensures TiedWith(order, s[1..], x) == TiedWith(order, t[1..], x) {
        var first := if Tied(order, head, x) then [head] else [];
        assert TiedWith(order, s, x) == TiedWith(order, t, x);
        assert first + TiedWith(order, s[1..], x) == first + TiedWith(order, t[1..], x);
        assert (first + TiedWith(order, s[1..], x))[|first|..] == TiedWith(order, s[1..], x);
        assert (first + TiedWith(order, t[1..], x))[|first|..] == TiedWith(order, t[1..], x);
      }
      SortUnique(order, s[1..], t[1..]);
      assert s == [head] + s[1..] && t == [head] + t[1..];
    }
  }

  // No two different elements tie.
  ghost predicate Strict<T>(order: Order<T>, s: seq<T>) {
    forall i, j | 0 <= i < |s| && 0 <= j < |s| :: Tied(order, s[i], s[j]) ==> s[i] == s[j]
  }

  lemma FirstOfPermutations<T(!new)>(order: Order<T>, s: seq<T>, t: seq<T>)
    requires TotalPreorder(order) && Sorted(order, s) && Sorted(order, t) && multiset(s) == multiset(t)
    requires Strict(order, s) && s != []
    ensures |t| == |s| && t[0] == s[0]
  {
    assert |t| == |multiset(t)| == |multiset(s)| == |s|;
    assert s[0] in multiset(t) && t[0] in multiset(s);
    var i :| 0 <= i < |s| && s[i] == t[0];
    var j :| 0 <= j < |t| && t[j] == s[0];
    assert order(s[0], s[0]);
    assert Tied(order, s[0], s[i]);
  }

  // Then the order of the input does not matter.
  lemma {:induction false} SortedPermutations<T(!new)>(order: Order<T>, s: seq<T>, t: seq<T>)
    requires TotalPreorder(order) && Sorted(order, s) && Sorted(order, t) && multiset(s) == multiset(t)
    requires Strict(order, s)
    ensures s == t
  {
    if s == [] {
      assert |t| == |multiset(t)| == 0;
    } else {
      FirstOfPermutations(order, s, t);
      RestMultiset(s);
      RestMultiset(t);
      RestSorted(order, s);
      RestSorted(order, t);
      SortedPermutations(order, s[1..], t[1..]);
      Lists.FirstAndRest(s);
      Lists.FirstAndRest(t);
    }
  }

  lemma RestMultiset<T>(s: seq<T>)
    requires s != []
    ensures multiset(s[1..]) == multiset(s) - multiset{s[0]}
  {
    Lists.FirstAndRest(s);
  }

  lemma RestSorted<T>(order: Order<T>, s: seq<T>)
    requires s != [] && Sorted(order, s)
    ensures Sorted(order, s[1..]) && (Strict(order, s) ==> Strict(order, s[1..]))
  {
    assert forall i | 0 <= i < |s| - 1 :: s[1..][i] == s[i + 1];
  }

  lemma SortPermutation<T(!new)>(order: Order<T>, s: seq<T>, t: seq<T>)
    requires TotalPreorder(order) && multiset(s) == multiset(t) && Strict(order, s)
    ensures Sort(order, s) == Sort(order, t)
  {
    SortStable(order, s);
    SortStable(order, t);
    var sorted := Sort(order, s);
    forall i, j | 0 <= i < |sorted| && 0 <= j < |sorted| && Tied(order, sorted[i], sorted[j])
      ensures sorted[i] == sorted[j]
    {
      assert sorted[i] in s && sorted[j] in s;
      var a :| 0 <= a < |s| && s[a] == sorted[i];
      var b :| 0 <= b < |s| && s[b] == sorted[j];
      assert Tied(order, s[a], s[b]);
    }
    SortedPermutations(order, sorted, Sort(order, t));
  }
}
