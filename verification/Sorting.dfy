/** Python's `sorted`: a stable sort, specified by an insertion sort. */
module Sorting {

  ghost predicate TotalPreorder<T(!new)>(leq: (T, T) -> bool) {
    && (forall a, b :: leq(a, b) || leq(b, a))
    && (forall a, b, c :: leq(a, b) && leq(b, c) ==> leq(a, c))
  }

  ghost predicate SortedBy<T>(xs: seq<T>, leq: (T, T) -> bool) {
    forall i, j :: 0 <= i < j < |xs| ==> leq(xs[i], xs[j])
  }

  function Insert<T>(x: T, xs: seq<T>, leq: (T, T) -> bool): (r: seq<T>)
    ensures multiset(r) == multiset{x} + multiset(xs)
  {
    if xs == [] || leq(x, xs[0]) then [x] + xs
    else
      assert xs == [xs[0]] + xs[1..];
      [xs[0]] + Insert(x, xs[1..], leq)
  }

  function Sort<T>(xs: seq<T>, leq: (T, T) -> bool): (r: seq<T>)
    ensures multiset(r) == multiset(xs)
  {
    if xs == [] then []
    else
      assert xs == [xs[0]] + xs[1..];
      Insert(xs[0], Sort(xs[1..], leq), leq)
  }

  lemma {:induction false} InsertSorts<T(!new)>(x: T, xs: seq<T>, leq: (T, T) -> bool)
    requires TotalPreorder(leq) && SortedBy(xs, leq)
    ensures SortedBy(Insert(x, xs, leq), leq)
  {
    if xs != [] && !leq(x, xs[0]) {
      InsertSorts(x, xs[1..], leq);
      var rest := Insert(x, xs[1..], leq);
      forall y | y in rest ensures leq(xs[0], y) {
        assert y in multiset(rest);
        assert y == x || y in xs[1..];
      }
    }
  }

  lemma {:induction false} SortSorts<T(!new)>(xs: seq<T>, leq: (T, T) -> bool)
    requires TotalPreorder(leq)
    ensures SortedBy(Sort(xs, leq), leq)
    ensures |Sort(xs, leq)| == |xs|
    ensures forall x :: x in Sort(xs, leq) <==> x in xs
  {
    if xs != [] {
      SortSorts(xs[1..], leq);
      InsertSorts(xs[0], Sort(xs[1..], leq), leq);
    }
    assert |multiset(Sort(xs, leq))| == |multiset(xs)|;
    forall x ensures x in Sort(xs, leq) <==> x in xs {
      assert x in multiset(Sort(xs, leq)) <==> x in multiset(xs);
    }
  }

  ghost predicate NoTies<T>(xs: seq<T>, leq: (T, T) -> bool) {
    forall i, j :: 0 <= i < |xs| && 0 <= j < |xs| && leq(xs[i], xs[j]) && leq(xs[j], xs[i]) ==> xs[i] == xs[j]
  }

  lemma {:induction false} SameHead<T(!new)>(xs: seq<T>, ys: seq<T>, leq: (T, T) -> bool)
    requires multiset(xs) == multiset(ys) && xs != [] && ys != []
    requires SortedBy(xs, leq) && SortedBy(ys, leq) && NoTies(xs, leq)
    ensures xs[0] == ys[0]
  {
    assert xs[0] in multiset(ys) && ys[0] in multiset(xs);
    var i :| 0 <= i < |xs| && xs[i] == ys[0];
    var j :| 0 <= j < |ys| && ys[j] == xs[0];
    if i != 0 && j != 0 {
      assert leq(xs[0], xs[i]) && leq(ys[0], ys[j]);
    }
  }

  lemma {:induction false} SameTail<T>(xs: seq<T>, ys: seq<T>)
    requires xs != [] && ys != [] && xs[0] == ys[0]
    requires multiset(xs) == multiset(ys)
    ensures multiset(xs[1..]) == multiset(ys[1..])
  {
    assert xs == [xs[0]] + xs[1..] && ys == [ys[0]] + ys[1..];
    assert multiset(xs[1..]) == multiset(xs) - multiset{xs[0]};
    assert multiset(ys[1..]) == multiset(ys) - multiset{ys[0]};
  }

  lemma {:induction false} SameLength<T>(xs: seq<T>, ys: seq<T>)
    requires multiset(xs) == multiset(ys)
    ensures |xs| == |ys|
  {
    assert |multiset(xs)| == |xs| && |multiset(ys)| == |ys|;
  }

  /** Two sorted arrangements of the same elements are equal when no two elements tie. */
  lemma {:induction false} SortedArrangementIsUnique<T(!new)>(xs: seq<T>, ys: seq<T>, leq: (T, T) -> bool)
    requires multiset(xs) == multiset(ys)
    requires SortedBy(xs, leq) && SortedBy(ys, leq) && NoTies(xs, leq)
    ensures xs == ys
  {
    SameLength(xs, ys);
    if xs != [] {
      SameHead(xs, ys, leq);
      SameTail(xs, ys);
      SortedArrangementIsUnique(xs[1..], ys[1..], leq);
      assert xs == [xs[0]] + xs[1..] && ys == [ys[0]] + ys[1..];
    }
  }

  ghost predicate DistinctBy<T, K>(xs: seq<T>, key: T -> K) {
    forall i, j :: 0 <= i < j < |xs| ==> key(xs[i]) != key(xs[j])
  }

  lemma {:induction false} InsertMembers<T>(x: T, xs: seq<T>, leq: (T, T) -> bool, y: T)
    ensures y in Insert(x, xs, leq) <==> y == x || y in xs
  {
    assert y in multiset(Insert(x, xs, leq)) <==> y in multiset{x} + multiset(xs);
  }

  lemma {:induction false} InsertKeepsDistinct<T, K>(x: T, xs: seq<T>, leq: (T, T) -> bool, key: T -> K)
    requires DistinctBy(xs, key) && forall k :: 0 <= k < |xs| ==> key(xs[k]) != key(x)
    ensures DistinctBy(Insert(x, xs, leq), key)
  {
    if xs != [] && !leq(x, xs[0]) {
      InsertKeepsDistinct(x, xs[1..], leq, key);
      var rest := Insert(x, xs[1..], leq);
      forall j | 0 <= j < |rest| ensures key(xs[0]) != key(rest[j]) {
        InsertMembers(x, xs[1..], leq, rest[j]);
      }
    }
  }

  lemma {:induction false} SortMembers<T>(xs: seq<T>, leq: (T, T) -> bool, y: T)
    ensures y in Sort(xs, leq) <==> y in xs
  {
    assert y in multiset(Sort(xs, leq)) <==> y in multiset(xs);
  }

  lemma {:induction false} SortKeepsDistinct<T, K>(xs: seq<T>, leq: (T, T) -> bool, key: T -> K)
    requires DistinctBy(xs, key)
    ensures DistinctBy(Sort(xs, leq), key)
  {
    if xs != [] {
      var rest := Sort(xs[1..], leq);
      SortKeepsDistinct(xs[1..], leq, key);
      forall k | 0 <= k < |rest| ensures key(rest[k]) != key(xs[0]) {
        SortMembers(xs[1..], leq, rest[k]);
      }
      InsertKeepsDistinct(xs[0], rest, leq, key);
    }
  }
}
