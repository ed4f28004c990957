/** Sums over a list, the way a Python loop accumulates them: front to back. */
module Sums {

  /** The sum over the first `n` elements. */
  function SumTo<T>(xs: seq<T>, n: nat, f: T -> real): real
    requires n <= |xs|
  {
    if n == 0 then 0.0 else SumTo(xs, n - 1, f) + f(xs[n - 1])
  }

  function Sum<T>(xs: seq<T>, f: T -> real): real {
    SumTo(xs, |xs|, f)
  }

  /** No element occurs twice. */
  ghost predicate Distinct<T(!new)>(xs: seq<T>) {
    xs == [] || (xs[|xs| - 1] !in xs[..|xs| - 1] && Distinct(xs[..|xs| - 1]))
  }

  lemma {:induction false} DistinctPrefix<T(!new)>(xs: seq<T>, n: nat)
    requires Distinct(xs) && n <= |xs|
    ensures Distinct(xs[..n])
    ensures n < |xs| ==> xs[n] !in xs[..n]
    decreases |xs|
  {
    if n == |xs| {
      assert xs[..n] == xs;
    } else if n == |xs| - 1 {
    } else {
      DistinctPrefix(xs[..|xs| - 1], n);
      assert xs[..|xs| - 1][..n] == xs[..n];
    }
  }

  lemma {:induction false} DistinctByIndex<T(!new)>(xs: seq<T>)
    ensures Distinct(xs) <==> forall i, j :: 0 <= i < j < |xs| ==> xs[i] != xs[j]
  {
    if xs != [] {
      var front := xs[..|xs| - 1];
      DistinctByIndex(front);
      if Distinct(xs) {
        forall i, j | 0 <= i < j < |xs| ensures xs[i] != xs[j] {
          if j < |front| { assert front[i] != front[j]; } else { assert xs[i] in front; }
        }
      }
    }
  }

  lemma {:induction false} SumToAdds<T>(xs: seq<T>, n: nat, f: T -> real, g: T -> real, h: T -> real)
    requires n <= |xs| && forall x :: x in xs ==> h(x) == f(x) + g(x)
    ensures SumTo(xs, n, h) == SumTo(xs, n, f) + SumTo(xs, n, g)
  {
    if n > 0 { SumToAdds(xs, n - 1, f, g, h); }
  }

  lemma {:induction false} SumAdds<T>(xs: seq<T>, f: T -> real, g: T -> real, h: T -> real)
    requires forall x :: x in xs ==> h(x) == f(x) + g(x)
    ensures Sum(xs, h) == Sum(xs, f) + Sum(xs, g)
  {
    SumToAdds(xs, |xs|, f, g, h);
  }

  lemma {:induction false} SumToScales<T>(xs: seq<T>, n: nat, f: T -> real, c: real, g: T -> real)
    requires n <= |xs| && forall x :: x in xs ==> g(x) == c * f(x)
    ensures SumTo(xs, n, g) == c * SumTo(xs, n, f)
  {
    if n > 0 { SumToScales(xs, n - 1, f, c, g); }
  }

  lemma {:induction false} SumScales<T>(xs: seq<T>, f: T -> real, c: real, g: T -> real)
    requires forall x :: x in xs ==> g(x) == c * f(x)
    ensures Sum(xs, g) == c * Sum(xs, f)
  {
    SumToScales(xs, |xs|, f, c, g);
  }

  lemma {:induction false} SumToAgrees<T>(xs: seq<T>, n: nat, f: T -> real, g: T -> real)
    requires n <= |xs| && forall x :: x in xs ==> f(x) == g(x)
    ensures SumTo(xs, n, f) == SumTo(xs, n, g)
  {
    if n > 0 { SumToAgrees(xs, n - 1, f, g); }
  }

  lemma {:induction false} SumAgrees<T>(xs: seq<T>, f: T -> real, g: T -> real)
    requires forall x :: x in xs ==> f(x) == g(x)
    ensures Sum(xs, f) == Sum(xs, g)
  {
    SumToAgrees(xs, |xs|, f, g);
  }

  lemma {:induction false} SumToOfConstant<T>(xs: seq<T>, n: nat, f: T -> real, c: real)
    requires n <= |xs| && forall x :: x in xs ==> f(x) == c
    ensures SumTo(xs, n, f) == n as real * c
  {
    if n > 0 {
      SumToOfConstant(xs, n - 1, f, c);
      assert n as real * c == (n - 1) as real * c + c;
    }
  }

  lemma {:induction false} SumOfConstant<T>(xs: seq<T>, f: T -> real, c: real)
    requires forall x :: x in xs ==> f(x) == c
    ensures Sum(xs, f) == |xs| as real * c
  {
    SumToOfConstant(xs, |xs|, f, c);
  }

  lemma {:induction false} SumToOfPoint<T(!new)>(xs: seq<T>, n: nat, a: T, f: T -> real)
    requires n <= |xs| && Distinct(xs)
    requires forall x :: x in xs && x != a ==> f(x) == 0.0
    ensures SumTo(xs, n, f) == if a in xs[..n] then f(a) else 0.0
  {
    if n > 0 {
      SumToOfPoint(xs, n - 1, a, f);
      DistinctPrefix(xs, n - 1);
      assert xs[..n] == xs[..n - 1] + [xs[n - 1]];
    }
  }

  /** A function that is zero except at one element. */
  lemma {:induction false} SumOfPoint<T(!new)>(xs: seq<T>, a: T, f: T -> real)
    requires Distinct(xs)
    requires forall x :: x in xs && x != a ==> f(x) == 0.0
    ensures Sum(xs, f) == if a in xs then f(a) else 0.0
  {
    SumToOfPoint(xs, |xs|, a, f);
    assert xs[..|xs|] == xs;
  }

  lemma {:induction false} SumToOverMembers<T(!new)>(
      all: seq<T>, members: seq<T>, n: nat, f: T -> real, g: T -> real)
    requires Distinct(all) && Distinct(members) && n <= |members|
    requires forall x :: x in members[..n] ==> x in all && g(x) == f(x)
    requires forall x :: x in all && x !in members[..n] ==> g(x) == 0.0
    ensures Sum(all, g) == SumTo(members, n, f)
  {
    if n == 0 {
      SumOfConstant(all, g, 0.0);
    } else {
      var last := members[n - 1];
      var point := (x: T) => if x == last then g(x) else 0.0;
      var rest := (x: T) => if x == last then 0.0 else g(x);
      DistinctPrefix(members, n - 1);
      assert members[..n] == members[..n - 1] + [last];
      forall x | x in members[..n - 1] ensures x in all && rest(x) == f(x) { assert x in members[..n] && x != last; }
      SumToOverMembers(all, members, n - 1, f, rest);
      SumOfPoint(all, last, point);
      SumAdds(all, point, rest, g);
    }
  }

  /** Summing over the whole table what is zero outside a list is summing over the list. */
  lemma {:induction false} SumOverMembers<T(!new)>(all: seq<T>, members: seq<T>, f: T -> real, g: T -> real)
    requires Distinct(all) && Distinct(members)
    requires forall x :: x in members ==> x in all && g(x) == f(x)
    requires forall x :: x in all && x !in members ==> g(x) == 0.0
    ensures Sum(all, g) == Sum(members, f)
  {
    assert members[..|members|] == members;
    SumToOverMembers(all, members, |members|, f, g);
  }
}
