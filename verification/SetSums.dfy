/** Sums over the keys of a dictionary, which do not depend on its order. */
module SetSums {
  import opened Arithmetic

  ghost function Pick<T(!new)>(s: set<T>): (x: T)
    requires s != {}
    ensures x in s
  {
    var x :| x in s;
    x
  }

  ghost function SetSum<T(!new)>(s: set<T>, f: T -> int): int
    decreases |s|
  {
    if s == {} then 0 else f(Pick(s)) + SetSum(s - {Pick(s)}, f)
  }

  /** Any element can be taken off first. */
  lemma {:induction false} TakeOff<T(!new)>(s: set<T>, y: T, f: T -> int)
    requires y in s
    ensures SetSum(s, f) == f(y) + SetSum(s - {y}, f)
    decreases |s|
  {
    var x := Pick(s);
    if x != y {
      TakeOff(s - {x}, y, f);
      TakeOff(s - {y}, x, f);
      assert s - {x} - {y} == s - {y} - {x};
    }
  }

  lemma {:induction false} PutOn<T(!new)>(s: set<T>, y: T, f: T -> int)
    requires y !in s
    ensures SetSum(s + {y}, f) == SetSum(s, f) + f(y)
  {
    TakeOff(s + {y}, y, f);
    assert s + {y} - {y} == s;
  }

  lemma {:induction false} SetSumAdds<T(!new)>(s: set<T>, f: T -> int, g: T -> int, h: T -> int)
    requires forall x :: x in s ==> h(x) == f(x) + g(x)
    ensures SetSum(s, h) == SetSum(s, f) + SetSum(s, g)
    decreases |s|
  {
    if s != {} {
      var x := Pick(s);
      SetSumAdds(s - {x}, f, g, h);
    }
  }

  lemma {:induction false} SetSumAgrees<T(!new)>(s: set<T>, f: T -> int, g: T -> int)
    requires forall x :: x in s ==> f(x) == g(x)
    ensures SetSum(s, f) == SetSum(s, g)
    decreases |s|
  {
    if s != {} { SetSumAgrees(s - {Pick(s)}, f, g); }
  }

  lemma {:induction false} SetSumMonotone<T(!new)>(s: set<T>, f: T -> int, g: T -> int)
    requires forall x :: x in s ==> f(x) <= g(x)
    ensures SetSum(s, f) <= SetSum(s, g)
    decreases |s|
  {
    if s != {} { SetSumMonotone(s - {Pick(s)}, f, g); }
  }

  /** Elements where the function is zero do not count. */
  lemma {:induction false} SetSumWider<T(!new)>(s: set<T>, t: set<T>, f: T -> int)
    requires s <= t && forall x :: x in t && x !in s ==> f(x) == 0
    ensures SetSum(t, f) == SetSum(s, f)
    decreases |t|
  {
    if s == t {
    } else {
      var x :| x in t && x !in s;
      TakeOff(t, x, f);
      SetSumWider(s, t - {x}, f);
    }
  }

  lemma {:induction false} SetSumOfPoint<T(!new)>(s: set<T>, y: T, f: T -> int)
    requires y in s && forall x :: x in s && x != y ==> f(x) == 0
    ensures SetSum(s, f) == f(y)
  {
    TakeOff(s, y, f);
    SetSumWider({}, s - {y}, f);
  }

  lemma {:induction false} SetSumScales<T(!new)>(s: set<T>, c: int, f: T -> int, g: T -> int)
    requires forall x :: x in s ==> g(x) == c * f(x)
    ensures SetSum(s, g) == c * SetSum(s, f)
    decreases |s|
  {
    if s != {} {
      var x := Pick(s);
      SetSumScales(s - {x}, c, f, g);
      Distribute(c, f(x), SetSum(s - {x}, f));
    }
  }

  lemma {:induction false} SetSumOfConstant<T(!new)>(s: set<T>, c: int, f: T -> int)
    requires forall x :: x in s ==> f(x) == c
    ensures SetSum(s, f) == |s| * c
    decreases |s|
  {
    if s != {} {
      var x := Pick(s);
      SetSumOfConstant(s - {x}, c, f);
      Distribute(c, 1, |s| - 1);
    }
  }
}
