/** Facts about products, quotients and rounding that several components need. */
module Arithmetic {

  const TOTAL_BASIS_POINTS := 10000

  /** `math.ceil`. */
  function Ceil(x: real): int {
    -((-x).Floor)
  }

  lemma {:induction false} CeilIsLeast(x: real, n: int)
    ensures n >= Ceil(x) <==> n as real >= x
    ensures x <= Ceil(x) as real < x + 1.0
  {
  }

  lemma {:induction false} Distribute(c: int, x: int, y: int)
    ensures c * (x + y) == c * x + c * y
  {
  }

  lemma {:induction false} Grows(a: int, b: int, d: nat)
    requires a <= b
    ensures a * d <= b * d
  {
    assert (b - a) * d >= 0;
    assert b * d == a * d + (b - a) * d;
  }

  lemma {:induction false} AtLeast(n: int, d: nat)
    requires n >= 1
    ensures n * d >= d
  {
    Grows(1, n, d);
  }

  lemma {:induction false} QuotientBounds(a: int, d: nat)
    requires d > 0
    ensures (a / d) * d <= a < (a / d) * d + d
  {
  }

  /** Floor division: the only quotient with a remainder in range. */
  lemma {:induction false} QuotientIs(a: int, d: nat, q: int)
    requires d > 0 && q * d <= a < q * d + d
    ensures a / d == q
  {
    var p := a / d;
    QuotientBounds(a, d);
    assert (p - q) * d < d && (q - p) * d < d;
    if p > q { AtLeast(p - q, d); } else if q > p { AtLeast(q - p, d); }
  }

  lemma {:induction false} MultipleHasNoRemainder(n: int, d: nat)
    requires d > 0
    ensures n * d % d == 0
  {
    QuotientIs(n * d, d, n);
  }
}
