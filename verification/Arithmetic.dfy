/** Facts about Euclidean division by a variable divisor. */
module Arithmetic {
  lemma MulAtLeast(d: nat, x: int)
    requires x >= 1
    ensures d * x >= d
  {
  }

  lemma MulDistributes(d: int, x: int, y: int)
    ensures d * (x - y) == d * x - d * y
  {
  }

  /** Quotient and remainder are unique. */
  lemma DivUnique(a: nat, d: nat, q: nat, r: nat)
    requires 0 <= r < d && a == d * q + r
    ensures a / d == q
  {
    var p, s := a / d, a % d;
    assert a == d * p + s && 0 <= s < d;
    MulDistributes(d, p, q);
    MulDistributes(d, q, p);
    if p > q {
      MulAtLeast(d, p - q);
    } else if q > p {
      MulAtLeast(d, q - p);
    }
  }

  lemma DivAfterSubtract(a: nat, d: nat)
    requires d > 0 && a >= d
    ensures (a - d) / d == a / d - 1
  {
    var q, r := a / d, a % d;
    assert a == d * q + r;
    assert q == 0 ==> d * q == 0;
    MulDistributes(d, q, 1);
    DivUnique(a - d, d, q - 1, r);
  }

  lemma {:induction false} DivMono(a: nat, b: nat, d: nat)
    requires a <= b && d > 0
    ensures a / d <= b / d
  {
    if a >= d {
      DivAfterSubtract(a, d);
      DivAfterSubtract(b, d);
      DivMono(a - d, b - d, d);
    } else {
      DivUnique(a, d, 0, a);
      assert b / d >= 0;
    }
  }
}
