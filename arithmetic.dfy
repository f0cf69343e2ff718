/** Facts of non-linear integer arithmetic that the solver needs spelled out. */
module Arithmetic {

  /** Multiplying by a natural preserves order. */
  lemma {:induction false} MulMonotone(a: nat, b: nat, p: nat)
    ensures a <= b ==> a * p <= b * p
  {
    if p > 0 {
      MulMonotone(a, b, p - 1);
      assert a * p == a * (p - 1) + a;
      assert b * p == b * (p - 1) + b;
    }
  }

  lemma DivLower(x: nat, p: nat, m: nat)
    requires p > 0 && m * p <= x
    ensures m <= x / p
  {
    DivBounds(x, p);
    var q: nat := x / p;
    assert x == q * p + x % p;
    assert (q + 1) * p == q * p + p;
    MulMonotone(q + 1, m, p);
  }

  lemma DivUpper(x: nat, p: nat, q: nat)
    requires p > 0 && x < p * q
    ensures x / p < q
  {
    DivBounds(x, p);
    var d: nat := x / p;
    assert x == d * p + x % p;
    assert p * q == q * p;
    MulMonotone(q, d, p);
  }

  /** Quotient and remainder are determined by any decomposition x == q * s + r with 0 <= r < s. */
  lemma DivModUnique(x: nat, s: nat, q: nat, r: nat)
    requires s > 0 && r < s && x == q * s + r
    ensures x / s == q && x % s == r
  {
    DivLower(x, s, q);
    assert x < s * (q + 1);
    DivUpper(x, s, q + 1);
  }

  /** Dividing a natural by a positive number gives a natural no larger. */
  lemma DivBounds(x: nat, p: nat)
    requires p > 0
    ensures 0 <= x / p <= x
  {
    var q, r := x / p, x % p;
    assert x == q * p + r && 0 <= r < p && 0 <= q;
    MulMonotone(1, p, q);
  }
}
