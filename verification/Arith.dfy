/** Division by a variable, and powers of two. */
module Arith {

  /** Quotient and remainder are determined by the division equation. */
  lemma {:induction false} DivModUnique(x: nat, p: nat, q: nat, r: nat)
    requires x == p * q + r && r < p
    ensures x / p == q && x % p == r
  {
    var d := x / p - q;
    assert x == p * (x / p) + x % p;
    assert p * d == r - x % p;
    assert d >= 1 ==> p * d >= p;
    assert d <= -1 ==> p * d <= 0 - p;
  }

  lemma {:induction false} MulLe(a: nat, b: nat, p: nat)
    requires a <= b
    ensures a * p <= b * p
  {
  }

  function Pow2(n: nat): (r: nat)
    ensures r > 0
  {
    if n == 0 then 1 else 2 * Pow2(n - 1)
  }

  lemma {:induction false} PowAdd(a: nat, b: nat)
    ensures Pow2(a + b) == Pow2(a) * Pow2(b)
  {
    if a > 0 {
      PowAdd(a - 1, b);
      assert Pow2(a + b) == 2 * Pow2(a - 1 + b);
      assert 2 * (Pow2(a - 1) * Pow2(b)) == Pow2(a) * Pow2(b);
    }
  }

  /** Part of a number below a power of two. */
  lemma {:induction false} PartLe(x: nat, p: nat, m: nat)
    requires p > 0 && m > 0
    ensures x / p % m * p <= x
  {
    var q := x / p;
    assert q % m <= q;
    MulLe(q % m, q, p);
    assert x == p * q + x % p;
  }
}
