/** The few facts about products, quotients and remainders that the proofs share. */
module Arith {
  lemma MulMonotone(k: nat, a: int, b: int)
    ensures a <= b ==> k * a <= k * b
  {
    assert k * (b - a) == k * b - k * a;
  }

  /** A quotient and a remainder determine a number, and it determines them. */
  lemma DivModOf(d: nat, q: int, m: nat)
    requires m < d
    ensures (d * q + m) / d == q && (d * q + m) % d == m
  {
    var n := d * q + m;
    var q' := n / d;
    assert n == d * q' + n % d;
    MulMonotone(d, q' + 1, q);
    MulMonotone(d, q + 1, q');
    assert d * (q + 1) == d * q + d && d * (q' + 1) == d * q' + d;
  }

  lemma DivBelow(k: nat, a: nat, b: nat)
    requires k < a * b
    ensures a > 0 && b > 0 && k / a < b && k % a < a
    ensures k == (k / a) * a + k % a
  {
    if a > 0 {
      MulMonotone(a, b, k / a);
      assert k == a * (k / a) + k % a;
    }
  }

  /** The quotient and remainder of a division. */
  lemma Quotient(n: nat, d: nat) returns (q: nat, r: nat)
    requires d > 0
    ensures n == d * q + r == q * d + r && r < d && n / d == q && n % d == r
  {
    q, r := n / d, n % d;
  }
}
