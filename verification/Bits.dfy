/** Bits of a number: powers of two, and packing a run of bits from either end. */
module Bits {
  import Arith

  function Pow2(k: nat): (p: nat)
    ensures p >= 1
  {
    if k == 0 then 1 else 2 * Pow2(k - 1)
  }

  /** Bit `k` of `n`: `(n >> k) & 1`. */
  predicate Bit(n: nat, k: nat) {
    if k == 0 then n % 2 == 1 else Bit(n / 2, k - 1)
  }

  function B(b: bool): nat {
    if b then 1 else 0
  }

  /** The number whose lowest bit is `bits[0]`. */
  function FromLsb(bits: seq<bool>): (n: nat)
  {
    if bits == [] then 0 else B(bits[0]) + 2 * FromLsb(bits[1..])
  }

  /** The number whose lowest bit is the last of `bits`: most significant bit first. */
  function FromMsb(bits: seq<bool>): (n: nat)
  {
    if bits == [] then 0 else 2 * FromMsb(bits[..|bits| - 1]) + B(bits[|bits| - 1])
  }

  /** The lowest `count` bits of `n`, most significant first. */
  function ToMsb(n: nat, count: nat): (bits: seq<bool>)
    ensures |bits| == count
  {
    seq(count, k requires 0 <= k < count => Bit(n, count - 1 - k))
  }

  lemma {:induction false} FromLsbBound(bits: seq<bool>)
    ensures FromLsb(bits) < Pow2(|bits|)
  {
    if bits != [] { FromLsbBound(bits[1..]); }
  }

  lemma {:induction false} FromMsbBound(bits: seq<bool>)
    ensures FromMsb(bits) < Pow2(|bits|)
  {
    if bits != [] { FromMsbBound(bits[..|bits| - 1]); }
  }

  /** Setting bit `|bits|` of a number that has none from there on. */
  lemma {:induction false} FromLsbSnoc(bits: seq<bool>, b: bool)
    ensures FromLsb(bits + [b]) == FromLsb(bits) + B(b) * Pow2(|bits|)
  {
    if bits == [] {
      assert bits + [b] == [b];
    } else {
      assert (bits + [b])[1..] == bits[1..] + [b];
      FromLsbSnoc(bits[1..], b);
    }
  }

  /** Each bit packed least significant first can be read back. */
  lemma {:induction false} BitOfLsb(bits: seq<bool>, k: nat)
    requires k < |bits|
    ensures Bit(FromLsb(bits), k) == bits[k]
  {
    var n := FromLsb(bits);
    assert n % 2 == B(bits[0]) && n / 2 == FromLsb(bits[1..]);
    if k > 0 { BitOfLsb(bits[1..], k - 1); }
  }

  /** Reading a packed number's bits back, most significant first. */
  lemma {:induction false} ToMsbFromMsb(bits: seq<bool>)
    ensures ToMsb(FromMsb(bits), |bits|) == bits
  {
    if bits != [] {
      var init := bits[..|bits| - 1];
      var n := FromMsb(bits);
      assert n % 2 == B(bits[|bits| - 1]) && n / 2 == FromMsb(init);
      ToMsbFromMsb(init);
      forall k | 0 <= k < |bits| ensures ToMsb(n, |bits|)[k] == bits[k] {
        assert ToMsb(n, |bits|)[k] == Bit(n, |bits| - 1 - k);
        if k < |bits| - 1 {
          assert Bit(n, |bits| - 1 - k) == Bit(n / 2, |init| - 1 - k);
          assert ToMsb(FromMsb(init), |init|)[k] == init[k] == bits[k];
        }
      }
    }
  }

  /** A number below 2^count is its own lowest `count` bits. */
  lemma {:induction false} FromMsbToMsb(n: nat, count: nat)
    requires n < Pow2(count)
    ensures FromMsb(ToMsb(n, count)) == n
  {
    if count > 0 {
      var bits := ToMsb(n, count);
      FromMsbToMsb(n / 2, count - 1);
      forall k | 0 <= k < count - 1 ensures bits[k] == ToMsb(n / 2, count - 1)[k] {
        assert Bit(n, count - 1 - k) == Bit(n / 2, count - 1 - 1 - k);
      }
      assert bits[..count - 1] == ToMsb(n / 2, count - 1);
      assert bits[count - 1] == Bit(n, 0);
    }
  }

  /** `n >> k`. */
  function ShiftRight(n: nat, k: nat): nat {
    if k == 0 then n else ShiftRight(n / 2, k - 1)
  }

  /** Shifting the low `k` of `a + k` bits out leaves `a` bits. */
  lemma {:induction false} ShiftRightBound(n: nat, a: nat, k: nat)
    requires n < Pow2(a + k)
    ensures ShiftRight(n, k) < Pow2(a)
  {
    if k > 0 { ShiftRightBound(n / 2, a, k - 1); }
  }

  /** What is left are the bits from `k` on. */
  lemma {:induction false} ShiftRightBits(n: nat, k: nat, j: nat)
    ensures Bit(ShiftRight(n, k), j) == Bit(n, k + j)
  {
    if k > 0 { ShiftRightBits(n / 2, k - 1, j); }
  }

  /** As a number, what is left is the quotient by 2^k. */
  lemma {:induction false} ShiftRightQuotient(n: nat, k: nat)
    ensures ShiftRight(n, k) == n / Pow2(k)
  {
    if k > 0 {
      ShiftRightQuotient(n / 2, k - 1);
      HalvesFirst(n, Pow2(k - 1));
    }
  }

  lemma HalvesFirst(n: nat, d: nat)
    requires d > 0
    ensures n / 2 / d == n / (2 * d)
  {
    var q, r := n / 2 / d, n / 2 % d;
    assert n / 2 == d * q + r;
    assert n == (2 * d) * q + (2 * r + n % 2);
    Arith.DivModOf(2 * d, q, 2 * r + n % 2);
  }
}
