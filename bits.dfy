/** Python's `^` on unbounded integers (two's complement with infinitely many
    sign bits), defined byte lane by byte lane, and the facts about it that
    the lookup table relies on. */
module Bits {

  function Pow2(k: nat): (r: nat)
    ensures r >= 1
  {
    if k == 0 then 1 else 2 * Pow2(k - 1)
  }

  /** The low n bits of a ^ b, one bit at a time from the low end. */
  function BitsXor(n: nat, a: nat, b: nat): (r: nat)
    ensures r < Pow2(n)
  {
    if n == 0 then 0
    else 2 * BitsXor(n - 1, a / 2, b / 2) + (if a % 2 == b % 2 then 0 else 1)
  }

  /** The xor of two bytes. */
  function ByteXor(a: nat, b: nat): (r: nat)
    ensures r < 256
  {
    assert Pow2(8) == 256;
    BitsXor(8, a, b)
  }

  /** x ^ y on non-negative integers, one byte lane at a time: xor acts on
      every bit on its own, so it acts on every byte on its own. */
  function NatXor(x: nat, y: nat): nat
    decreases x + y
  {
    if x == 0 && y == 0 then 0
    else ByteXor(x % 256, y % 256) + 256 * NatXor(x / 256, y / 256)
  }

  /** x ^ y on all integers.  A negative operand is the complement ~a == -a - 1
      of a non-negative a, and ~a ^ ~b == a ^ b, ~a ^ b == ~(a ^ b).  The
      result is negative exactly when one operand is. */
  function Xor(x: int, y: int): (r: int)
    ensures r >= 0 <==> (x >= 0 <==> y >= 0)
  {
    var a: nat := if x >= 0 then x else -x - 1;
    var b: nat := if y >= 0 then y else -y - 1;
    if (x >= 0) == (y >= 0) then NatXor(a, b) else -(NatXor(a, b) as int) - 1
  }

  lemma {:induction false} BitsXorSelf(n: nat, a: nat)
    ensures BitsXor(n, a, a) == 0
  {
    if n > 0 {
      BitsXorSelf(n - 1, a / 2);
    }
  }

  /** Below 2^n, the low n bits of a ^ b vanish only when a == b. */
  lemma {:induction false} BitsXorZero(n: nat, a: nat, b: nat)
    requires a < Pow2(n) && b < Pow2(n) && BitsXor(n, a, b) == 0
    ensures a == b
  {
    if n > 0 {
      BitsXorZero(n - 1, a / 2, b / 2);
    }
  }

  /** Two numbers below 2^k have the low bits of their xor below 2^k. */
  lemma {:induction false} BitsXorBound(n: nat, k: nat, a: nat, b: nat)
    requires a < Pow2(k) && b < Pow2(k)
    ensures BitsXor(n, a, b) < Pow2(k)
  {
    if n > 0 {
      if k == 0 {
        BitsXorSelf(n, a);
      } else {
        var p := Pow2(k - 1);
        assert Pow2(k) == 2 * p;
        BitsXorBound(n - 1, k - 1, a / 2, b / 2);
        var h := BitsXor(n - 1, a / 2, b / 2);
        assert h < p;
        assert BitsXor(n, a, b) <= 2 * h + 1;
      }
    }
  }

  lemma {:induction false} XorSelf(x: nat)
    ensures Xor(x, x) == 0
    decreases x
  {
    if x != 0 {
      BitsXorSelf(8, x % 256);
      XorSelf(x / 256);
    }
  }

  /** On non-negative numbers, x ^ y is zero only when x == y. */
  lemma {:induction false} XorZero(x: nat, y: nat)
    requires Xor(x, y) == 0
    ensures x == y
    decreases x + y
  {
    if x != 0 || y != 0 {
      assert Pow2(8) == 256;
      BitsXorZero(8, x % 256, y % 256);
      XorZero(x / 256, y / 256);
    }
  }

  lemma {:induction false} Pow2Monotone(j: nat, k: nat)
    requires j <= k
    ensures Pow2(j) <= Pow2(k)
    decreases k
  {
    if j < k {
      Pow2Monotone(j, k - 1);
    }
  }

  /** On single bytes, the lane-wise xor is the byte xor. */
  lemma {:induction false} NatXorOfBytes(x: nat, y: nat)
    requires x < 256 && y < 256
    ensures NatXor(x, y) == ByteXor(x, y)
  {
    if x == 0 && y == 0 {
      BitsXorSelf(8, 0);
    } else {
      assert x % 256 == x && y % 256 == y && x / 256 == 0 && y / 256 == 0;
    }
  }

  /** Two numbers below 2^k, for k up to a byte, have their xor below 2^k. */
  lemma {:induction false} XorBound(k: nat, x: nat, y: nat)
    requires k <= 8 && x < Pow2(k) && y < Pow2(k)
    ensures Xor(x, y) < Pow2(k)
  {
    Pow2Monotone(k, 8);
    assert Pow2(8) == 256;
    NatXorOfBytes(x, y);
    BitsXorBound(8, k, x, y);
  }

  /** Xor works on the low byte and on the bytes above it separately:
      (d + 256 z) ^ (e + 256 w) == (d ^ e) + 256 (z ^ w) when d, e < 256. */
  lemma {:induction false} XorLowLane(d: nat, e: nat, z: nat, w: nat)
    requires d < 256 && e < 256
    ensures Xor(d + 256 * z, e + 256 * w) == Xor(d, e) + 256 * Xor(z, w)
  {
    var x, y := d + 256 * z, e + 256 * w;
    NatXorOfBytes(d, e);
    if x == 0 && y == 0 {
      assert d == 0 && e == 0 && z == 0 && w == 0;
    } else {
      assert x % 256 == d && x / 256 == z && y % 256 == e && y / 256 == w;
      assert NatXor(x, y) == ByteXor(d, e) + 256 * NatXor(z, w);
    }
  }
}
