/**
 * Integer models of the 32-bit bit operations JavaScript applies to numbers.
 * Values are kept as their unsigned 32-bit reading; `Int32` gives the signed
 * reading that a JavaScript variable holds after `|=` or `<<`.
 */
module Bits {
  /** A Uint8Array element. */
  type byte = x: int | 0 <= x < 256

  const TwoTo32: nat := 0x1_0000_0000

  function Pow2(k: nat): (r: nat)
    ensures r >= 1
  {
    if k == 0 then 1 else 2 * Pow2(k - 1)
  }

  lemma {:induction false} Pow2Add(a: nat, b: nat)
    ensures Pow2(a + b) == Pow2(a) * Pow2(b)
    decreases a
  {
    if a > 0 {
      Pow2Add(a - 1, b);
    }
  }

  lemma Pow2Values()
    ensures Pow2(7) == 128 && Pow2(14) == 16384 && Pow2(21) == 2097152
    ensures Pow2(28) == 268435456 && Pow2(32) == TwoTo32
  {
    assert Pow2(7) == 128;
    Pow2Add(7, 7);
    Pow2Add(14, 7);
    Pow2Add(21, 7);
    assert Pow2(4) == 16;
    Pow2Add(28, 4);
  }

  /** Bitwise OR of two naturals (JavaScript `|` on non-negative operands below 2^32). */
  function BitOr(a: nat, b: nat): nat
    decreases a + b
  {
    if a == 0 then b
    else if b == 0 then a
    else 2 * BitOr(a / 2, b / 2) + (if a % 2 == 1 || b % 2 == 1 then 1 else 0)
  }

  /** OR of a value below 2^k with a multiple of 2^k adds them: the bits do not overlap. */
  lemma {:induction false} BitOrDisjoint(a: nat, m: nat, k: nat)
    requires a < Pow2(k)
    ensures BitOr(a, m * Pow2(k)) == a + m * Pow2(k)
    decreases k
  {
    if k > 0 && a != 0 && m != 0 {
      var h := m * Pow2(k - 1);
      assert m * Pow2(k) == 2 * h;
      BitOrDisjoint(a / 2, m, k - 1);
      assert BitOr(a, 2 * h) == 2 * BitOr(a / 2, h) + a % 2;
    }
  }

  /** OR never reaches a power of two that neither operand reaches. */
  lemma {:induction false} BitOrBound(a: nat, b: nat, k: nat)
    requires a < Pow2(k) && b < Pow2(k)
    ensures BitOr(a, b) < Pow2(k)
    decreases k
  {
    if k > 0 && a != 0 && b != 0 {
      BitOrBound(a / 2, b / 2, k - 1);
    }
  }

  /** JavaScript `x << s` for 0 <= x, read unsigned: the count is taken modulo 32, the result truncated to 32 bits. */
  function Shl32(x: nat, s: nat): (r: nat)
    ensures r < TwoTo32
  {
    (x * Pow2(s % 32)) % TwoTo32
  }

  /** OR of two unsigned 32-bit values stays a 32-bit value. */
  lemma BitOr32(a: nat, b: nat)
    requires a < TwoTo32 && b < TwoTo32
    ensures BitOr(a, b) < TwoTo32
  {
    Pow2Values();
    BitOrBound(a, b, 32);
  }

  /** The signed reading of an unsigned 32-bit value (two's complement). */
  function Int32(u: nat): (r: int)
    requires u < TwoTo32
    ensures -0x8000_0000 <= r < 0x8000_0000
    ensures (r - u) % TwoTo32 == 0
    ensures r < 0 <==> u >= 0x8000_0000
  {
    if u < 0x8000_0000 then u else u - TwoTo32
  }
}
