/** Fixed-width integer helpers shared by the bus, the decoder and the executor.
    Registers are `bv32`, so C++ `uint32_t` arithmetic wraps exactly as in the
    interpreter; the helpers below give the signed comparison, the sign extensions
    the loads and immediates use, the arithmetic shift and C++'s truncating
    division. The integer values of words are in `WordValue`. */
module Bits {
  import opened WordValue

  /** `(int32_t)a < (int32_t)b`, decided on the bits: flipping the sign bit maps
      two's complement order onto unsigned order, so a negative word is below every
      non-negative one and words of the same sign compare as unsigned. */
  function LessSigned(a: bv32, b: bv32): bool
  {
    (a ^ SIGN_BIT) < (b ^ SIGN_BIT)
  }

  /** `LessSigned` is `<` on the `int32_t` values. */
  lemma LessSignedValues(a: bv32, b: bv32)
    ensures LessSigned(a, b) <==> Signed(a) < Signed(b)
  {
    FlippedOrder(a, b);
  }

  /** On the bits, a negative word is below every non-negative one, and words of
      the same sign compare as unsigned. */
  lemma LessSignedOrder(a: bv32, b: bv32)
    ensures a & 0x8000_0000 != 0 && b & 0x8000_0000 == 0 ==> LessSigned(a, b)
    ensures a & 0x8000_0000 == 0 && b & 0x8000_0000 != 0 ==> !LessSigned(a, b)
    ensures a & 0x8000_0000 == b & 0x8000_0000 ==> (LessSigned(a, b) <==> a < b)
  {
  }

  /** The `uint32_t` that an integer becomes when it is assigned to a word. */
  function FromInt(n: int): bv32
  {
    (n % WORD_MODULUS) as bv32
  }

  /** `(int32_t)(b << 24) >> 24`: a byte widened with its top bit copied upwards. */
  function SignExtend8(b: bv8): bv32
  {
    if b < 0x80 then b as bv32 else b as bv32 | 0xFFFF_FF00
  }

  /** An `int16_t` widened to 32 bits: the half-word with its top bit copied upwards. */
  function SignExtend16(h: bv16): bv32
  {
    if h < 0x8000 then h as bv32 else h as bv32 | 0xFFFF_0000
  }

  /** Byte sign extension keeps the low eight bits and fills the high bits with
      copies of bit 7. */
  lemma ByteSignExtension(b: bv8)
    ensures (SignExtend8(b) & 0xFF) as bv8 == b
    ensures SignExtend8(b) >> 8 == if b < 0x80 then 0 else 0xFF_FFFF
  {
    if b < 0x80 {
      assert SignExtend8(b) == b as bv32;
    } else {
      assert SignExtend8(b) == b as bv32 | 0xFFFF_FF00;
    }
  }

  /** Half-word sign extension keeps the low sixteen bits and fills the high bits
      with copies of bit 15. */
  lemma HalfSignExtension(h: bv16)
    ensures (SignExtend16(h) & 0xFFFF) as bv16 == h
    ensures SignExtend16(h) >> 16 == if h < 0x8000 then 0 else 0xFFFF
  {
    if h < 0x8000 {
      assert SignExtend16(h) == h as bv32;
    } else {
      assert SignExtend16(h) == h as bv32 | 0xFFFF_0000;
    }
  }

  /** `(int32_t)x >> n` on a compiler that shifts signed values arithmetically:
      the vacated high bits are copies of the sign bit. */
  function ShiftRightArithmetic(x: bv32, n: bv5): bv32
  {
    if x < 0x8000_0000 then x >> n else !((!x) >> n)
  }

  /** An arithmetic shift of a non-negative word is the logical shift; of a
      negative word it sets every vacated high bit and keeps the low `32 - n`
      bits of the logical shift. */
  lemma ArithmeticShiftFill(x: bv32, n: bv5)
    ensures x < 0x8000_0000 ==> ShiftRightArithmetic(x, n) == x >> n
    ensures x >= 0x8000_0000 ==> ShiftRightArithmetic(x, n) | (0xFFFF_FFFF >> n) == 0xFFFF_FFFF
    ensures ShiftRightArithmetic(x, n) & (0xFFFF_FFFF >> n) == x >> n
  {
    ArithmeticShiftLow(x, n);
  }

  /** The low `32 - n` bits of an arithmetic shift are those of the logical shift:
      only the vacated high bits differ. */
  lemma ArithmeticShiftLow(x: bv32, n: bv5)
    ensures ShiftRightArithmetic(x, n) & (0xFFFF_FFFF >> n) == x >> n
  {
    if x < 0x8000_0000 {
      ShiftLow(x, n);
    } else {
      ComplementShiftLow(x, n);
    }
  }

  lemma ShiftLow(x: bv32, n: bv5)
    ensures (x >> n) & (0xFFFF_FFFF >> n) == x >> n
  {
  }

  lemma ComplementShiftLow(x: bv32, n: bv5)
    ensures !((!x) >> n) & (0xFFFF_FFFF >> n) == x >> n
  {
  }

  /** C++ `/` on integers: the quotient truncated toward zero. */
  function TruncDiv(n: int, d: int): int
    requires d != 0
  {
    var q := Abs(n) / Abs(d);
    if (n < 0) == (d < 0) then q else -q
  }

  /** C++ `%` on integers: what is left after `TruncDiv`; it has the sign of `n`. */
  function TruncRem(n: int, d: int): int
    requires d != 0
  {
    n - d * TruncDiv(n, d)
  }

  function Abs(n: int): nat
  {
    if n < 0 then -n else n
  }

  /** The defining properties of C++ division: `n == d * q + r`, the remainder is
      smaller than the divisor in magnitude and is never of the opposite sign to `n`. */
  lemma {:induction false} TruncDivision(n: int, d: int)
    requires d != 0
    ensures n == d * TruncDiv(n, d) + TruncRem(n, d)
    ensures Abs(TruncRem(n, d)) < Abs(d)
    ensures TruncRem(n, d) == 0 || (TruncRem(n, d) < 0) == (n < 0)
  {
    var a: int, b: int := Abs(n), Abs(d);
    var q: int, r: int := a / b, a % b;
    var p := b * q;
    assert a == p + r && 0 <= r < b;
    if d < 0 {
      NegatedFactor(d, b, q);
    }
    if n < 0 {
      assert TruncRem(n, d) == -r;
    } else {
      assert TruncRem(n, d) == r;
    }
  }

  /** The two products of a negated factor. */
  lemma NegatedFactor(x: int, y: int, q: int)
    requires x == -y
    ensures x * q == -(y * q) && x * -q == y * q
  {
  }
}
