/** The numbers a 32-bit register stands for. The interpreter keeps registers as
    `uint32_t` and reads them either as they are or cast to `int32_t`; C++ then
    does its arithmetic on the integers and converts the result back modulo 2^32.
    The executor is modelled on `bv32`, which wraps in the same way; this module
    gives each word its unsigned and its two's complement value and proves that
    `bv32` addition, subtraction and comparison agree with the integer operations
    on those values.

    A word's value is read from the most significant bit down (`Value`), so each
    step of a proof looks at the top bit and then shifts the word left by one.
    Addition is followed column by column as a ripple-carry adder; the fact that
    `+` on `bv32` is such an adder is checked four bits at a time. */
module WordValue {

  const WORD_MODULUS: int := 0x1_0000_0000

  const SIGN_BIT: bv32 := 0x8000_0000

  function Count(b: bool): nat
  {
    if b then 1 else 0
  }

  /** The most significant bit: the sign bit of the `int32_t` reading. */
  predicate Top(x: bv32)
  {
    x & SIGN_BIT != 0
  }

  function Pow2(n: nat): nat
  {
    if n == 0 then 1 else 2 * Pow2(n - 1)
  }

  /** The word whose low `n` bits are set (all 32 once `n` reaches 32). */
  function Ones(n: nat): bv32
  {
    if n == 0 then 0 else (Ones(n - 1) << 1) | 1
  }

  /** The number the top `n` bits of `x` spell, most significant bit first. */
  function Value(x: bv32, n: nat): nat
    decreases n
  {
    if n == 0 then 0 else (if Top(x) then Pow2(n - 1) else 0) + Value(x << 1, n - 1)
  }

  lemma OnesWord()
    ensures Ones(32) == 0xFFFF_FFFF
  {
    assert Ones(1) == 0x1;
    assert Ones(2) == 0x3;
    assert Ones(3) == 0x7;
    assert Ones(4) == 0xF;
    assert Ones(5) == 0x1F;
    assert Ones(6) == 0x3F;
    assert Ones(7) == 0x7F;
    assert Ones(8) == 0xFF;
    assert Ones(9) == 0x1FF;
    assert Ones(10) == 0x3FF;
    assert Ones(11) == 0x7FF;
    assert Ones(12) == 0xFFF;
    assert Ones(13) == 0x1FFF;
    assert Ones(14) == 0x3FFF;
    assert Ones(15) == 0x7FFF;
    assert Ones(16) == 0xFFFF;
    assert Ones(17) == 0x1FFFF;
    assert Ones(18) == 0x3FFFF;
    assert Ones(19) == 0x7FFFF;
    assert Ones(20) == 0xFFFFF;
    assert Ones(21) == 0x1FFFFF;
    assert Ones(22) == 0x3FFFFF;
    assert Ones(23) == 0x7FFFFF;
    assert Ones(24) == 0xFFFFFF;
    assert Ones(25) == 0x1FFFFFF;
    assert Ones(26) == 0x3FFFFFF;
    assert Ones(27) == 0x7FFFFFF;
    assert Ones(28) == 0xFFFFFFF;
    assert Ones(29) == 0x1FFFFFFF;
    assert Ones(30) == 0x3FFFFFFF;
    assert Ones(31) == 0x7FFFFFFF;
    assert Ones(32) == 0xFFFFFFFF;
  }

  lemma Pow2Word()
    ensures Pow2(31) == 0x8000_0000 && Pow2(32) == WORD_MODULUS
  {
    assert Pow2(1) == 0x2;
    assert Pow2(2) == 0x4;
    assert Pow2(3) == 0x8;
    assert Pow2(4) == 0x10;
    assert Pow2(5) == 0x20;
    assert Pow2(6) == 0x40;
    assert Pow2(7) == 0x80;
    assert Pow2(8) == 0x100;
    assert Pow2(9) == 0x200;
    assert Pow2(10) == 0x400;
    assert Pow2(11) == 0x800;
    assert Pow2(12) == 0x1000;
    assert Pow2(13) == 0x2000;
    assert Pow2(14) == 0x4000;
    assert Pow2(15) == 0x8000;
    assert Pow2(16) == 0x10000;
    assert Pow2(17) == 0x20000;
    assert Pow2(18) == 0x40000;
    assert Pow2(19) == 0x80000;
    assert Pow2(20) == 0x100000;
    assert Pow2(21) == 0x200000;
    assert Pow2(22) == 0x400000;
    assert Pow2(23) == 0x800000;
    assert Pow2(24) == 0x1000000;
    assert Pow2(25) == 0x2000000;
    assert Pow2(26) == 0x4000000;
    assert Pow2(27) == 0x8000000;
    assert Pow2(28) == 0x10000000;
    assert Pow2(29) == 0x20000000;
    assert Pow2(30) == 0x40000000;
    assert Pow2(31) == 0x80000000;
    assert Pow2(32) == 0x100000000;
  }

  lemma {:induction false} ValueRange(x: bv32, n: nat)
    ensures Value(x, n) < Pow2(n)
    decreases n
  {
    if n > 0 {
      ValueRange(x << 1, n - 1);
    }
  }

  /** `(uint32_t)x` as an integer. */
  function Unsigned(x: bv32): (r: nat)
    ensures r < WORD_MODULUS
  {
    ValueRange(x, 32);
    Pow2Word();
    Value(x, 32)
  }

  /** The top bit of a word is worth 2^31 of its unsigned value. */
  lemma TopValue(x: bv32)
    ensures Unsigned(x) == (if Top(x) then 0x8000_0000 else 0) + Value(x << 1, 31)
    ensures Value(x << 1, 31) < 0x8000_0000
  {
    ValueRange(x << 1, 31);
    Pow2Word();
  }

  /** `(int32_t)x` as an integer: the unsigned value, less 2^32 when it does not
      fit in 31 bits. */
  function Signed(x: bv32): (r: int)
    ensures -0x8000_0000 <= r < 0x8000_0000
    ensures r % WORD_MODULUS == Unsigned(x)
    ensures r < 0 <==> Top(x)
  {
    TopValue(x);
    if Unsigned(x) < 0x8000_0000 then Unsigned(x) else Unsigned(x) - WORD_MODULUS
  }

  /** The `int32_t` that C++ makes of an integer stored to a 32-bit word and read
      back signed: `n` wrapped into [-2^31, 2^31). */
  function Wrap(n: int): (r: int)
    ensures -0x8000_0000 <= r < 0x8000_0000
    ensures (r - n) % WORD_MODULUS == 0
    ensures -0x8000_0000 <= n < 0x8000_0000 ==> r == n
  {
    (n + 0x8000_0000) % WORD_MODULUS - 0x8000_0000
  }

  lemma WrapResidue(u: int, n: int)
    requires 0 <= u < WORD_MODULUS && u == n % WORD_MODULUS
    ensures Wrap(n) == if u < 0x8000_0000 then u else u - WORD_MODULUS
  {
  }

  /** A word whose unsigned value is `n` modulo 2^32 reads as `Wrap(n)` signed. */
  lemma SignedWrap(x: bv32, n: int)
    requires Unsigned(x) == n % WORD_MODULUS
    ensures Signed(x) == Wrap(n)
  {
    WrapResidue(Unsigned(x), n);
  }

  // ----- Unsigned order -----

  /** `<` on words, behind a name so that the steps below compare words without
      re-deriving the comparison bit by bit. */
  predicate Below(p: bv32, q: bv32)
  {
    p < q
  }

  /** The low `32 - k` bits of `p` are clear: only its top `k` bits can be set. */
  predicate LowClear(p: bv32, k: nat)
    requires k <= 32
  {
    p & Ones(32 - k) == 0
  }

  lemma LessTop(p: bv32, q: bv32)
    ensures p < q <==> (!Top(p) && Top(q)) || (Top(p) == Top(q) && (p << 1) < (q << 1))
  {
  }

  /** Words compare by their top bits first and then by the rest. */
  lemma BelowTop(p: bv32, q: bv32)
    ensures Below(p, q) <==> (!Top(p) && Top(q)) || (Top(p) == Top(q) && Below(p << 1, q << 1))
  {
    LessTop(p, q);
  }

  lemma OnesNext(n: nat)
    ensures Ones(n + 1) == (Ones(n) << 1) | 1
  {
  }

  lemma ShiftClearsNext(p: bv32, m: bv32, m1: bv32)
    requires p & m == 0 && m1 == (m << 1) | 1
    ensures (p << 1) & m1 == 0
  {
  }

  /** Shifting left clears one more low bit. */
  lemma ClearShift(p: bv32, k: nat)
    requires 0 < k <= 32
    requires LowClear(p, k)
    ensures LowClear(p << 1, k - 1)
  {
    OnesNext(32 - k);
    ShiftClearsNext(p, Ones(32 - k), Ones(32 - k + 1));
  }

  lemma ClearAll(p: bv32, q: bv32)
    requires LowClear(p, 0) && LowClear(q, 0)
    ensures !Below(p, q)
  {
    OnesWord();
  }

  lemma LexValue(w: nat, tp: bool, tq: bool, vp: nat, vq: nat)
    requires vp < w && vq < w
    ensures (if tp then w else 0) + vp < (if tq then w else 0) + vq <==> (!tp && tq) || (tp == tq && vp < vq)
  {
  }

  /** For words whose bits below the top `k` are clear, `<` is the order of the
      numbers those `k` bits spell. */
  lemma {:induction false} OrderLow(p: bv32, q: bv32, k: nat)
    requires k <= 32
    requires LowClear(p, k) && LowClear(q, k)
    ensures Below(p, q) <==> Value(p, k) < Value(q, k)
    decreases k
  {
    if k == 0 {
      ClearAll(p, q);
    } else {
      ClearShift(p, k);
      ClearShift(q, k);
      OrderLow(p << 1, q << 1, k - 1);
      BelowTop(p, q);
      ValueRange(p << 1, k - 1);
      ValueRange(q << 1, k - 1);
      LexValue(Pow2(k - 1), Top(p), Top(q), Value(p << 1, k - 1), Value(q << 1, k - 1));
    }
  }

  lemma OrderWord(a: bv32, b: bv32)
    ensures Below(a, b) <==> Value(a, 32) < Value(b, 32)
  {
    assert LowClear(a, 32) && LowClear(b, 32);
    OrderLow(a, b, 32);
  }

  /** `<` on `bv32` (C++ `<` on `uint32_t`) is `<` on the unsigned values. */
  lemma UnsignedOrder(a: bv32, b: bv32)
    ensures a < b <==> Unsigned(a) < Unsigned(b)
  {
    OrderWord(a, b);
  }

  lemma {:induction false} ZeroValue(n: nat)
    ensures Value(0, n) == 0
    decreases n
  {
    if n > 0 {
      ZeroValue(n - 1);
    }
  }

  /** Only the zero word has unsigned value 0, so distinct words have distinct
      values. */
  lemma UnsignedZero(x: bv32)
    ensures Unsigned(x) == 0 <==> x == 0
  {
    ZeroValue(32);
    UnsignedOrder(0, x);
  }

  // ----- Addition -----

  /** `z` is what a ripple-carry adder makes of `x` and `y`: `x ^ y ^ z` holds the
      carry into each column, and each carry is the majority of the column below;
      nothing is carried into column 0. */
  predicate Ripple(x: bv32, y: bv32, z: bv32)
  {
    x ^ y ^ z == ((x & y) | ((x | y) & (x ^ y ^ z))) << 1
  }

  /** The carry out of the top column. */
  predicate CarryOut(x: bv32, y: bv32, z: bv32)
  {
    Top((x & y) | ((x | y) & (x ^ y ^ z)))
  }

  /** The carry into the lowest of the top `n` columns (the carry out for `n` = 0). */
  function CarryIn(x: bv32, y: bv32, z: bv32, n: nat): nat
    decreases n
  {
    if n == 0 then Count(CarryOut(x, y, z)) else CarryIn(x << 1, y << 1, z << 1, n - 1)
  }

  /** Dropping the top column of an adder leaves an adder whose carry out is the
      carry that went into the dropped column. */
  lemma RippleShift(x: bv32, y: bv32, z: bv32)
    requires Ripple(x, y, z)
    ensures Ripple(x << 1, y << 1, z << 1)
    ensures CarryOut(x << 1, y << 1, z << 1) == Top(x ^ y ^ z)
  {
  }

  lemma TopXor(x: bv32, y: bv32, z: bv32)
    ensures Top(x ^ y ^ z) == ((Top(x) != Top(y)) != Top(z))
  {
  }

  lemma TopMajority(x: bv32, y: bv32, c: bv32)
    ensures Top((x & y) | ((x | y) & c)) <==> (Top(x) && Top(y)) || ((Top(x) || Top(y)) && Top(c))
  {
  }

  lemma FullAdder(x: bool, y: bool, c: bool, z: bool, o: bool)
    requires c == ((x != y) != z)
    requires o <==> (x && y) || ((x || y) && c)
    ensures Count(x) + Count(y) + Count(c) == Count(z) + 2 * Count(o)
  {
  }

  /** The top column adds up: its two bits and the carry into it make its sum
      bit plus twice the carry out. */
  lemma Column(x: bv32, y: bv32, z: bv32)
    ensures Count(Top(x)) + Count(Top(y)) + Count(Top(x ^ y ^ z)) == Count(Top(z)) + 2 * Count(CarryOut(x, y, z))
  {
    TopXor(x, y, z);
    TopMajority(x, y, x ^ y ^ z);
    FullAdder(Top(x), Top(y), Top(x ^ y ^ z), Top(z), CarryOut(x, y, z));
  }

  /** The top `n` columns add up. */
  predicate AdderAt(x: bv32, y: bv32, z: bv32, n: nat)
  {
    Value(x, n) + Value(y, n) + CarryIn(x, y, z, n) == Value(z, n) + (if CarryOut(x, y, z) then Pow2(n) else 0)
  }

  lemma AddColumn(w: nat, tx: bool, ty: bool, tc: bool, tz: bool, co: bool, vx: nat, vy: nat, vz: nat, cin: nat)
    requires vx + vy + cin == vz + (if tc then w else 0)
    requires Count(tx) + Count(ty) + Count(tc) == Count(tz) + 2 * Count(co)
    ensures (if tx then w else 0) + vx + (if ty then w else 0) + vy + cin == (if tz then w else 0) + vz + (if co then 2 * w else 0)
  {
  }

  lemma AdderUnfold(x: bv32, y: bv32, z: bv32, n: nat)
    requires 0 < n
    ensures AdderAt(x, y, z, n) <==>
      (if Top(x) then Pow2(n - 1) else 0) + Value(x << 1, n - 1) + (if Top(y) then Pow2(n - 1) else 0) + Value(y << 1, n - 1) + CarryIn(x << 1, y << 1, z << 1, n - 1)
      == (if Top(z) then Pow2(n - 1) else 0) + Value(z << 1, n - 1) + (if CarryOut(x, y, z) then 2 * Pow2(n - 1) else 0)
  {
  }

  lemma AdderNext(x: bv32, y: bv32, z: bv32, n: nat)
    requires 0 < n
    requires Ripple(x, y, z)
    requires AdderAt(x << 1, y << 1, z << 1, n - 1)
    ensures AdderAt(x, y, z, n)
  {
    RippleShift(x, y, z);
    Column(x, y, z);
    AdderUnfold(x, y, z, n);
    AddColumn(Pow2(n - 1), Top(x), Top(y), Top(x ^ y ^ z), Top(z), CarryOut(x, y, z),
      Value(x << 1, n - 1), Value(y << 1, n - 1), Value(z << 1, n - 1), CarryIn(x << 1, y << 1, z << 1, n - 1));
  }

  lemma {:induction false} Adder(x: bv32, y: bv32, z: bv32, n: nat)
    requires Ripple(x, y, z)
    ensures AdderAt(x, y, z, n)
    decreases n
  {
    if n > 0 {
      RippleShift(x, y, z);
      Adder(x << 1, y << 1, z << 1, n - 1);
      AdderNext(x, y, z, n);
    }
  }

  lemma ClearNoCarry(x: bv32, y: bv32, z: bv32)
    requires LowClear(x, 0) && LowClear(y, 0) && LowClear(z, 0)
    ensures !CarryOut(x, y, z)
  {
    OnesWord();
  }

  lemma {:induction false} CarryInClear(x: bv32, y: bv32, z: bv32, k: nat)
    requires k <= 32
    requires LowClear(x, k) && LowClear(y, k) && LowClear(z, k)
    ensures CarryIn(x, y, z, k) == 0
    decreases k
  {
    if k == 0 {
      ClearNoCarry(x, y, z);
    } else {
      ClearShift(x, k);
      ClearShift(y, k);
      ClearShift(z, k);
      CarryInClear(x << 1, y << 1, z << 1, k - 1);
    }
  }

  /** Nothing is carried into the lowest column. */
  lemma CarryInWord(x: bv32, y: bv32, z: bv32)
    ensures CarryIn(x, y, z, 32) == 0
  {
    assert LowClear(x, 32) && LowClear(y, 32) && LowClear(z, 32);
    CarryInClear(x, y, z, 32);
  }

  /** A ripple-carry adder adds: the unsigned values of its inputs sum to that
      of its output plus 2^32 for a carry out of the top. */
  lemma AdderValue(x: bv32, y: bv32, z: bv32)
    requires Ripple(x, y, z)
    ensures Unsigned(x) + Unsigned(y) == Unsigned(z) + (if CarryOut(x, y, z) then WORD_MODULUS else 0)
  {
    Adder(x, y, z, 32);
    CarryInWord(x, y, z);
    Pow2Word();
  }

  predicate Agree(u: bv32, v: bv32, m: bv32)
  {
    u & m == v & m
  }

  lemma Nibbles(u: bv32, v: bv32)
    requires Agree(u, v, 0x0000_000F) && Agree(u, v, 0x0000_00F0) && Agree(u, v, 0x0000_0F00) && Agree(u, v, 0x0000_F000)
    requires Agree(u, v, 0x000F_0000) && Agree(u, v, 0x00F0_0000) && Agree(u, v, 0x0F00_0000) && Agree(u, v, 0xF000_0000)
    ensures u == v
  {
  }

  lemma SumSlice0(s: bv32, t: bv32)
    ensures Agree(s ^ t ^ (s + t), ((s & t) | ((s | t) & (s ^ t ^ (s + t)))) << 1, 0x0000_000F)
  {
  }

  lemma SumSlice1(s: bv32, t: bv32)
    ensures Agree(s ^ t ^ (s + t), ((s & t) | ((s | t) & (s ^ t ^ (s + t)))) << 1, 0x0000_00F0)
  {
  }

  lemma SumSlice2(s: bv32, t: bv32)
    ensures Agree(s ^ t ^ (s + t), ((s & t) | ((s | t) & (s ^ t ^ (s + t)))) << 1, 0x0000_0F00)
  {
  }

  lemma SumSlice3(s: bv32, t: bv32)
    ensures Agree(s ^ t ^ (s + t), ((s & t) | ((s | t) & (s ^ t ^ (s + t)))) << 1, 0x0000_F000)
  {
  }

  lemma SumSlice4(s: bv32, t: bv32)
    ensures Agree(s ^ t ^ (s + t), ((s & t) | ((s | t) & (s ^ t ^ (s + t)))) << 1, 0x000F_0000)
  {
  }

  lemma SumSlice5(s: bv32, t: bv32)
    ensures Agree(s ^ t ^ (s + t), ((s & t) | ((s | t) & (s ^ t ^ (s + t)))) << 1, 0x00F0_0000)
  {
  }

  lemma SumSlice6(s: bv32, t: bv32)
    ensures Agree(s ^ t ^ (s + t), ((s & t) | ((s | t) & (s ^ t ^ (s + t)))) << 1, 0x0F00_0000)
  {
  }

  lemma SumSlice7(s: bv32, t: bv32)
    ensures Agree(s ^ t ^ (s + t), ((s & t) | ((s | t) & (s ^ t ^ (s + t)))) << 1, 0xF000_0000)
  {
  }

  /** `+` on `bv32` is a ripple-carry adder. */
  lemma SumRipple(s: bv32, t: bv32)
    ensures Ripple(s, t, s + t)
  {
    SumSlice0(s, t);
    SumSlice1(s, t);
    SumSlice2(s, t);
    SumSlice3(s, t);
    SumSlice4(s, t);
    SumSlice5(s, t);
    SumSlice6(s, t);
    SumSlice7(s, t);
    Nibbles(s ^ t ^ (s + t), ((s & t) | ((s | t) & (s ^ t ^ (s + t)))) << 1);
  }

  lemma ModuloOnce(x: int, y: int, z: int)
    requires 0 <= z < WORD_MODULUS
    requires x + y == z || x + y == z + WORD_MODULUS
    ensures (x + y) % WORD_MODULUS == z
  {
  }

  lemma ModuloBack(x: int, y: int, z: int)
    requires 0 <= z < WORD_MODULUS
    requires y + z == x || y + z == x + WORD_MODULUS
    ensures (x - y) % WORD_MODULUS == z
  {
  }

  /** An adder's inputs add up to its output, or to 2^32 more. */
  lemma AdderSum(x: bv32, y: bv32, z: bv32)
    requires Ripple(x, y, z)
    ensures Unsigned(x) + Unsigned(y) == Unsigned(z) || Unsigned(x) + Unsigned(y) == Unsigned(z) + WORD_MODULUS
  {
    AdderValue(x, y, z);
  }

  /** The unsigned values of `s` and `t` add up to that of `s + t`, or to 2^32 more. */
  lemma SumValue(s: bv32, t: bv32)
    ensures Unsigned(s) + Unsigned(t) == Unsigned(s + t) || Unsigned(s) + Unsigned(t) == Unsigned(s + t) + WORD_MODULUS
  {
    SumRipple(s, t);
    AdderSum(s, t, s + t);
  }

  /** `uint32_t` addition: the unsigned value of `s + t` is the integer sum modulo 2^32. */
  lemma AddModulo(s: bv32, t: bv32)
    ensures Unsigned(s + t) == (Unsigned(s) + Unsigned(t)) % WORD_MODULUS
  {
    SumValue(s, t);
    ModuloOnce(Unsigned(s), Unsigned(t), Unsigned(s + t));
  }

  lemma DifferenceSlice0(a: bv32, b: bv32)
    ensures Agree(b ^ (a - b) ^ a, ((b & (a - b)) | ((b | (a - b)) & (b ^ (a - b) ^ a))) << 1, 0x0000_000F)
  {
  }

  lemma DifferenceSlice1(a: bv32, b: bv32)
    ensures Agree(b ^ (a - b) ^ a, ((b & (a - b)) | ((b | (a - b)) & (b ^ (a - b) ^ a))) << 1, 0x0000_00F0)
  {
  }

  lemma DifferenceSlice2(a: bv32, b: bv32)
    ensures Agree(b ^ (a - b) ^ a, ((b & (a - b)) | ((b | (a - b)) & (b ^ (a - b) ^ a))) << 1, 0x0000_0F00)
  {
  }

  lemma DifferenceSlice3(a: bv32, b: bv32)
    ensures Agree(b ^ (a - b) ^ a, ((b & (a - b)) | ((b | (a - b)) & (b ^ (a - b) ^ a))) << 1, 0x0000_F000)
  {
  }

  lemma DifferenceSlice4(a: bv32, b: bv32)
    ensures Agree(b ^ (a - b) ^ a, ((b & (a - b)) | ((b | (a - b)) & (b ^ (a - b) ^ a))) << 1, 0x000F_0000)
  {
  }

  lemma DifferenceSlice5(a: bv32, b: bv32)
    ensures Agree(b ^ (a - b) ^ a, ((b & (a - b)) | ((b | (a - b)) & (b ^ (a - b) ^ a))) << 1, 0x00F0_0000)
  {
  }

  lemma DifferenceSlice6(a: bv32, b: bv32)
    ensures Agree(b ^ (a - b) ^ a, ((b & (a - b)) | ((b | (a - b)) & (b ^ (a - b) ^ a))) << 1, 0x0F00_0000)
  {
  }

  lemma DifferenceSlice7(a: bv32, b: bv32)
    ensures Agree(b ^ (a - b) ^ a, ((b & (a - b)) | ((b | (a - b)) & (b ^ (a - b) ^ a))) << 1, 0xF000_0000)
  {
  }

  /** `a - b` is the word that, added to `b`, gives `a`. */
  lemma DifferenceRipple(a: bv32, b: bv32)
    ensures Ripple(b, a - b, a)
  {
    DifferenceSlice0(a, b);
    DifferenceSlice1(a, b);
    DifferenceSlice2(a, b);
    DifferenceSlice3(a, b);
    DifferenceSlice4(a, b);
    DifferenceSlice5(a, b);
    DifferenceSlice6(a, b);
    DifferenceSlice7(a, b);
    Nibbles(b ^ (a - b) ^ a, ((b & (a - b)) | ((b | (a - b)) & (b ^ (a - b) ^ a))) << 1);
  }

  /** The unsigned values of `b` and `a - b` add up to that of `a`, or to 2^32 more. */
  lemma DifferenceValue(a: bv32, b: bv32)
    ensures Unsigned(b) + Unsigned(a - b) == Unsigned(a) || Unsigned(b) + Unsigned(a - b) == Unsigned(a) + WORD_MODULUS
  {
    DifferenceRipple(a, b);
    AdderSum(b, a - b, a);
  }

  /** `uint32_t` subtraction: the unsigned value of `a - b` is the integer
      difference modulo 2^32. */
  lemma SubtractModulo(a: bv32, b: bv32)
    ensures Unsigned(a - b) == (Unsigned(a) - Unsigned(b)) % WORD_MODULUS
  {
    DifferenceValue(a, b);
    ModuloBack(Unsigned(a), Unsigned(b), Unsigned(a - b));
  }

  lemma AddMultiple(x: int, k: int)
    ensures (x + k * WORD_MODULUS) % WORD_MODULUS == x % WORD_MODULUS
  {
  }

  lemma ResidueAdd(a: int, b: int, u: int, v: int)
    requires u == a % WORD_MODULUS && v == b % WORD_MODULUS
    ensures (a + b) % WORD_MODULUS == (u + v) % WORD_MODULUS
  {
    AddMultiple(u + v, a / WORD_MODULUS + b / WORD_MODULUS);
  }

  lemma ResidueSubtract(a: int, b: int, u: int, v: int)
    requires u == a % WORD_MODULUS && v == b % WORD_MODULUS
    ensures (a - b) % WORD_MODULUS == (u - v) % WORD_MODULUS
  {
    AddMultiple(u - v, a / WORD_MODULUS - b / WORD_MODULUS);
  }

  /** The signed values of two words add, modulo 2^32, to what their unsigned
      values add to. */
  lemma SignedResidueAdd(s: bv32, t: bv32)
    ensures (Signed(s) + Signed(t)) % WORD_MODULUS == (Unsigned(s) + Unsigned(t)) % WORD_MODULUS
  {
    ResidueAdd(Signed(s), Signed(t), Unsigned(s), Unsigned(t));
  }

  lemma SignedResidueSubtract(a: bv32, b: bv32)
    ensures (Signed(a) - Signed(b)) % WORD_MODULUS == (Unsigned(a) - Unsigned(b)) % WORD_MODULUS
  {
    ResidueSubtract(Signed(a), Signed(b), Unsigned(a), Unsigned(b));
  }

  /** `int32_t` addition, converted back to a word: the same word as `+`. */
  lemma SignedAdd(s: bv32, t: bv32)
    ensures Unsigned(s + t) == (Signed(s) + Signed(t)) % WORD_MODULUS
    ensures Signed(s + t) == Wrap(Signed(s) + Signed(t))
  {
    AddModulo(s, t);
    SignedResidueAdd(s, t);
    SignedWrap(s + t, Signed(s) + Signed(t));
  }

  /** `int32_t` subtraction, converted back to a word: the same word as `-`. */
  lemma SignedSubtract(a: bv32, b: bv32)
    ensures Unsigned(a - b) == (Signed(a) - Signed(b)) % WORD_MODULUS
    ensures Signed(a - b) == Wrap(Signed(a) - Signed(b))
  {
    SubtractModulo(a, b);
    SignedResidueSubtract(a, b);
    SignedWrap(a - b, Signed(a) - Signed(b));
  }

  // ----- Signed order -----

  lemma FlipTop(a: bv32)
    ensures Top(a ^ SIGN_BIT) == !Top(a)
    ensures Value((a ^ SIGN_BIT) << 1, 31) == Value(a << 1, 31)
  {
    assert (a ^ SIGN_BIT) << 1 == a << 1;
  }

  lemma FlipValueOf(a: bv32, b: bv32)
    requires Top(b) == !Top(a)
    requires Value(b << 1, 31) == Value(a << 1, 31)
    ensures Unsigned(b) == Signed(a) + 0x8000_0000
  {
    TopValue(a);
    TopValue(b);
  }

  /** Flipping the sign bit adds 2^31 to the signed value and reads it unsigned. */
  lemma FlipValue(a: bv32)
    ensures Unsigned(a ^ SIGN_BIT) == Signed(a) + 0x8000_0000
  {
    FlipTop(a);
    FlipValueOf(a, a ^ SIGN_BIT);
  }

  /** Comparing with the sign bits flipped, unsigned, is comparing the `int32_t`
      values. */
  lemma FlippedOrder(a: bv32, b: bv32)
    ensures (a ^ SIGN_BIT) < (b ^ SIGN_BIT) <==> Signed(a) < Signed(b)
  {
    UnsignedOrder(a ^ SIGN_BIT, b ^ SIGN_BIT);
    FlipValue(a);
    FlipValue(b);
  }
}
