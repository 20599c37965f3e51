/** The `Opcode` union of the interpreter: one instruction word read through the
    MIPS-I R-type, I-type and J-type field layouts at once. */
module Decoder {
  import opened Bits

  /** Every field the interpreter reads from an instruction word. `offset` is the
      `int16_t` view of `imm`, already widened to a word as C++ does before adding. */
  datatype Opcode = Opcode(
    word: bv32,     // the whole instruction
    op: bv6,        // bits 26-31
    rs: bv5,        // bits 21-25
    rt: bv5,        // bits 16-20
    rd: bv5,        // bits 11-15
    sh: bv5,        // bits 6-10
    fun: bv6,       // bits 0-5
    target: bv26,   // bits 0-25, jump target
    imm: bv16,      // bits 0-15, unsigned immediate
    offset: bv32    // bits 0-15 sign-extended
  )

  /** Packs the six R-type fields back into a word. */
  function Encode(op: bv6, rs: bv5, rt: bv5, rd: bv5, sh: bv5, fun: bv6): bv32
  {
    (op as bv32 << 26) | (rs as bv32 << 21) | (rt as bv32 << 16)
      | (rd as bv32 << 11) | (sh as bv32 << 6) | fun as bv32
  }

  /** Slices a word into all of its fields; total, the same word always decodes the same. */
  function Decode(w: bv32): (i: Opcode)
    ensures i.word == w
    ensures Encode(i.op, i.rs, i.rt, i.rd, i.sh, i.fun) == w
    ensures i.imm as bv32 == w & 0xFFFF
    ensures i.target as bv32 == w & 0x3FF_FFFF
    ensures i.offset == SignExtend16(i.imm)
  {
    Opcode(
      w,
      (w >> 26) as bv6,
      ((w >> 21) & 0x1F) as bv5,
      ((w >> 16) & 0x1F) as bv5,
      ((w >> 11) & 0x1F) as bv5,
      ((w >> 6) & 0x1F) as bv5,
      (w & 0x3F) as bv6,
      (w & 0x3FF_FFFF) as bv26,
      (w & 0xFFFF) as bv16,
      SignExtend16((w & 0xFFFF) as bv16))
  }

  /** Decoding an encoded word gives back every field, so `Encode` and `Decode`
      are inverse bijections between words and R-type field tuples. */
  lemma DecodeEncode(op: bv6, rs: bv5, rt: bv5, rd: bv5, sh: bv5, fun: bv6)
    ensures var i := Decode(Encode(op, rs, rt, rd, sh, fun));
      i.op == op && i.rs == rs && i.rt == rt && i.rd == rd && i.sh == sh && i.fun == fun
  {
  }

  /** The three layouts share their bits: the I-type immediate is the R-type
      `rd`, `sh` and `fun` fields, and the J-type target extends it with `rs` and `rt`. */
  lemma SharedLayouts(w: bv32)
    ensures var i := Decode(w);
      && i.imm as bv32 == (i.rd as bv32 << 11) | (i.sh as bv32 << 6) | i.fun as bv32
      && i.target as bv32 == (i.rs as bv32 << 21) | (i.rt as bv32 << 16) | i.imm as bv32
  {
  }
}
