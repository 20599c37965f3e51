/** What the interpreter promises about single instructions, the delay slot and
    the main loop, proved of the functional model in `Executor`. */
module ExecutorProperties {
  import opened Bits
  import opened WordValue
  import opened Bus
  import opened Decoder
  import opened Executor
  import BusProperties

  /** The encodings `executeInstruction` has a case for, listed by opcode, by
      REGIMM `rt` and by SPECIAL `fun`, independently of the dispatcher. */
  predicate Implemented(i: Opcode)
  {
    || i.op in {2, 3, 4, 5, 6, 7, 8, 9, 10, 11, 12, 13, 14, 15, 16, 32, 33, 35, 36, 37, 40, 41, 43}
    || (i.op == 1 && i.rt in {0, 1, 17})
    || (i.op == 0 && i.fun in {0, 2, 3, 4, 6, 7, 8, 9, 12, 16, 17, 18, 19, 24, 26, 27,
                               32, 33, 34, 35, 36, 37, 38, 39, 42, 43})
  }

  /** An instruction is refused exactly when its encoding has no case; a refused
      instruction changes nothing, and in particular does not resolve a pending jump. */
  lemma UnknownExactly(m: Machine, i: Opcode)
    ensures Execute(m, i).Unknown? <==> !Implemented(i)
    ensures Apply(m, i).NotImplemented? <==> !Implemented(i)
  {
    if i.op == 0 {
      assert IsSpecial(i.fun) <==> Implemented(i);
    }
  }

  /** The branch conditions read as MIPS-I states them on signed values, except
      BGTZ, which the interpreter compares unsigned, so any nonzero value branches. */
  predicate Taken(i: Opcode, s: bv32, t: bv32)
    requires IsConditional(i)
  {
    if i.op == 4 then s == t
    else if i.op == 5 then s != t
    else if i.op == 6 then s == 0 || Signed(s) < 0
    else if i.op == 7 then s != 0
    else if i.rt == 0 then Signed(s) < 0
    else Signed(s) >= 0
  }

  /** The bit tests of `Condition` agree with the signed reading of each branch. */
  lemma ConditionMeansTaken(i: Opcode, s: bv32, t: bv32)
    requires IsConditional(i)
    ensures Condition(i, s, t) == Taken(i, s, t)
  {
    assert Signed(s) < 0 <==> s & 0x8000_0000 != 0;
    if i.op == 7 {
      assert s > 0 <==> s != 0;
    }
  }

  /** The register a conditional jump compares as `rs`: its value before the
      instruction, except that BGEZAL on `$ra` reads the link it has just written. */
  function BranchSource(c: Cpu, i: Opcode): bv32
  {
    if i.op == 1 && i.rt == 17 && i.rs == RA then c.pc + 4 else Reg(c, i.rs)
  }

  /** A conditional jump is taken exactly when its signed (BGTZ: unsigned)
      condition holds of the registers. */
  lemma BranchTakenWhen(c: Cpu, i: Opcode)
    requires IsConditional(i)
    ensures BranchTaken(c, i) == Taken(i, BranchSource(c, i), Reg(c, i.rt))
  {
    var linked := Linked(c, i);
    assert Reg(linked, i.rs) == BranchSource(c, i);
    if i.op == 4 || i.op == 5 {
      assert Reg(linked, i.rt) == Reg(c, i.rt);
    }
    ConditionMeansTaken(i, BranchSource(c, i), Reg(linked, i.rt));
  }

  /** A conditional jump keeps PC; it arms its target when taken and otherwise
      leaves the pending jump alone; only BGEZAL writes a register, `$ra`, with
      the instruction address + 8, whether or not the branch is taken. */
  lemma BranchEffect(c: Cpu, i: Opcode)
    requires IsConditional(i)
    ensures var next := ConditionalBranch(c, i);
      && next.pc == c.pc && next.hi == c.hi && next.lo == c.lo && next.cop0 == c.cop0
      && (BranchTaken(c, i) ==> next.shouldJump && next.jumpPC == BranchTarget(c.pc, i.offset))
      && (!BranchTaken(c, i) ==> next.shouldJump == c.shouldJump && next.jumpPC == c.jumpPC)
      && next.reg == (if i.op == 1 && i.rt == 17 then c.reg[31 := c.pc + 4] else c.reg)
  {
    LinkWritesOnlyRa(c, i);
  }

  /** The link step of the conditional jumps touches only the register file, and
      only BGEZAL's `$ra`. */
  lemma LinkWritesOnlyRa(c: Cpu, i: Opcode)
    ensures Linked(c, i) == c.(reg := if i.op == 1 && i.rt == 17 then c.reg[31 := c.pc + 4] else c.reg)
  {
  }

  /** A conditional jump arms its target exactly when its condition holds and
      changes nothing outside the processor. */
  lemma ConditionalJump(m: Machine, i: Opcode)
    requires IsConditional(i)
    ensures Apply(m, i).Effect?
    ensures Apply(m, i).armsJump == Taken(i, BranchSource(m.cpu, i), Reg(m.cpu, i.rt))
    ensures Apply(m, i).machine == m.(cpu := ConditionalBranch(m.cpu, i))
  {
    BranchTakenWhen(m.cpu, i);
  }

  /** J and JAL arm a jump to the low 26 bits of the word, in words, within the
      PC's 256 MiB segment, and keep PC; JAL links `$ra` to the address after the
      delay slot. */
  lemma Jumps(m: Machine, w: bv32)
    requires w >> 26 == 2 || w >> 26 == 3
    ensures var e := Apply(m, Decode(w));
      && e.Effect? && e.armsJump
      && e.machine.cpu.pc == m.cpu.pc && e.machine.cpu.shouldJump
      && e.machine.cpu.jumpPC == (m.cpu.pc & 0xF000_0000) | ((w & 0x3FF_FFFF) << 2)
      && e.machine.cpu.reg == (if w >> 26 == 3 then m.cpu.reg[31 := m.cpu.pc + 4] else m.cpu.reg)
  {
    var i := Decode(w);
    assert i.op as bv32 == w >> 26;
    assert (i.target as bv32) << 2 == (w & 0x3FF_FFFF) << 2;
  }

  /** JR and JALR arm a jump to the value `rs` held before the instruction, even
      when JALR's `rd` is the same register, which then receives PC + 4. */
  lemma RegisterJumps(m: Machine, i: Opcode)
    requires i.op == 0 && (i.fun == 8 || i.fun == 9)
    ensures var e := Apply(m, i);
      && e.Effect? && e.armsJump
      && e.machine.cpu.pc == m.cpu.pc && e.machine.cpu.shouldJump
      && e.machine.cpu.jumpPC == Reg(m.cpu, i.rs)
      && e.machine.cpu.reg == (if i.fun == 9 then m.cpu.reg[i.rd as int := m.cpu.pc + 4] else m.cpu.reg)
  {
  }

  /** The SPECIAL group, apart from JR and JALR, never touches the pending jump. */
  lemma SpecialKeepsJump(c: Cpu, i: Opcode)
    requires i.op == 0 && IsSpecial(i.fun) && i.fun != 8 && i.fun != 9
    ensures Special(c, i).shouldJump == c.shouldJump && Special(c, i).jumpPC == c.jumpPC
  {
  }

  /** An instruction that arms no jump leaves the pending jump as it found it. */
  lemma PendingJumpKept(m: Machine, i: Opcode)
    requires Apply(m, i).Effect? && !Apply(m, i).armsJump
    ensures Apply(m, i).machine.cpu.shouldJump == m.cpu.shouldJump
    ensures Apply(m, i).machine.cpu.jumpPC == m.cpu.jumpPC
  {
    // One case per opcode group: the empty arms keep each case small for the solver.
    if 1 <= i.op <= 7 {
      ConditionalJump(m, i);
      BranchEffect(m.cpu, i);
    } else if 8 <= i.op <= 15 {
    } else if i.op in {32, 33, 35, 36, 37} {
    } else if i.op in {40, 41, 43} {
    } else if i.op == 16 {
    } else {
      SpecialKeepsJump(m.cpu, i);
    }
  }

  /** The delay slot: after an instruction that arms no jump, a pending jump is
      taken, with PC set to its target rounded down to a word and the jump cleared;
      everything else is the instruction's own effect. Without a pending jump the
      instruction's effect is the whole outcome. */
  lemma DelaySlot(m: Machine, i: Opcode)
    requires Apply(m, i).Effect? && !Apply(m, i).armsJump
    ensures var next := Apply(m, i).machine;
      && Execute(m, i).Executed?
      && (m.cpu.shouldJump ==>
            && Execute(m, i).machine.cpu.pc == m.cpu.jumpPC & 0xFFFF_FFFC
            && Execute(m, i).machine.cpu.pc & 3 == 0
            && Execute(m, i).machine.cpu.jumpPC == 0
            && !Execute(m, i).machine.cpu.shouldJump
            && Execute(m, i).machine.cpu.reg == next.cpu.reg
            && Execute(m, i).machine.cpu.hi == next.cpu.hi
            && Execute(m, i).machine.cpu.lo == next.cpu.lo
            && Execute(m, i).machine.cpu.cop0 == next.cpu.cop0
            && Execute(m, i).machine.mem == next.mem
            && Execute(m, i).machine.isolated == next.isolated)
      && (!m.cpu.shouldJump ==> Execute(m, i).machine == next)
  {
    PendingJumpKept(m, i);
  }

  /** An instruction that arms a jump is never followed by a jump in the same call:
      its own target waits for the next instruction, and it replaces any target
      that was pending. */
  lemma ArmedJumpWaits(m: Machine, i: Opcode)
    requires Apply(m, i).Effect? && Apply(m, i).armsJump
    ensures Execute(m, i) == Executed(Apply(m, i).machine)
  {
  }

  /** BEQ $1, $1, 3 is always taken: it arms a jump three words past the delay
      slot and changes nothing else. */
  lemma BranchOnEqualExample(m: Machine)
    ensures Execute(m, Decode(0x1021_0003))
      == Executed(m.(cpu := Arm(m.cpu, BranchTarget(m.cpu.pc, 3))))
  {
    var beq := Decode(0x1021_0003);
    assert beq.op == 4 && beq.rs == 1 && beq.rt == 1 && beq.offset == 3;
    ConditionalJump(m, beq);
  }

  /** ADDIU $2, $2, 1 in the delay slot of a pending jump: $2 is incremented,
      then PC goes to the pending target. */
  lemma DelaySlotAddExample(m: Machine)
    requires m.cpu.shouldJump
    ensures Execute(m, Decode(0x2442_0001)).Executed?
    ensures Reg(Execute(m, Decode(0x2442_0001)).machine.cpu, 2) == Reg(m.cpu, 2) + 1
    ensures Execute(m, Decode(0x2442_0001)).machine.cpu.pc == m.cpu.jumpPC & 0xFFFF_FFFC
  {
    var addiu := Decode(0x2442_0001);
    assert addiu.op == 9 && addiu.rs == 2 && addiu.rt == 2 && addiu.offset == 1;
    DelaySlot(m, addiu);
  }

  /** ADD and ADDU store `(int32_t)rs + (int32_t)rt` in a `uint32_t`: the sum of
      the signed values modulo 2^32, which is also the sum of the unsigned values
      modulo 2^32. Read back as `int32_t` it is the sum wrapped into 32 bits: ADD
      has no overflow trap. */
  lemma AddWraps(s: bv32, t: bv32, sh: bv5)
    ensures Unsigned(AluResult(32, s, t, sh)) == (Signed(s) + Signed(t)) % WORD_MODULUS
    ensures Unsigned(AluResult(32, s, t, sh)) == (Unsigned(s) + Unsigned(t)) % WORD_MODULUS
    ensures Signed(AluResult(32, s, t, sh)) == Wrap(Signed(s) + Signed(t))
    ensures AluResult(33, s, t, sh) == AluResult(32, s, t, sh)
  {
    AddArms(s, t, sh);
    SignedAdd(s, t);
    AddModulo(s, t);
  }

  lemma AddArms(s: bv32, t: bv32, sh: bv5)
    ensures AluResult(32, s, t, sh) == s + t && AluResult(33, s, t, sh) == s + t
  {
  }

  lemma SubtractArms(s: bv32, t: bv32, sh: bv5)
    ensures AluResult(34, s, t, sh) == s - t && AluResult(35, s, t, sh) == s - t
  {
  }


  /** SUB and SUBU store `(int32_t)rs - (int32_t)rt`: the difference of the signed
      values modulo 2^32 (equally, of the unsigned values), wrapped into 32 bits
      when read back signed; SUB has no overflow trap. */
  lemma SubtractWraps(s: bv32, t: bv32, sh: bv5)
    ensures Unsigned(AluResult(34, s, t, sh)) == (Signed(s) - Signed(t)) % WORD_MODULUS
    ensures Unsigned(AluResult(34, s, t, sh)) == (Unsigned(s) - Unsigned(t)) % WORD_MODULUS
    ensures Signed(AluResult(34, s, t, sh)) == Wrap(Signed(s) - Signed(t))
    ensures AluResult(35, s, t, sh) == AluResult(34, s, t, sh)
  {
    SubtractArms(s, t, sh);
    SignedSubtract(s, t);
    SubtractModulo(s, t);
  }

  /** ADDI and ADDIU add the sign-extended immediate to `rs` modulo 2^32, whether
      `rs` is read signed or unsigned; ADDI has no overflow trap. */
  lemma AddImmediateWraps(op: bv6, imm: bv16, offset: bv32, s: bv32)
    requires op == 8 || op == 9
    ensures Unsigned(ImmediateResult(op, imm, offset, s)) == (Signed(s) + Signed(offset)) % WORD_MODULUS
    ensures Unsigned(ImmediateResult(op, imm, offset, s)) == (Unsigned(s) + Signed(offset)) % WORD_MODULUS
    ensures Signed(ImmediateResult(op, imm, offset, s)) == Wrap(Signed(s) + Signed(offset))
  {
    AddImmediate(s, offset);
  }

  lemma AddImmediate(s: bv32, k: bv32)
    ensures Unsigned(s + k) == (Signed(s) + Signed(k)) % WORD_MODULUS
    ensures Unsigned(s + k) == (Unsigned(s) + Signed(k)) % WORD_MODULUS
    ensures Signed(s + k) == Wrap(Signed(s) + Signed(k))
  {
    SignedAdd(s, k);
    AddModulo(s, k);
    ResidueAdd(Unsigned(s), Signed(k), Unsigned(s), Unsigned(k));
  }

  /** SLLV, SRLV and SRAV (`fun` 4, 6, 7) shift by the low five bits of `rs`: each
      equals the constant shift (`fun` 0, 2, 3) by that amount. */
  lemma VariableShift(fun: bv6, s: bv32, t: bv32, sh: bv5)
    requires fun in {4, 6, 7}
    ensures AluResult(fun, s, t, sh) == AluResult(fun - 4, s, t, (s & 0x1F) as bv5)
  {
  }

  /** SLT writes 1 exactly when `(int32_t)rs < (int32_t)rt`, and 0 otherwise. */
  lemma SetOnLessThan(s: bv32, t: bv32, sh: bv5)
    ensures AluResult(42, s, t, sh) == 1 <==> Signed(s) < Signed(t)
    ensures AluResult(42, s, t, sh) == 0 <==> Signed(t) <= Signed(s)
  {
    SetOnLessArm(s, t, sh);
    LessSignedValues(s, t);
  }

  /** SLTU writes 1 exactly when the unsigned value of `rs` is below that of `rt`,
      and 0 otherwise. */
  lemma SetOnLessThanUnsigned(s: bv32, t: bv32, sh: bv5)
    ensures AluResult(43, s, t, sh) == 1 <==> Unsigned(s) < Unsigned(t)
    ensures AluResult(43, s, t, sh) == 0 <==> Unsigned(t) <= Unsigned(s)
  {
    SetOnLessUnsignedArm(s, t, sh);
    UnsignedOrder(s, t);
  }

  lemma SetOnLessArm(s: bv32, t: bv32, sh: bv5)
    ensures AluResult(42, s, t, sh) == if LessSigned(s, t) then 1 else 0
  {
  }

  lemma SetOnLessUnsignedArm(s: bv32, t: bv32, sh: bv5)
    ensures AluResult(43, s, t, sh) == if s < t then 1 else 0
  {
  }

  /** SLTI writes 1 exactly when `(int32_t)rs` is below the sign-extended
      immediate, and 0 otherwise. */
  lemma SetOnLessThanImmediate(imm: bv16, offset: bv32, s: bv32)
    ensures ImmediateResult(10, imm, offset, s) == 1 <==> Signed(s) < Signed(offset)
    ensures ImmediateResult(10, imm, offset, s) == 0 <==> Signed(offset) <= Signed(s)
  {
    LessSignedValues(s, offset);
  }

  /** SLTIU writes 1 exactly when the unsigned value of `rs` is below that of the
      zero-extended immediate, and 0 otherwise. The extension matters: with
      immediate 0xFFFF, `rs` = 0x10000 is not below 0xFFFF, although it is below
      the sign-extended 0xFFFFFFFF. */
  lemma SetOnLessThanImmediateUnsigned(imm: bv16, offset: bv32, s: bv32)
    ensures ImmediateResult(11, imm, offset, s) == 1 <==> Unsigned(s) < Unsigned(imm as bv32)
    ensures ImmediateResult(11, imm, offset, s) == 0 <==> Unsigned(imm as bv32) <= Unsigned(s)
    ensures ImmediateResult(11, 0xFFFF, SignExtend16(0xFFFF), 0x1_0000) == 0
      && 0x1_0000 < SignExtend16(0xFFFF)
  {
    SetOnLessUnsignedImmediateArm(imm, offset, s);
    BelowImmediateValue(s, imm);
    ZeroExtendedExample();
  }

  lemma BelowImmediateValue(s: bv32, imm: bv16)
    ensures BelowImmediate(s, imm) == 1 <==> Unsigned(s) < Unsigned(imm as bv32)
    ensures BelowImmediate(s, imm) == 0 <==> Unsigned(imm as bv32) <= Unsigned(s)
  {
    BelowWord(s, imm as bv32, BelowImmediate(s, imm));
  }

  lemma BelowWord(s: bv32, k: bv32, r: bv32)
    requires r == if s < k then 1 else 0
    ensures r == 1 <==> Unsigned(s) < Unsigned(k)
    ensures r == 0 <==> Unsigned(k) <= Unsigned(s)
  {
    UnsignedOrder(s, k);
  }

  lemma SetOnLessUnsignedImmediateArm(imm: bv16, offset: bv32, s: bv32)
    ensures ImmediateResult(11, imm, offset, s) == BelowImmediate(s, imm)
  {
  }

  lemma ZeroExtendedExample()
    ensures ImmediateResult(11, 0xFFFF, SignExtend16(0xFFFF), 0x1_0000) == 0
      && 0x1_0000 < SignExtend16(0xFFFF)
  {
    SetOnLessUnsignedImmediateArm(0xFFFF, SignExtend16(0xFFFF), 0x1_0000);
  }

  /** LUI puts the immediate in the high half and zeroes the low half; ORI as
      written keeps only the high half of `rs` and replaces the low half with the
      immediate. */
  lemma UpperAndOr(imm: bv16, offset: bv32, s: bv32)
    ensures ImmediateResult(15, imm, offset, s) >> 16 == imm as bv32 && ImmediateResult(15, imm, offset, s) & 0xFFFF == 0
    ensures ImmediateResult(13, imm, offset, s) >> 16 == s >> 16 && ImmediateResult(13, imm, offset, s) & 0xFFFF == imm as bv32
  {
  }

  /** LUI $1, 0x1234 then ORI $1, $1, 0x5678 loads 0x12345678 into $1. */
  lemma LoadImmediatePair(m: Machine)
    ensures var first := Execute(m, Decode(0x3C01_1234));
      && first.Executed?
      && var second := Execute(first.machine, Decode(0x3421_5678));
      && second.Executed?
      && Reg(second.machine.cpu, 1) == 0x1234_5678
  {
    var lui := Decode(0x3C01_1234);
    assert lui.op == 15 && lui.rt == 1 && lui.imm == 0x1234;
    ExecuteKeepsRegisters(m, lui);
    var first := Execute(m, lui).machine;
    assert Reg(first.cpu, 1) == 0x1234_0000;
    var ori := Decode(0x3421_5678);
    assert ori.op == 13 && ori.rs == 1 && ori.rt == 1 && ori.imm == 0x5678;
    ExecuteKeepsRegisters(first, ori);
  }

  /** Register 0 is an ordinary register: ADDIU $0, $0, 1 increments it. */
  lemma RegisterZeroIsWritable(m: Machine)
    ensures Execute(m, Decode(0x2400_0001)).Executed?
    ensures Reg(Execute(m, Decode(0x2400_0001)).machine.cpu, 0) == Reg(m.cpu, 0) + 1
  {
    var addiu := Decode(0x2400_0001);
    assert addiu.op == 9 && addiu.rs == 0 && addiu.rt == 0 && addiu.offset == 1;
  }

  /** Any 32-bit value widened to 64 bits has a zero high word. */
  lemma Widened(x: bv32)
    ensures (x as bv64 >> 32) as bv32 == 0
    ensures (x as bv64 & 0xFFFF_FFFF) as bv32 == x
  {
  }

  /** MULT forms the product in 32 bits, so HI is always 0 and LO is the
      wrapped product. */
  lemma MultiplyHighIsZero(a: bv32, b: bv32)
    ensures Multiply(a, b).0 == 0
    ensures Multiply(a, b).1 == a * b
  {
    Widened(a * b);
  }

  /** DIV by a nonzero divisor leaves in LO and HI the C++ quotient and remainder
      of the signed values, which satisfy the division identity. */
  lemma SignedDivision(a: bv32, b: bv32)
    requires b != 0
    ensures var n, d := Signed(a), Signed(b);
      && d != 0
      && DivideSigned(a, b) == (FromInt(TruncRem(n, d)), FromInt(TruncDiv(n, d)))
      && n == d * TruncDiv(n, d) + TruncRem(n, d)
      && Abs(TruncRem(n, d)) < Abs(d)
  {
    UnsignedZero(b);
    TruncDivision(Signed(a), Signed(b));
  }

  /** Division by zero: HI is the dividend; LO is -1 for DIVU and for a
      non-negative DIV dividend, 1 for a negative one. */
  lemma DivideByZero(a: bv32)
    ensures DivideUnsigned(a, 0) == (a, 0xFFFF_FFFF)
    ensures DivideSigned(a, 0) == (a, if a & 0x8000_0000 == 0 then 0xFFFF_FFFF else 1)
  {
    UnsignedZero(0);
  }

  /** MTLO and MTHI read the register named by `rd`; MFLO and MFHI write `rd`, so
      moving a register to LO or HI and back copies it. */
  lemma MoveThroughHiLo(c: Cpu, to: Opcode, from: Opcode)
    requires (to.fun == 19 && from.fun == 18) || (to.fun == 17 && from.fun == 16)
    ensures Reg(HiLo(HiLo(c, to), from), from.rd) == Reg(c, to.rd)
  {
  }

  /** MTC0 writes COP0 and MFC0 reads it back; writing the status register sets the
      cache-isolate flag exactly when bit 16 is set; `rs` other than 0 and 4
      changes nothing. */
  lemma Coprocessor0(m: Machine, i: Opcode)
    requires i.op == 16
    ensures i.rs == 4 ==> Apply(m, i).machine.cpu.cop0[i.rd as int] == Reg(m.cpu, i.rt)
    ensures i.rs == 4 && i.rd == STATUS ==>
      (Apply(m, i).machine.isolated <==> Reg(m.cpu, i.rt) & 0x1_0000 != 0)
    ensures i.rs == 4 && i.rd != STATUS ==> Apply(m, i).machine.isolated == m.isolated
    ensures i.rs == 0 ==> Reg(Apply(m, i).machine.cpu, i.rt) == m.cpu.cop0[i.rd as int]
    ensures i.rs != 0 && i.rs != 4 ==> Apply(m, i) == Effect(m, false)
  {
  }

  /** While the cache is isolated, SB, SH and SW leave RAM unchanged. */
  lemma IsolatedStores(m: Machine, i: Opcode)
    requires i.op in {40, 41, 43} && m.isolated
    ensures Apply(m, i).machine.mem.ram == m.mem.ram
    ensures Apply(m, i).machine.cpu == m.cpu
  {
    BusProperties.IsolatedRamIsFrozen(m.mem, EffectiveAddress(Reg(m.cpu, i.rs), i), Reg(m.cpu, i.rt));
  }

  /** SYSCALL fetched with no jump pending: EPC holds the address after the
      SYSCALL, the cause register 0x20, and execution goes to 0x80000080. */
  lemma SyscallStep(m: Machine)
    requires Fetch(m) == 0x0000_000C && !m.cpu.shouldJump
    ensures Step(m).Continue?
    ensures Step(m).machine.cpu.cop0[EPC as int] == m.cpu.pc + 4
    ensures Step(m).machine.cpu.cop0[CAUSE as int] == 0x20
    ensures Step(m).machine.cpu.pc == 0x8000_0080
  {
    var i := Decode(0x0000_000C);
    assert i.op == 0 && i.fun == 12;
  }

  /** SYSCALL in the delay slot of a pending jump still writes EPC and the cause
      register as above; the pending jump is then taken (`DelaySlot`), so PC ends
      at the jump target rather than at the exception vector. */
  lemma SyscallInDelaySlot(m: Machine)
    requires Fetch(m) == 0x0000_000C && m.cpu.shouldJump
    ensures Step(m).Continue?
    ensures Step(m).machine.cpu.cop0[EPC as int] == m.cpu.pc + 4
    ensures Step(m).machine.cpu.cop0[CAUSE as int] == 0x20
  {
    var advanced := Advance(m);
    var i := Decode(0x0000_000C);
    assert i.op == 0 && i.fun == 12;
    assert Apply(advanced, i) == Effect(advanced.(cpu := Syscall(advanced.cpu)), false);
    DelaySlot(advanced, i);
    StepExecutes(m);
    SyscallWrites(advanced.cpu);
  }

  /** `Syscall` on the processor alone: EPC, the cause register and PC. */
  lemma SyscallWrites(c: Cpu)
    ensures Syscall(c).cop0[EPC as int] == c.pc
    ensures Syscall(c).cop0[CAUSE as int] == SYSCALL_CAUSE
    ensures Syscall(c).pc == EXCEPTION_VECTOR
  {
  }

  /** JAL fetched from address `a` runs on the machine whose PC is already `a + 4`
      and arms its jump there: the step is that jump and nothing more, with no
      pending target taken in the same call. */
  lemma JalStep(m: Machine)
    requires Decode(Fetch(m)).op == 3
    ensures Step(m) == Continue(Advance(m).(cpu := Jump(Advance(m).cpu, Decode(Fetch(m)))))
  {
    var advanced := Advance(m);
    var i := Decode(Fetch(m));
    var jumped := advanced.(cpu := Jump(advanced.cpu, i));
    assert Apply(advanced, i) == Effect(jumped, true);
    ArmedJumpWaits(advanced, i);
  }

  /** A step whose instruction is executed continues with the executed machine. */
  lemma StepExecutes(m: Machine)
    requires Execute(Advance(m), Decode(Fetch(m))).Executed?
    ensures Step(m) == Continue(Execute(Advance(m), Decode(Fetch(m))).machine)
  {
  }

  /** Whether or not a pending jump is then taken, an executed instruction leaves
      the registers its own effect produced. */
  lemma ExecuteKeepsRegisters(m: Machine, i: Opcode)
    requires Apply(m, i).Effect?
    ensures Execute(m, i).Executed?
    ensures Execute(m, i).machine.cpu.reg == Apply(m, i).machine.cpu.reg
  {
    if Apply(m, i).armsJump {
      ArmedJumpWaits(m, i);
    } else {
      DelaySlot(m, i);
    }
  }

  lemma AfterDelaySlot(pc: bv32)
    ensures (pc + 4) + 4 == pc + 8
  {
  }

  /** `Jump` for JAL: the link and the armed jump, on the processor alone. */
  lemma JumpLinks(c: Cpu, i: Opcode)
    requires i.op == 3
    ensures Jump(c, i).reg == c.reg[31 := c.pc + 4]
    ensures Jump(c, i).pc == c.pc && Jump(c, i).shouldJump
  {
  }

  /** JAL fetched from address `a` puts `a + 8`, the address after its delay
      slot, in `$ra` and changes no other register. */
  lemma JalLinks(m: Machine)
    requires Decode(Fetch(m)).op == 3
    ensures Step(m).Continue?
    ensures Step(m).machine.cpu.reg == m.cpu.reg[31 := m.cpu.pc + 8]
  {
    var advanced := Advance(m);
    var i := Decode(Fetch(m));
    assert Apply(advanced, i) == Effect(advanced.(cpu := Jump(advanced.cpu, i)), true);
    ArmedJumpWaits(advanced, i);
    JumpLinks(advanced.cpu, i);
    StepExecutes(m);
    AfterDelaySlot(m.cpu.pc);
  }

  /** JALR fetched from address `a` puts `a + 8`, the address after its delay
      slot, in `rd` and changes no other register, and arms a jump to the value
      `rs` held before the step. */
  lemma JalrLinks(m: Machine)
    requires Decode(Fetch(m)).op == 0 && Decode(Fetch(m)).fun == 9
    ensures Step(m).Continue?
    ensures Step(m).machine.cpu.reg == m.cpu.reg[Decode(Fetch(m)).rd as int := m.cpu.pc + 8]
    ensures Step(m).machine.cpu.shouldJump
    ensures Step(m).machine.cpu.jumpPC == Reg(m.cpu, Decode(Fetch(m)).rs)
  {
    var advanced := Advance(m);
    var i := Decode(Fetch(m));
    RegisterJumps(advanced, i);
    ArmedJumpWaits(advanced, i);
    StepExecutes(m);
    AfterDelaySlot(m.cpu.pc);
  }

  /** BGEZAL fetched from address `a` puts `a + 8` in `$ra` and no other register,
      whether or not it branches and whether or not a jump was pending. */
  lemma BranchLinks(m: Machine)
    requires Decode(Fetch(m)).op == 1 && Decode(Fetch(m)).rt == 17
    ensures Step(m).Continue?
    ensures Step(m).machine.cpu.reg == m.cpu.reg[31 := m.cpu.pc + 8]
  {
    var advanced := Advance(m);
    var i := Decode(Fetch(m));
    ConditionalJump(advanced, i);
    BranchEffect(advanced.cpu, i);
    ExecuteKeepsRegisters(advanced, i);
    StepExecutes(m);
    AfterDelaySlot(m.cpu.pc);
  }

  /** The loop stops exactly on an encoding without a case, reporting the address
      it was fetched from and the raw word; the machine is then only advanced. */
  lemma HaltReport(m: Machine)
    ensures Step(m).Halt? <==> !Implemented(Decode(Fetch(m)))
    ensures Step(m).Halt? ==>
      Step(m) == Halt(Advance(m), m.cpu.pc, Fetch(m))
  {
    UnknownExactly(Advance(m), Decode(Fetch(m)));
  }

  /** What a halting step reports: an unimplemented word, fetched from just
      before the PC of the machine it returns. */
  predicate ReportsUnknown(r: StepResult)
    requires r.Halt?
  {
    !Implemented(Decode(r.word)) && r.machine.cpu.pc == r.at + 4
  }

  /** Whatever the loop body, a run that stops early stops with what the body
      reported when it halted. */
  lemma {:induction false} LoopStopsAsReported(step: Machine -> StepResult, m: Machine, fuel: nat)
    requires forall x :: step(x).Halt? ==> ReportsUnknown(step(x))
    requires Loop(step, m, fuel).1.UnknownInstruction?
    ensures var (last, stop) := Loop(step, m, fuel);
      ReportsUnknown(Halt(last, stop.pc, stop.word))
    decreases fuel
  {
    if step(m).Continue? {
      LoopStopsAsReported(step, step(m).machine, fuel - 1);
    }
  }

  /** A run that stops on an unknown instruction reports an unimplemented word, and
      the machine it returns has PC just past that word. */
  lemma RunReportsUnknown(m: Machine, fuel: nat)
    requires Run(m, fuel).1.UnknownInstruction?
    ensures !Implemented(Decode(Run(m, fuel).1.word))
    ensures Run(m, fuel).0.cpu.pc == Run(m, fuel).1.pc + 4
  {
    forall x | Step(x).Halt?
      ensures ReportsUnknown(Step(x))
    {
      HaltReport(x);
    }
    LoopStopsAsReported(Step, m, fuel);
  }

  /** Whatever the loop body, `a` iterations that spend all their fuel followed by
      `b` more are `a + b` iterations. */
  lemma {:induction false} LoopsCompose(step: Machine -> StepResult, m: Machine, a: nat, b: nat)
    requires Loop(step, m, a).1 == FuelSpent
    ensures Loop(step, m, a + b) == Loop(step, Loop(step, m, a).0, b)
    decreases a
  {
    if a > 0 {
      LoopsCompose(step, step(m).machine, a - 1, b);
    }
  }

  /** Runs of the main loop compose the same way. */
  lemma RunsCompose(m: Machine, a: nat, b: nat)
    requires Run(m, a).1 == FuelSpent
    ensures Run(m, a + b) == Run(Run(m, a).0, b)
  {
    LoopsCompose(Step, m, a, b);
  }
}
