/** `executeInstruction` as a function of the machine state: the effect of one
    decoded instruction on the registers, HI/LO, COP0, the pending jump, the bus
    buffers and the cache-isolate flag; then the fetch/advance/execute step of the
    main loop and the loop itself. Quirks of the interpreter are kept as they are. */
module Executor {
  import opened Bits
  import opened WordValue
  import opened Bus
  import opened Decoder

  /** 32 words: the general registers, or the COP0 bank. */
  type RegisterFile = s: seq<bv32> | |s| == 32 witness seq(32, _ => 0)

  const RESET_VECTOR: bv32 := 0xBFC0_0000
  const EXCEPTION_VECTOR: bv32 := 0x8000_0080
  /** The cause code the interpreter stores for SYSCALL (`8 << 2`). */
  const SYSCALL_CAUSE: bv32 := 0x20
  /** The cache-isolate bit of the COP0 status register. */
  const ISOLATE_CACHE: bv32 := 0x1_0000
  const STATUS: bv5 := 12
  const CAUSE: bv5 := 13
  const EPC: bv5 := 14
  /** The link register of JAL and BGEZAL. */
  const RA: bv5 := 31

  /** The `CPU` record. */
  datatype Cpu = Cpu(
    pc: bv32,
    jumpPC: bv32,
    shouldJump: bool,
    reg: RegisterFile,
    cop0: RegisterFile,
    hi: bv32,
    lo: bv32)

  /** The state the `CPU` constructor builds. */
  function Reset(): Cpu
  {
    Cpu(RESET_VECTOR, 0, false, seq(32, _ => 0), seq(32, _ => 0), 0, 0)
  }

  /** Everything an instruction can read or change. */
  datatype Machine = Machine(cpu: Cpu, mem: Memory, isolated: bool)

  /** What one instruction did before the pending jump is considered: the new state
      and whether it armed a jump itself (the interpreter's `!isJumpCycle`), or that
      its encoding is not implemented. */
  datatype Effect = Effect(machine: Machine, armsJump: bool) | NotImplemented

  /** What `executeInstruction` returns: true with the new state, or false. */
  datatype Outcome = Executed(machine: Machine) | Unknown

  function Reg(c: Cpu, r: bv5): bv32
  {
    c.reg[r as int]
  }

  function SetReg(c: Cpu, r: bv5, v: bv32): Cpu
  {
    c.(reg := c.reg[r as int := v])
  }

  function Arm(c: Cpu, target: bv32): Cpu
  {
    c.(shouldJump := true, jumpPC := target)
  }

  /** The target of a conditional branch: the already-advanced PC plus the offset in
      words, OR-ed with the PC's top four bits. */
  function BranchTarget(pc: bv32, offset: bv32): bv32
  {
    (pc & 0xF000_0000) | (pc + (offset << 2))
  }

  /** The target of J and JAL: the PC's top four bits and the 26-bit word index. */
  function JumpTarget(pc: bv32, target: bv26): bv32
  {
    (pc & 0xF000_0000) | (target as bv32 << 2)
  }

  /** J and JAL: arm a jump to the word index within the PC's 256 MiB segment; JAL
      also puts the address after the delay slot in `$ra`. */
  function Jump(c: Cpu, i: Opcode): Cpu
    requires i.op == 2 || i.op == 3
  {
    var armed := Arm(c, JumpTarget(c.pc, i.target));
    if i.op == 3 then SetReg(armed, RA, c.pc + 4) else armed
  }

  /** The conditional jumps: BEQ, BNE, BLEZ, BGTZ, and BLTZ, BGEZ, BGEZAL of the
      REGIMM group (opcode 1, selected by `rt`). */
  predicate IsConditional(i: Opcode)
  {
    i.op in {4, 5, 6, 7} || (i.op == 1 && i.rt in {0, 1, 17})
  }

  /** Whether a conditional jump is taken, given the values of `rs` and `rt`. BGTZ
      compares the unsigned value with zero; BLEZ tests zero or the sign bit. */
  function Condition(i: Opcode, s: bv32, t: bv32): bool
    requires IsConditional(i)
  {
    if i.op == 4 then t == s
    else if i.op == 5 then t != s
    else if i.op == 7 then s > 0
    else if i.op == 6 then s == 0 || s & 0x8000_0000 != 0
    else if i.rt == 0 then s & 0x8000_0000 != 0
    else s & 0x8000_0000 == 0
  }

  /** BGEZAL writes the link register before anything else; the other conditional
      jumps leave the registers alone. */
  function Linked(c: Cpu, i: Opcode): Cpu
  {
    if i.op == 1 && i.rt == 17 then SetReg(c, RA, c.pc + 4) else c
  }

  /** Whether a conditional jump is taken, reading the registers after the link. */
  function BranchTaken(c: Cpu, i: Opcode): bool
    requires IsConditional(i)
  {
    var linked := Linked(c, i);
    Condition(i, Reg(linked, i.rs), Reg(linked, i.rt))
  }

  /** A conditional jump: the link, then the target armed when the condition holds. */
  function ConditionalBranch(c: Cpu, i: Opcode): Cpu
    requires IsConditional(i)
  {
    var linked := Linked(c, i);
    if BranchTaken(c, i) then Arm(linked, BranchTarget(c.pc, i.offset)) else linked
  }

  /** J, JAL, BEQ, BNE, BLEZ, BGTZ and the REGIMM group (BLTZ, BGEZ, BGEZAL); any
      other REGIMM `rt` is not implemented. */
  function JumpOrBranch(m: Machine, i: Opcode): Effect
    requires 1 <= i.op <= 7
  {
    if i.op == 2 || i.op == 3 then Effect(m.(cpu := Jump(m.cpu, i)), true)
    else if IsConditional(i) then Effect(m.(cpu := ConditionalBranch(m.cpu, i)), BranchTaken(m.cpu, i))
    else NotImplemented
  }

  /** The value an immediate-form ALU instruction (opcodes 8-15) writes to `rt`,
      given the value of `rs` and the instruction's immediate, both as written
      (`imm`) and sign-extended (`offset`). */
  function ImmediateResult(op: bv6, imm: bv16, offset: bv32, s: bv32): bv32
    requires 8 <= op <= 15
  {
    if op == 8 || op == 9 then s + offset
    else if op == 10 || op == 11 then SetOnLessImmediate(op, imm, offset, s)
    else LogicalImmediate(op, imm, s)
  }

  /** SLTI compares with the sign-extended immediate as signed values; SLTIU
      compares with the zero-extended immediate as unsigned values. */
  function SetOnLessImmediate(op: bv6, imm: bv16, offset: bv32, s: bv32): bv32
    requires op == 10 || op == 11
  {
    if op == 10 then (if LessSigned(s, offset) then 1 else 0)
    else BelowImmediate(s, imm)
  }

  /** SLTIU's result: 1 when `s` is below the zero-extended immediate, as
      unsigned values. */
  function BelowImmediate(s: bv32, imm: bv16): bv32
  {
    if s < imm as bv32 then 1 else 0
  }

  /** ANDI, ORI, XORI and LUI, all on the zero-extended immediate. ORI keeps only
      the high half of `rs`, as the interpreter writes it. */
  function LogicalImmediate(op: bv6, imm: bv16, s: bv32): bv32
    requires 12 <= op <= 15
  {
    if op == 12 then s & imm as bv32
    else if op == 13 then (s & 0xFFFF_0000) | imm as bv32
    else if op == 14 then s ^ imm as bv32
    else imm as bv32 << 16
  }

  /** The address of a load or store: base register plus signed offset, wrapping. */
  function EffectiveAddress(base: bv32, i: Opcode): Address
  {
    AddressOf(base + i.offset)
  }

  /** The value a load (LB, LH, LW, LBU, LHU) writes to `rt`. */
  function LoadResult(mem: Memory, i: Opcode, a: Address): bv32
    requires i.op in {32, 33, 35, 36, 37}
  {
    if i.op == 32 then SignExtend8(ReadByte(mem, a))
    else if i.op == 36 then ReadByte(mem, a) as bv32
    else if i.op == 35 then ReadWord(mem, a)
    else if i.op == 33 then SignExtend16(ReadHalf(mem, a))
    else ReadHalf(mem, a) as bv32
  }

  /** SB, SH and SW: the low byte, half-word or whole word of `rt` goes to the bus
      at `base` plus the offset. */
  function Store(mem: Memory, isolated: bool, i: Opcode, base: bv32, v: bv32): Memory
    requires i.op in {40, 41, 43}
  {
    var a := EffectiveAddress(base, i);
    if i.op == 40 then WriteByte(mem, isolated, a, (v & 0xFF) as bv8)
    else if i.op == 41 then WriteHalf(mem, isolated, a, (v & 0xFFFF) as bv16)
    else WriteWord(mem, isolated, a, v)
  }

  /** MFC0 (`rs` = 0) and MTC0 (`rs` = 4); any other `rs` changes nothing. */
  function Cop0(m: Machine, i: Opcode): Machine
  {
    var c := m.cpu;
    if i.rs == 0 then
      m.(cpu := SetReg(c, i.rt, c.cop0[i.rd as int]))
    else if i.rs == 4 then
      var v := Reg(c, i.rt);
      var written := m.(cpu := c.(cop0 := c.cop0[i.rd as int := v]));
      if i.rd == STATUS then written.(isolated := v & ISOLATE_CACHE != 0) else written
    else
      m
  }

  /** `MULT` as written: the product is formed in 32 bits and only then widened. */
  function Multiply(a: bv32, b: bv32): (bv32, bv32)
  {
    var product := (a * b) as bv64;
    ((product >> 32) as bv32, (product & 0xFFFF_FFFF) as bv32)
  }

  /** `DIV`: the C++ truncating quotient and remainder of the signed values, as
      (HI, LO). C++ leaves division by zero undefined; the model then gives what
      the console's CPU gives: LO is -1 for a non-negative dividend and 1 for a
      negative one, HI is the dividend. */
  function DivideSigned(a: bv32, b: bv32): (bv32, bv32)
  {
    var n, d := Signed(a), Signed(b);
    if d == 0 then (a, if n >= 0 then 0xFFFF_FFFF else 1)
    else (FromInt(TruncRem(n, d)), FromInt(TruncDiv(n, d)))
  }

  /** `DIVU`: unsigned quotient and remainder as (HI, LO); division by zero, left
      undefined by C++, gives the console CPU's LO = 0xFFFFFFFF and HI = dividend. */
  function DivideUnsigned(a: bv32, b: bv32): (bv32, bv32)
  {
    if b == 0 then (a, 0xFFFF_FFFF) else (a % b, a / b)
  }

  /** JR and JALR: arm a jump to the address in `rs`, which is read before JALR
      writes the return address to `rd`. */
  function RegisterJump(c: Cpu, i: Opcode): Cpu
    requires i.fun == 8 || i.fun == 9
  {
    var armed := Arm(c, Reg(c, i.rs));
    if i.fun == 9 then SetReg(armed, i.rd, c.pc + 4) else armed
  }

  /** SYSCALL: EPC gets the (already advanced) PC, the cause register the syscall
      code, and execution continues at the exception vector. */
  function Syscall(c: Cpu): Cpu
  {
    c.(cop0 := c.cop0[EPC as int := c.pc][CAUSE as int := SYSCALL_CAUSE], pc := EXCEPTION_VECTOR)
  }

  /** The instructions that use HI and LO: MULT, DIV, DIVU, MFHI, MFLO, MTHI, MTLO. */
  predicate IsHiLo(fun: bv6)
  {
    fun in {16, 17, 18, 19, 24, 26, 27}
  }

  /** MULT, DIV and DIVU set (HI, LO); MFHI and MFLO copy them to `rd`; MTHI and
      MTLO read the register named by `rd`, as the interpreter does. */
  function HiLo(c: Cpu, i: Opcode): Cpu
    requires IsHiLo(i.fun)
  {
    var s, t := Reg(c, i.rs), Reg(c, i.rt);
    if i.fun == 24 then c.(hi := Multiply(s, t).0, lo := Multiply(s, t).1)
    else if i.fun == 26 then c.(hi := DivideSigned(s, t).0, lo := DivideSigned(s, t).1)
    else if i.fun == 27 then c.(hi := DivideUnsigned(s, t).0, lo := DivideUnsigned(s, t).1)
    else if i.fun == 16 then SetReg(c, i.rd, c.hi)
    else if i.fun == 18 then SetReg(c, i.rd, c.lo)
    else if i.fun == 19 then c.(lo := Reg(c, i.rd))
    else c.(hi := Reg(c, i.rd))
  }

  /** The all-zero SLL the interpreter treats as a no-op. */
  predicate IsNop(i: Opcode)
  {
    i.fun == 0 && i.rt == 0 && i.rd == 0 && i.sh == 0
  }

  /** The register-form ALU and shift instructions. */
  predicate IsAlu(fun: bv6)
  {
    fun in {0, 2, 3, 4, 6, 7, 32, 33, 34, 35, 36, 37, 38, 39, 42, 43}
  }

  /** The value a register-form ALU or shift instruction writes to `rd`. ADD and SUB
      wrap exactly like ADDU and SUBU; variable shifts use the low five bits of `rs`. */
  function AluResult(fun: bv6, s: bv32, t: bv32, sh: bv5): bv32
    requires IsAlu(fun)
  {
    if fun == 32 || fun == 33 then s + t
    else if fun == 34 || fun == 35 then s - t
    else if fun == 36 then s & t
    else if fun == 37 then s | t
    else if fun == 38 then s ^ t
    else if fun == 39 then !(s | t)
    else if fun == 42 then (if LessSigned(s, t) then 1 else 0)
    else if fun == 43 then (if s < t then 1 else 0)
    else if fun == 0 then t << sh
    else if fun == 2 then t >> sh
    else if fun == 3 then ShiftRightArithmetic(t, sh)
    else if fun == 4 then t << (s & 0x1F)
    else if fun == 6 then t >> (s & 0x1F)
    else ShiftRightArithmetic(t, (s & 0x1F) as bv5)
  }

  /** Whether the SPECIAL group implements `fun` (the no-op SLL is an SLL). */
  predicate IsSpecial(fun: bv6)
  {
    fun in {8, 9, 12} || IsHiLo(fun) || IsAlu(fun)
  }

  /** The SPECIAL group (opcode 0), selected by `fun`, on the processor alone. */
  function Special(c: Cpu, i: Opcode): Cpu
    requires IsSpecial(i.fun)
  {
    if i.fun == 8 || i.fun == 9 then RegisterJump(c, i)
    else if i.fun == 12 then Syscall(c)
    else if IsHiLo(i.fun) then HiLo(c, i)
    else if IsNop(i) then c
    else SetReg(c, i.rd, AluResult(i.fun, Reg(c, i.rs), Reg(c, i.rt), i.sh))
  }

  /** The instruction's own effect, dispatched on the opcode. */
  function Apply(m: Machine, i: Opcode): Effect
  {
    if 1 <= i.op <= 7 then JumpOrBranch(m, i)
    else if 8 <= i.op <= 15 then
      Effect(m.(cpu := SetReg(m.cpu, i.rt, ImmediateResult(i.op, i.imm, i.offset, Reg(m.cpu, i.rs)))), false)
    else if i.op in {32, 33, 35, 36, 37} then
      var value := LoadResult(m.mem, i, EffectiveAddress(Reg(m.cpu, i.rs), i));
      Effect(m.(cpu := SetReg(m.cpu, i.rt, value)), false)
    else if i.op in {40, 41, 43} then
      Effect(m.(mem := Store(m.mem, m.isolated, i, Reg(m.cpu, i.rs), Reg(m.cpu, i.rt))), false)
    else if i.op == 16 then Effect(Cop0(m, i), false)
    else if i.op == 0 && IsSpecial(i.fun) then
      Effect(m.(cpu := Special(m.cpu, i)), i.fun == 8 || i.fun == 9)
    else NotImplemented
  }

  /** Applying the pending jump: PC gets the target rounded down to a word. */
  function TakeJump(c: Cpu): Cpu
  {
    c.(pc := c.jumpPC & 0xFFFF_FFFC, jumpPC := 0, shouldJump := false)
  }

  /** `executeInstruction`: the instruction's effect, then the jump armed by an
      earlier instruction unless this one armed a jump itself. */
  function Execute(m: Machine, i: Opcode): Outcome
  {
    match Apply(m, i)
    case NotImplemented => Unknown
    case Effect(next, armsJump) =>
      Executed(if next.cpu.shouldJump && !armsJump then next.(cpu := TakeJump(next.cpu)) else next)
  }

  /** One iteration of the main loop, or the stop it reports. */
  datatype StepResult = Continue(machine: Machine) | Halt(machine: Machine, at: bv32, word: bv32)

  /** Fetch the word at PC, advance PC by 4, execute; an unknown instruction stops
      the loop with the address it was fetched from (PC - 4) and its raw word. */
  function Step(m: Machine): StepResult
  {
    var word := Fetch(m);
    var advanced := Advance(m);
    match Execute(advanced, Decode(word))
    case Executed(next) => Continue(next)
    case Unknown => Halt(advanced, advanced.cpu.pc - 4, word)
  }

  /** The word at PC. */
  function Fetch(m: Machine): bv32
  {
    ReadWord(m.mem, AddressOf(m.cpu.pc))
  }

  /** `PC += 4`, before the fetched instruction runs. */
  function Advance(m: Machine): Machine
  {
    m.(cpu := m.cpu.(pc := m.cpu.pc + 4))
  }

  /** Why a bounded run ended. */
  datatype Stop = FuelSpent | UnknownInstruction(pc: bv32, word: bv32)

  /** `fuel` iterations of a loop whose body is `step`, or fewer if `step` halts. */
  function Loop(step: Machine -> StepResult, m: Machine, fuel: nat): (Machine, Stop)
    decreases fuel
  {
    if fuel == 0 then (m, FuelSpent)
    else
      match step(m)
      case Continue(next) => Loop(step, next, fuel - 1)
      case Halt(last, at, word) => (last, UnknownInstruction(at, word))
  }

  /** `fuel` iterations of the main loop, or fewer if an unknown instruction stops it. */
  function Run(m: Machine, fuel: nat): (Machine, Stop)
  {
    Loop(Step, m, fuel)
  }
}
