/** The interpreter as it runs: a `CPU` object whose register arrays and scalar
    fields `executeInstruction` updates in place, against the bus object, proved
    step for step against the functions of `Executor`. */
module Interpreter {
  import opened Bits
  import opened Bus
  import opened Decoder
  import opened Executor

  class Processor {
    var pc: bv32
    var jumpPC: bv32
    var shouldJump: bool
    const reg: array<bv32>
    const cop0: array<bv32>
    var hi: bv32
    var lo: bv32

    ghost predicate Valid()
      reads this
    {
      reg.Length == 32 && cop0.Length == 32 && reg != cop0
    }

    /** The processor's fields as a value. */
    function State(): Cpu
      reads this, reg, cop0
      requires Valid()
    {
      Cpu(pc, jumpPC, shouldJump, reg[..], cop0[..], hi, lo)
    }

    /** The processor together with the bus it drives. */
    function Snapshot(bus: MemoryBus): Machine
      reads this, reg, cop0, bus, bus.ram, bus.expansion, bus.scratchpad, bus.io, bus.bios
      requires Valid() && bus.Valid()
    {
      Machine(State(), bus.Contents(), bus.isolated)
    }

    /** The `CPU` constructor: PC at the BIOS entry, everything else zero. */
    constructor ()
      ensures Valid() && State() == Reset()
      ensures fresh(reg) && fresh(cop0)
    {
      pc := RESET_VECTOR;
      jumpPC := 0;
      shouldJump := false;
      reg := new bv32[32](_ => 0);
      cop0 := new bv32[32](_ => 0);
      hi := 0;
      lo := 0;
    }

    /** The main loop, for at most `fuel` iterations: it stops early, reporting
        the address and word fetched, at the first instruction it does not know. */
    method Run(bus: MemoryBus, fuel: nat) returns (stop: Stop)
      requires Valid() && bus.Valid()
      modifies this, reg, cop0, bus`isolated, bus.ram, bus.expansion, bus.scratchpad
      ensures (Snapshot(bus), stop) == Executor.Run(old(Snapshot(bus)), fuel)
    {
      var n := fuel;
      while n > 0
        invariant Valid() && bus.Valid()
        invariant Executor.Run(Snapshot(bus), n) == Executor.Run(old(Snapshot(bus)), fuel)
        decreases n
      {
        var ok, at, word := Step(bus);
        if !ok {
          return UnknownInstruction(at, word);
        }
        n := n - 1;
      }
      return FuelSpent;
    }

    /** One iteration of the main loop: fetch the word at PC, advance PC, execute. */
    method Step(bus: MemoryBus) returns (ok: bool, at: bv32, word: bv32)
      requires Valid() && bus.Valid()
      modifies this, reg, cop0, bus`isolated, bus.ram, bus.expansion, bus.scratchpad
      ensures ok ==> Executor.Step(old(Snapshot(bus))) == Continue(Snapshot(bus))
      ensures !ok ==> Executor.Step(old(Snapshot(bus))) == Halt(Snapshot(bus), at, word)
    {
      word := ReadWord(bus.Contents(), AddressOf(pc));
      AdvancePC(bus);
      ok := Execute(bus, Decode(word));
      at := pc - 4;
    }

    /** `PC += 4` after the fetch. */
    method AdvancePC(bus: MemoryBus)
      requires Valid() && bus.Valid()
      modifies this
      ensures Snapshot(bus) == Advance(old(Snapshot(bus)))
    {
      pc := pc + 4;
    }

    /** `executeInstruction`: one instruction, then the pending jump unless this
        instruction armed one; false, with nothing changed, for an unknown encoding. */
    method Execute(bus: MemoryBus, i: Opcode) returns (ok: bool)
      requires Valid() && bus.Valid()
      modifies this, reg, cop0, bus`isolated, bus.ram, bus.expansion, bus.scratchpad
      ensures ok == Executor.Execute(old(Snapshot(bus)), i).Executed?
      ensures ok ==> Snapshot(bus) == Executor.Execute(old(Snapshot(bus)), i).machine
      ensures !ok ==> Snapshot(bus) == old(Snapshot(bus))
    {
      var armed;
      ok, armed := Apply(bus, i);
      if ok && shouldJump && !armed {
        ResolveJump();
      }
    }

    /** The instruction's own effect, dispatched on the opcode. */
    method Apply(bus: MemoryBus, i: Opcode) returns (ok: bool, armed: bool)
      requires Valid() && bus.Valid()
      modifies this, reg, cop0, bus`isolated, bus.ram, bus.expansion, bus.scratchpad
      ensures var e := Executor.Apply(old(Snapshot(bus)), i);
        if e.NotImplemented? then !ok && Snapshot(bus) == old(Snapshot(bus))
        else ok && e == Effect(Snapshot(bus), armed)
    {
      if i.op in {16, 32, 33, 35, 36, 37, 40, 41, 43} {
        ApplyBusAccess(bus, i);
        ok, armed := true, false;
      } else {
        ok, armed := ApplyRegisters(bus, i);
      }
    }

    /** The loads, the stores and the COP0 moves: the instructions that use the bus. */
    method ApplyBusAccess(bus: MemoryBus, i: Opcode)
      requires Valid() && bus.Valid() && i.op in {16, 32, 33, 35, 36, 37, 40, 41, 43}
      modifies reg, cop0, bus`isolated, bus.ram, bus.expansion, bus.scratchpad
      ensures Executor.Apply(old(Snapshot(bus)), i) == Effect(Snapshot(bus), false)
    {
      if i.op in {32, 33, 35, 36, 37} {
        Load(bus, i);
      } else if i.op in {40, 41, 43} {
        Store(bus, i);
      } else {
        Cop0(bus, i);
      }
    }

    /** The instructions that change only the processor. */
    method ApplyRegisters(bus: MemoryBus, i: Opcode) returns (ok: bool, armed: bool)
      requires Valid() && bus.Valid() && i.op !in {16, 32, 33, 35, 36, 37, 40, 41, 43}
      modifies this, reg, cop0
      ensures var e := Executor.Apply(old(Snapshot(bus)), i);
        if e.NotImplemented? then !ok && Snapshot(bus) == old(Snapshot(bus))
        else ok && e == Effect(Snapshot(bus), armed)
    {
      ok, armed := true, false;
      if 1 <= i.op <= 7 {
        ok, armed := JumpOrBranch(i);
      } else if 8 <= i.op <= 15 {
        Immediate(i);
      } else if i.op == 0 && IsSpecial(i.fun) {
        Special(i);
        armed := i.fun == 8 || i.fun == 9;
      } else {
        ok := false;
      }
    }

    /** The end of `executeInstruction`: PC takes the armed target rounded down to a
        word, and the jump is disarmed. */
    method ResolveJump()
      requires Valid()
      modifies this
      ensures State() == TakeJump(old(State()))
    {
      pc, jumpPC, shouldJump := jumpPC & 0xFFFF_FFFC, 0, false;
    }

    /** J, JAL, the conditional branches and the REGIMM group. */
    method JumpOrBranch(i: Opcode) returns (ok: bool, armed: bool)
      requires Valid() && 1 <= i.op <= 7
      modifies this, reg
      ensures ok == (i.op == 2 || i.op == 3 || IsConditional(i))
      ensures ok ==> armed == (i.op == 2 || i.op == 3 || BranchTaken(old(State()), i))
      ensures State() == if i.op == 2 || i.op == 3 then Executor.Jump(old(State()), i)
        else if ok then ConditionalBranch(old(State()), i) else old(State())
    {
      if i.op == 2 || i.op == 3 {
        Jump(i);
        ok, armed := true, true;
      } else if IsConditional(i) {
        ok := true;
        armed := BranchIf(i);
      } else {
        ok, armed := false, false;
      }
    }

    /** J and JAL. */
    method Jump(i: Opcode)
      requires Valid() && (i.op == 2 || i.op == 3)
      modifies this, reg
      ensures State() == Executor.Jump(old(State()), i)
    {
      var target, link := JumpTarget(pc, i.target), pc + 4;
      ArmJump(target);
      if i.op == 3 {
        SetRegister(RA, link);
      }
    }

    /** BEQ, BNE, BLEZ, BGTZ, BLTZ, BGEZ and BGEZAL. */
    method BranchIf(i: Opcode) returns (armed: bool)
      requires Valid() && IsConditional(i)
      modifies this, reg
      ensures armed == BranchTaken(old(State()), i)
      ensures State() == ConditionalBranch(old(State()), i)
    {
      var target := BranchTarget(pc, i.offset);
      Link(i);
      armed := Condition(i, reg[i.rs], reg[i.rt]);
      if armed {
        ArmJump(target);
      }
    }

    /** BGEZAL's write of the return address, made before its condition is read. */
    method Link(i: Opcode)
      requires Valid()
      modifies reg
      ensures State() == Linked(old(State()), i)
    {
      if i.op == 1 && i.rt == 17 {
        SetRegister(RA, pc + 4);
      }
    }

    /** ADDI, ADDIU, SLTI, SLTIU, ANDI, ORI, XORI and LUI. */
    method Immediate(i: Opcode)
      requires Valid() && 8 <= i.op <= 15
      modifies reg
      ensures State() == SetReg(old(State()), i.rt, ImmediateResult(i.op, i.imm, i.offset, old(reg[i.rs])))
    {
      SetRegister(i.rt, ImmediateResult(i.op, i.imm, i.offset, reg[i.rs]));
    }

    /** LB, LBU, LW, LH and LHU through the bus. */
    method Load(bus: MemoryBus, i: Opcode)
      requires Valid() && bus.Valid() && i.op in {32, 33, 35, 36, 37}
      modifies reg
      ensures State() == SetReg(old(State()), i.rt,
        LoadResult(bus.Contents(), i, EffectiveAddress(old(reg[i.rs]), i)))
    {
      SetRegister(i.rt, LoadResult(bus.Contents(), i, EffectiveAddress(reg[i.rs], i)));
    }

    /** SB, SH and SW through the bus. */
    method Store(bus: MemoryBus, i: Opcode)
      requires Valid() && bus.Valid() && i.op in {40, 41, 43}
      modifies bus.ram, bus.expansion, bus.scratchpad
      ensures bus.Contents() == Executor.Store(old(bus.Contents()), bus.isolated, i, reg[i.rs], reg[i.rt])
    {
      if i.op == 40 {
        StoreByte(bus, i);
      } else if i.op == 41 {
        StoreHalf(bus, i);
      } else {
        StoreWord(bus, i);
      }
    }

    /** SB: the low byte of `rt`. */
    method StoreByte(bus: MemoryBus, i: Opcode)
      requires Valid() && bus.Valid() && i.op == 40
      modifies bus.ram, bus.expansion, bus.scratchpad
      ensures bus.Contents() == Executor.Store(old(bus.Contents()), bus.isolated, i, reg[i.rs], reg[i.rt])
    {
      bus.Write8(EffectiveAddress(reg[i.rs], i), (reg[i.rt] & 0xFF) as bv8);
    }

    /** SH: the low half-word of `rt`. */
    method StoreHalf(bus: MemoryBus, i: Opcode)
      requires Valid() && bus.Valid() && i.op == 41
      modifies bus.ram, bus.expansion, bus.scratchpad
      ensures bus.Contents() == Executor.Store(old(bus.Contents()), bus.isolated, i, reg[i.rs], reg[i.rt])
    {
      bus.Write16(EffectiveAddress(reg[i.rs], i), (reg[i.rt] & 0xFFFF) as bv16);
    }

    /** SW: the whole of `rt`. */
    method StoreWord(bus: MemoryBus, i: Opcode)
      requires Valid() && bus.Valid() && i.op == 43
      modifies bus.ram, bus.expansion, bus.scratchpad
      ensures bus.Contents() == Executor.Store(old(bus.Contents()), bus.isolated, i, reg[i.rs], reg[i.rt])
    {
      bus.Write32(EffectiveAddress(reg[i.rs], i), reg[i.rt]);
    }

    /** MFC0 and MTC0; MTC0 to the status register also sets the bus's isolate flag. */
    method Cop0(bus: MemoryBus, i: Opcode)
      requires Valid() && bus.Valid() && i.op == 16
      modifies reg, cop0, bus`isolated
      ensures Snapshot(bus) == Executor.Cop0(old(Snapshot(bus)), i)
    {
      if i.rs == 0 {
        SetRegister(i.rt, cop0[i.rd]);
      } else if i.rs == 4 {
        MoveToCop0(bus, i);
      }
    }

    /** MTC0: `rt` goes to the COP0 register `rd`; a write to the status register
        also tells the bus whether the cache is isolated. */
    method MoveToCop0(bus: MemoryBus, i: Opcode)
      requires Valid() && bus.Valid() && i.op == 16 && i.rs == 4
      modifies cop0, bus`isolated
      ensures Snapshot(bus) == Executor.Cop0(old(Snapshot(bus)), i)
    {
      var v := reg[i.rt];
      cop0[i.rd] := v;
      if i.rd == STATUS {
        bus.isolated := v & ISOLATE_CACHE != 0;
      }
    }

    /** The SPECIAL group, selected by `fun`. */
    method Special(i: Opcode)
      requires Valid() && IsSpecial(i.fun)
      modifies this, reg, cop0
      ensures State() == Executor.Special(old(State()), i)
    {
      if i.fun == 8 || i.fun == 9 {
        RegisterJump(i);
      } else if i.fun == 12 {
        Syscall();
      } else if IsHiLo(i.fun) {
        HiLo(i);
      } else if IsNop(i) {
      } else {
        SetRegister(i.rd, AluResult(i.fun, reg[i.rs], reg[i.rt], i.sh));
      }
    }

    /** JR and JALR. */
    method RegisterJump(i: Opcode)
      requires Valid() && (i.fun == 8 || i.fun == 9)
      modifies this, reg
      ensures State() == Executor.RegisterJump(old(State()), i)
    {
      var target, link := reg[i.rs], pc + 4;
      ArmJump(target);
      if i.fun == 9 {
        SetRegister(i.rd, link);
      }
    }

    /** SYSCALL. */
    method Syscall()
      requires Valid()
      modifies this, cop0
      ensures State() == Executor.Syscall(old(State()))
    {
      cop0[EPC] := pc;
      cop0[CAUSE] := SYSCALL_CAUSE;
      pc := EXCEPTION_VECTOR;
    }

    /** MULT, DIV, DIVU, MFHI, MFLO, MTLO and MTHI. */
    method HiLo(i: Opcode)
      requires Valid() && IsHiLo(i.fun)
      modifies this, reg
      ensures State() == Executor.HiLo(old(State()), i)
    {
      var s, t := reg[i.rs], reg[i.rt];
      if i.fun == 24 {
        SetHiLo(Multiply(s, t));
      } else if i.fun == 26 {
        SetHiLo(DivideSigned(s, t));
      } else if i.fun == 27 {
        SetHiLo(DivideUnsigned(s, t));
      } else if i.fun == 16 {
        SetRegister(i.rd, hi);
      } else if i.fun == 18 {
        SetRegister(i.rd, lo);
      } else if i.fun == 19 {
        SetHiLo((hi, reg[i.rd]));
      } else {
        SetHiLo((reg[i.rd], lo));
      }
    }
    /** A write to one general register. */
    method SetRegister(r: bv5, v: bv32)
      requires Valid()
      modifies reg
      ensures State() == SetReg(old(State()), r, v)
    {
      reg[r] := v;
    }

    /** Arming a jump: it is taken at the end of the next instruction. */
    method ArmJump(target: bv32)
      requires Valid()
      modifies this
      ensures State() == Arm(old(State()), target)
    {
      shouldJump, jumpPC := true, target;
    }

    /** A write of both HI and LO. */
    method SetHiLo(hiLo: (bv32, bv32))
      requires Valid()
      modifies this
      ensures State() == old(State()).(hi := hiLo.0, lo := hiLo.1)
    {
      hi, lo := hiLo.0, hiLo.1;
    }
  }
}
