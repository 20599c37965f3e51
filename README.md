# Avocado CPU core and CD-ROM status, in Dafny

This project models the interpreter core of Avocado, a PlayStation emulator. The
core is a MIPS-I (R3000) interpreter in `src/main.cpp`. Alongside it is the
status-register and queue bookkeeping of the CD-ROM drive in
`src/device/cdrom.h`. Each part of the core keeps the form it has in C++:

- `word_value.dfy` (module `WordValue`): the integer a register stands for,
  read as `uint32_t` (`Unsigned`) or as `int32_t` (`Signed`), with proofs that
  `bv32` addition, subtraction and comparison agree with C++'s integer
  arithmetic on those values followed by the conversion back modulo 2^32.
- `bits.dfy` (module `Bits`): the signed comparison, sign extension, the
  arithmetic right shift, and C++'s truncating division.
- `bus.dfy` (module `Bus`): the memory bus. The KSEG0/KSEG1 folding, the
  first-match region table and the little-endian composition of bytes are pure
  functions over a `Memory` value. The bus the interpreter mutates is the class
  `MemoryBus`, with one `array<bv8>` per backing buffer and the cache-isolate
  flag `IsC` as the field `isolated`. Its write methods are proved equal to the
  pure `WriteByte`/`WriteHalf`/`WriteWord`.
- `decoder.dfy` (module `Decoder`): the `Opcode` union as a total function from a
  word to its fields.
- `executor.dfy` (module `Executor`): `executeInstruction` as a function of the
  machine state (`Cpu`, bus buffers, `IsC`). It covers the instruction's own
  effect (`Apply`), the pending-jump resolution (`Execute`), one iteration of the
  main loop (`Step`) and the loop itself (`Run`).
- `interpreter.dfy` (module `Interpreter`): the class `Processor`. Its fields are
  `PC`, `jumpPC`, `shouldJump`, `hi` and `lo`, and `reg` and `COP0` are
  `array<bv32>`. Each method updates them in place the way the C++ code does, and
  each is proved to produce exactly the state the `Executor` function gives.
- `executor_properties.dfy` and `bus_properties.dfy`: what the interpreter and
  the bus promise, as lemmas about the functional model.
- `cdrom.dfy` (module `Cdrom`): `StatusCode` (`setMode`, `toggleShell`) and the
  drive's `writeResponse`, `readParam` and `ackMoreData`, as classes whose
  methods update the status bytes and the `seq<bv8>` queues.

The model keeps the interpreter's quirks exactly as written, and lemmas state each
one:

- BGTZ compares the unsigned register with zero, so it branches on any nonzero
  value. BLEZ tests "zero or sign bit set".
- SLTIU compares with the zero-extended immediate.
- ORI computes `(rs & 0xFFFF0000) | imm`.
- MULT forms the product in 32 bits, so HI is always 0.
- MTLO and MTHI read the register named by `rd`.
- COP0 with an `rs` other than 0 or 4 changes nothing and still succeeds.
- Register 0 is an ordinary register.

The C++ code and the intended behaviour of the emulator differ in several places.
The model follows the code:

- Register 0 is not hard-wired to zero; `RegisterZeroIsWritable` shows a write to
  it sticking.
- JAL and BGEZAL link `$ra`, and JALR links `rd`, to the PC they see plus 4. The
  loop has already advanced PC, so the link is the instruction's address + 8,
  which is the address after the delay slot. A JAL fetched at 0x1000 links
  0x1008 (`JalLinks`, `JalrLinks`, `BranchLinks`).
- SYSCALL stores the already-advanced PC in EPC, which is the address after the
  SYSCALL, not the SYSCALL's own address.
- MULT leaves HI at 0 rather than holding the high word of a 64-bit product.
- Writes to the ROM are dropped with only a log line; the model drops them.

The C++ code leaves some cases undefined, and the model picks one behaviour for
each:

- DIV and DIVU divide without checking for zero, and `INT_MIN / -1` overflows.
  For a zero divisor the model gives what the R3000 gives: HI = dividend, and
  LO = -1 (1 for a negative DIV dividend). For `INT_MIN / -1` it gives LO =
  0x80000000 and HI = 0, the wrapped C++ results.
- ADD, SUB and the `(int32_t)` casts in them overflow signed `int` in C++. The
  model wraps modulo 2^32, as the compiled code does.
- `(int32_t)x >> n` is taken to shift arithmetically.
- Every branch computes `i.offset << 2` on the `int16_t` offset promoted to
  `int` (main.cpp:359, 372, 386, 401, 415, 428, 444). For a backward branch this
  shifts a negative value left, which is undefined before C++20. The model
  shifts the sign-extended 32-bit word, which gives the two's-complement result
  `offset * 4` modulo 2^32.

## Model

| member | source | states |
|---|---|---|
| WordValue.Unsigned | src/main.cpp:37-43 | the value of a `uint32_t` register is a natural number below 2^32 |
| WordValue.Signed | src/main.cpp:398 | `(int32_t)x` lies in [-2^31, 2^31), is congruent to the unsigned value modulo 2^32, and is negative exactly when bit 31 is set |
| WordValue.Wrap | src/main.cpp:659 | storing an integer into a word and reading it back as `int32_t` gives the one value in [-2^31, 2^31) congruent to it modulo 2^32, and leaves an in-range value unchanged |
| WordValue.SignedWrap | src/main.cpp:659 | a word whose unsigned value is `n` modulo 2^32 reads as `Wrap(n)` when cast to `int32_t` |
| WordValue.UnsignedOrder | src/main.cpp:814 | `<` on `uint32_t` registers is `<` on their unsigned values, in both directions |
| WordValue.UnsignedZero | src/main.cpp:834-835 | a register is zero exactly when its unsigned value is 0 |
| WordValue.AdderValue | src/main.cpp:667 | a ripple-carry adder's inputs sum to its output plus 2^32 when it carries out of bit 31 |
| WordValue.AddModulo | src/main.cpp:667 | the unsigned value of the `uint32_t` sum is the integer sum of the unsigned values modulo 2^32 |
| WordValue.SubtractModulo | src/main.cpp:794 | the unsigned value of the `uint32_t` difference is the integer difference modulo 2^32 |
| WordValue.SignedAdd | src/main.cpp:659 | the sum of the `int32_t` values, stored in a word, is the word `s + t`: same residue modulo 2^32, and `Wrap` of the sum when read back signed |
| WordValue.SignedSubtract | src/main.cpp:786 | the difference of the `int32_t` values, stored in a word, is the word `a - b`, and reads back signed as `Wrap` of the difference |
| WordValue.FlippedOrder | src/main.cpp:804 | comparing two words with their sign bits flipped, as unsigned, is comparing their `int32_t` values |
| Bits.LessSigned | src/main.cpp:804 | definition of the `(int32_t)a < (int32_t)b` comparison on the bits (also SLTI at 591); characterised by `Bits.LessSignedOrder` and `Bits.LessSignedValues` |
| Bits.LessSignedOrder | src/main.cpp:804 | on the bits: a negative word is below every non-negative one, and words of equal sign compare as unsigned |
| Bits.LessSignedValues | src/main.cpp:804 | `LessSigned` holds exactly when `(int32_t)a < (int32_t)b` on the integer values |
| Bits.SignExtend8 | src/main.cpp:514 | definition of LB's widening of a byte; characterised by `Bits.ByteSignExtension` |
| Bits.SignExtend16 | src/main.cpp:544 | definition of LH's widening of a half-word, and of the `int16_t offset` field (line 310) widened to a word; characterised by `Bits.HalfSignExtension` |
| Bits.ByteSignExtension | src/main.cpp:514 | LB's `(int32_t)(b << 24) >> 24` keeps the byte and fills the upper 24 bits with copies of bit 7 |
| Bits.HalfSignExtension | src/main.cpp:544 | LH's widening keeps the half-word and fills the upper 16 bits with copies of bit 15; the same holds for `offset` |
| Bits.ShiftRightArithmetic | src/main.cpp:742 | definition of `((int32_t)x) >> n`; characterised by `Bits.ArithmeticShiftFill` |
| Bits.ArithmeticShiftFill | src/main.cpp:742 | SRA/SRAV: a non-negative word shifts logically; a negative one has every vacated high bit set and its low `32 - n` bits equal to those of the logical shift, so every bit of the result is fixed |
| Bits.TruncDiv | src/main.cpp:824 | definition of C++ `/` on `int32_t`, truncating toward zero; characterised by `Bits.TruncDivision` |
| Bits.TruncRem | src/main.cpp:825 | definition of C++ `%` on `int32_t`; characterised by `Bits.TruncDivision` |
| Bits.TruncDivision | src/main.cpp:824-825 | C++ `/` and `%`: `n == d*q + r`, with abs(r) < abs(d) and r of the sign of n |
| Bus.Physical | src/main.cpp:68-69 | folding subtracts 0xA0000000 or 0x80000000, so the result lies below 0x80000000, and an address already below that is unchanged |
| Bus.Locate | src/main.cpp:74-138 | the region table with exclusive bounds: every buffer index lies inside its buffer, and is the physical address minus the region's base |
| Bus.LocateAsWritten | src/main.cpp:74-138 | definition of the region table with the inclusive bounds of the C++ code; characterised by `BusProperties.CorrectedBounds` and `BusProperties.AsWrittenReadsPastBuffers` |
| Bus.ReadByte | src/main.cpp:63-140 | definition of `readMemory`: the byte at the located buffer index, or 0 for the cache window and unmapped addresses; characterised by `BusProperties.MirroredRamReads`, `CacheControlWindow`, `UnmappedReadsZero` and `ByteWriteEffect` |
| Bus.ReadHalf | src/main.cpp:154-162 | definition of `readMemory16`; characterised by `BusProperties.HalfRoundTrip` |
| Bus.ReadWord | src/main.cpp:164-174 | definition of `readMemory32`; characterised by `BusProperties.WordFromBytes` and `BusProperties.WordRoundTrip` |
| Bus.WriteByte | src/main.cpp:176-250 | definition of `writeMemory`; characterised by `BusProperties.DiscardedWrite`, `RomAndIoAreNeverWritten`, `ByteWriteEffect` and `Bus.MemoryBus.Write8` |
| Bus.WriteHalf | src/main.cpp:259-265 | definition of `writeMemory16`; characterised by `BusProperties.HalfRoundTrip` and `Bus.MemoryBus.Write16` |
| Bus.WriteWord | src/main.cpp:267-275 | definition of `writeMemory32`; characterised by `BusProperties.WordLittleEndian`, `WordRoundTrip` and `Bus.MemoryBus.Write32` |
| Bus.PowerOn | src/main.cpp:947 | the power-on memory holds the ROM image at the start of the BIOS buffer |
| Bus.MemoryBus.constructor | src/main.cpp:23-27 | buffers of the declared sizes, zero except the ROM image, with isolation off |
| Bus.MemoryBus.Write8 | src/main.cpp:176-250 | the buffers afterwards are exactly `WriteByte` of the old buffers |
| Bus.MemoryBus.Write16 | src/main.cpp:259-265 | the buffers afterwards are `WriteHalf` of the old ones: the low byte at `a`, the high byte at `a+1` |
| Bus.MemoryBus.Write32 | src/main.cpp:267-275 | the buffers afterwards are `WriteWord` of the old ones: four byte writes, least significant first |
| BusProperties.MirroredViews | src/main.cpp:68-69 | `A`, `A+0x80000000` and `A+0xA0000000` select the same target for any A below 0x20000000 |
| BusProperties.MirroredRamReads | src/main.cpp:74-79 | for A < 0x200000, all three views read `ram[A]` |
| BusProperties.CacheControlWindow | src/main.cpp:125-132 | 0xFFFE0000-0xFFFE0200 are matched on the raw address and read 0 |
| BusProperties.CacheControlOnlyRaw | src/main.cpp:125-126 | only the raw addresses of that window select it |
| BusProperties.UnmappedReadsZero | src/main.cpp:134-138 | an unmapped address reads 0 |
| BusProperties.DiscardedWrite | src/main.cpp:188-249 | a write to the ROM, the I/O window, the cache window, an unmapped address, or to RAM while `IsC` is set, changes no buffer |
| BusProperties.RomAndIoAreNeverWritten | src/main.cpp:214-236 | no byte write changes the BIOS or the I/O buffer |
| BusProperties.IsolatedRamIsFrozen | src/main.cpp:188-191 | while `IsC` is set, byte, half-word and word writes leave RAM unchanged |
| BusProperties.ByteWriteEffect | src/main.cpp:176-250 | after a byte write, a read of the same target sees the byte if it was stored, and every other read is unchanged |
| BusProperties.Consecutive | src/main.cpp:158-171 | inside a writable region, `a + k` selects the byte k places further on |
| BusProperties.WordLittleEndian | src/main.cpp:267-275 | a word write stores byte k of the value at `a + k` |
| BusProperties.WordFromBytes | src/main.cpp:164-174 | a word read reassembles four consecutive bytes, least significant first |
| BusProperties.WordRoundTrip | src/main.cpp:164-174 | with `IsC` clear and a..a+3 inside one writable region, `writeMemory32` then `readMemory32` gives the value back |
| BusProperties.HalfRoundTrip | src/main.cpp:154-162 | the same round trip for `writeMemory16`/`readMemory16` |
| BusProperties.CorrectedBounds | src/main.cpp:100-101 | the corrected table differs from the written one only at the two addresses one past the I/O and BIOS buffers, which become unmapped |
| BusProperties.AsWrittenReadsPastBuffers | src/main.cpp:117-118 | as written, 0x1F803000 selects `io[0x2000]` and 0x1FC80000 selects `bios[0x80000]`, both directly and through a mirror |
| Decoder.Decode | src/main.cpp:298-310 | decoding is total and the six R-type fields re-encode to the word; `imm` and `target` are its low 16 and 26 bits, and `offset` is `imm` sign-extended |
| Decoder.Encode | src/main.cpp:298-306 | definition of the R-type packing of the `Opcode` union; characterised by `Decoder.DecodeEncode` and the re-encoding clause of `Decoder.Decode` |
| Decoder.DecodeEncode | src/main.cpp:298-306 | decoding an encoded field tuple gives back every field |
| Decoder.SharedLayouts | src/main.cpp:298-309 | `imm` is the `rd`, `sh` and `fun` bits, and `target` extends it with `rs` and `rt` |
| Executor.Reset | src/main.cpp:45-54 | definition of the `CPU()` reset state; characterised by `Interpreter.Processor.constructor` |
| Executor.BranchTarget | src/main.cpp:359 | definition of the branch target `(PC & 0xF0000000) \| (PC + (offset << 2))`; characterised by `ExecutorProperties.BranchEffect` and `BranchOnEqualExample` |
| Executor.JumpTarget | src/main.cpp:334 | definition of the J/JAL target; characterised by `ExecutorProperties.Jumps` |
| Executor.Jump | src/main.cpp:329-346 | definition of J and JAL; characterised by `ExecutorProperties.Jumps`, `JalStep` and `JalLinks` |
| Executor.Condition | src/main.cpp:352-446 | definition of the seven branch tests as written (BGTZ unsigned, BLEZ zero-or-sign-bit); characterised by `ExecutorProperties.ConditionMeansTaken` |
| Executor.BranchTaken | src/main.cpp:350-446 | definition of whether a branch is taken, its test read after BGEZAL's link; characterised by `ExecutorProperties.BranchTakenWhen` |
| Executor.ConditionalBranch | src/main.cpp:350-446 | definition of the seven conditional branches; characterised by `ExecutorProperties.BranchTakenWhen`, `BranchEffect` and `ConditionalJump` |
| Executor.ImmediateResult | src/main.cpp:450-505 | definition of the immediate group (SLTI and SLTIU at 587-603); characterised by `ExecutorProperties.AddImmediateWraps`, `SetOnLessThanImmediate`, `SetOnLessThanImmediateUnsigned` and `UpperAndOr` |
| Executor.BelowImmediate | src/main.cpp:597-603 | definition of SLTIU's result; characterised by `ExecutorProperties.SetOnLessThanImmediateUnsigned` |
| Executor.LogicalImmediate | src/main.cpp:450-505 | definition of ANDI, XORI, ORI and LUI on the zero-extended immediate; characterised by `ExecutorProperties.UpperAndOr` |
| Executor.LoadResult | src/main.cpp:509-555 | definition of LB, LBU, LW, LH and LHU; characterised by `Bits.ByteSignExtension`, `Bits.HalfSignExtension` and `BusProperties.WordFromBytes` |
| Executor.Store | src/main.cpp:559-583 | definition of SB, SH and SW; characterised by `ExecutorProperties.IsolatedStores` and `BusProperties.WordRoundTrip` |
| Executor.Cop0 | src/main.cpp:606-629 | definition of MFC0 and MTC0; characterised by `ExecutorProperties.Coprocessor0` |
| Executor.Multiply | src/main.cpp:683-694 | definition of MULT as written; characterised by `ExecutorProperties.MultiplyHighIsZero` |
| Executor.DivideSigned | src/main.cpp:820-828 | definition of DIV; characterised by `ExecutorProperties.SignedDivision` and `DivideByZero` |
| Executor.DivideUnsigned | src/main.cpp:830-838 | definition of DIVU; characterised by `ExecutorProperties.DivideByZero` |
| Executor.HiLo | src/main.cpp:683-872 | definition of MULT, DIV, DIVU, MFHI, MFLO, MTHI and MTLO; characterised by `ExecutorProperties.MoveThroughHiLo` and the three above |
| Executor.AluResult | src/main.cpp:656-818 | definition of the register-register ALU group; characterised by `ExecutorProperties.AddWraps`, `SubtractWraps`, `VariableShift`, `SetOnLessThan` and `SetOnLessThanUnsigned` |
| Executor.RegisterJump | src/main.cpp:633-652 | definition of JR and JALR; characterised by `ExecutorProperties.RegisterJumps` and `JalrLinks` |
| Executor.Special | src/main.cpp:632-890 | definition of the SPECIAL group; characterised by `ExecutorProperties.SpecialKeepsJump`, `RegisterJumps` and the ALU and HI/LO lemmas |
| Executor.Syscall | src/main.cpp:876-885 | definition of SYSCALL; characterised by `ExecutorProperties.SyscallStep` and `SyscallInDelaySlot` |
| Executor.Apply | src/main.cpp:327-891 | definition of an instruction's own effect and whether it arms a jump; characterised by `ExecutorProperties.UnknownExactly`, `PendingJumpKept` and `ArmedJumpWaits` |
| Executor.Execute | src/main.cpp:316-914 | definition of `executeInstruction`, the effect followed by the delay-slot jump; characterised by `ExecutorProperties.UnknownExactly`, `DelaySlot` and `ArmedJumpWaits` |
| Executor.TakeJump | src/main.cpp:908-912 | definition of taking the pending jump; characterised by `ExecutorProperties.DelaySlot` |
| Executor.Fetch | src/main.cpp:962 | definition of the loop's fetch of the word at PC; characterised by `ExecutorProperties.HaltReport` |
| Executor.Advance | src/main.cpp:971 | definition of the loop's `PC += 4`; characterised by `Interpreter.Processor.AdvancePC` and `ExecutorProperties.JalStep` |
| Executor.Step | src/main.cpp:962-973 | definition of one iteration of the main loop; characterised by `ExecutorProperties.HaltReport`, `SyscallStep`, `JalStep` and `JalLinks` |
| Executor.Loop | src/main.cpp:960-995 | definition of the main loop over a fuel bound; characterised by `ExecutorProperties.LoopStopsAsReported` and `LoopsCompose` |
| Executor.Run | src/main.cpp:960-995 | definition of a run from a machine; characterised by `ExecutorProperties.RunReportsUnknown` and `RunsCompose` |
| ExecutorProperties.UnknownExactly | src/main.cpp:432 | `executeInstruction` returns false exactly for an op, REGIMM `rt` or SPECIAL `fun` it has no case for (also 887 and 891) |
| ExecutorProperties.ConditionMeansTaken | src/main.cpp:356-446 | the bit tests of each branch agree with its signed reading, except that BGTZ branches on any nonzero value |
| ExecutorProperties.BranchTakenWhen | src/main.cpp:407-417 | a branch is taken exactly when its condition holds; BGEZAL with `rs` = `$ra` tests the link it has just written |
| ExecutorProperties.BranchEffect | src/main.cpp:350-446 | a branch keeps PC, HI, LO and COP0; taken, it arms the target; not taken, it keeps the pending jump; only BGEZAL writes `$ra`, whether or not it is taken |
| ExecutorProperties.ConditionalJump | src/main.cpp:350-446 | a conditional branch arms a jump exactly when its condition holds, and touches only the processor |
| ExecutorProperties.Jumps | src/main.cpp:327-346 | J/JAL keep PC and arm `(PC & 0xF0000000) \| (target << 2)`; JAL sets `$ra` to PC + 4 |
| ExecutorProperties.RegisterJumps | src/main.cpp:633-652 | JR/JALR arm a jump to the old `rs`; JALR then sets `rd` to PC + 4 |
| ExecutorProperties.SpecialKeepsJump | src/main.cpp:654-885 | no SPECIAL instruction other than JR/JALR touches the pending jump |
| ExecutorProperties.PendingJumpKept | src/main.cpp:321 | an instruction that arms no jump leaves `shouldJump` and `jumpPC` as they were |
| ExecutorProperties.DelaySlot | src/main.cpp:908-912 | after an instruction that arms no jump, a pending jump is taken: PC = `jumpPC & ~3`, which is word-aligned, `jumpPC` = 0 and `shouldJump` cleared, while registers, HI, LO, COP0, memory and `IsC` are the instruction's own effect; with none pending, the effect is the whole outcome |
| ExecutorProperties.ArmedJumpWaits | src/main.cpp:332-335 | an instruction that arms a jump does not take a pending one in the same call; its own target replaces the pending one |
| ExecutorProperties.BranchOnEqualExample | src/main.cpp:352-361 | `BEQ $1, $1, 3` arms `BranchTarget(PC, 3)` and changes nothing else |
| ExecutorProperties.DelaySlotAddExample | src/main.cpp:470-476 | ADDIU in the delay slot increments its register and then PC goes to the pending target |
| ExecutorProperties.AddWraps | src/main.cpp:659 | ADD stores `(int32_t)rs + (int32_t)rt`: its unsigned value is the sum of the signed values modulo 2^32, equally the sum of the unsigned values, and read back signed it is that sum wrapped into 32 bits (no overflow trap); ADDU (line 667) gives the same word |
| ExecutorProperties.SubtractWraps | src/main.cpp:786 | SUB stores `(int32_t)rs - (int32_t)rt`: the difference of the signed values modulo 2^32, equally of the unsigned values, and the wrapped difference when read back signed (no overflow trap); SUBU (line 794) gives the same word |
| ExecutorProperties.AddImmediateWraps | src/main.cpp:484 | ADDI gives `rs` plus the sign-extended immediate modulo 2^32, with `rs` read signed or unsigned, and that sum wrapped into 32 bits when read signed (no overflow trap); ADDIU (line 475) is the same |
| ExecutorProperties.VariableShift | src/main.cpp:729-770 | SLLV, SRLV and SRAV equal the constant shift by the low five bits of `rs` |
| ExecutorProperties.SetOnLessThan | src/main.cpp:800-808 | SLT writes 1 exactly when the `int32_t` value of `rs` is below that of `rt`, and 0 exactly otherwise |
| ExecutorProperties.SetOnLessThanUnsigned | src/main.cpp:810-816 | SLTU writes 1 exactly when the unsigned value of `rs` is below that of `rt`, and 0 exactly otherwise |
| ExecutorProperties.SetOnLessThanImmediate | src/main.cpp:587-593 | SLTI writes 1 exactly when the `int32_t` value of `rs` is below the sign-extended immediate, and 0 exactly otherwise |
| ExecutorProperties.SetOnLessThanImmediateUnsigned | src/main.cpp:597-603 | SLTIU writes 1 exactly when the unsigned value of `rs` is below that of the zero-extended immediate, and 0 exactly otherwise; with immediate 0xFFFF, `rs` = 0x10000 gives 0, although it lies below the sign-extended 0xFFFFFFFF |
| ExecutorProperties.UpperAndOr | src/main.cpp:494 | ORI keeps the high half of `rs` and has the immediate as its low half; LUI has the immediate as its high half and a zero low half (line 504) |
| ExecutorProperties.LoadImmediatePair | src/main.cpp:489-505 | `LUI $1, 0x1234` then `ORI $1, $1, 0x5678` leave 0x12345678 in `$1`, whether or not a jump was pending |
| ExecutorProperties.RegisterZeroIsWritable | src/main.cpp:475 | `ADDIU $0, $0, 1` increments register 0, whether or not a jump was pending |
| ExecutorProperties.Widened | src/main.cpp:687 | a 32-bit value widened to 64 bits has a zero high word |
| ExecutorProperties.MultiplyHighIsZero | src/main.cpp:687-690 | MULT sets HI = 0 and LO = the 32-bit product |
| ExecutorProperties.SignedDivision | src/main.cpp:824-825 | DIV by a nonzero divisor gives the truncated quotient in LO and the remainder in HI, and these satisfy the division identity |
| ExecutorProperties.DivideByZero | src/main.cpp:834-835 | division by zero, undefined in C++, gives HI = dividend and LO = -1, or 1 for a negative DIV dividend |
| ExecutorProperties.MoveThroughHiLo | src/main.cpp:849-872 | MTLO/MTHI read `rd`, and moving a register to LO/HI and back copies it |
| ExecutorProperties.Coprocessor0 | src/main.cpp:606-629 | MTC0 writes COP0[rd]; writing register 12 sets `IsC` exactly when bit 0x10000 is set, and other registers leave it alone; MFC0 reads COP0[rd]; any other `rs` changes nothing |
| ExecutorProperties.IsolatedStores | src/main.cpp:557-583 | while `IsC` is set, SB, SH and SW leave RAM and the processor unchanged |
| ExecutorProperties.SyscallStep | src/main.cpp:876-885 | SYSCALL fetched at `a` with no jump pending sets EPC to `a + 4`, the cause register to 0x20 and PC to 0x80000080 |
| ExecutorProperties.SyscallInDelaySlot | src/main.cpp:876-912 | SYSCALL fetched at `a` with a jump pending still sets EPC to `a + 4` and the cause register to 0x20; lines 908-912 then run after 882-884, so PC goes to the pending target (`DelaySlot`), not to 0x80000080 |
| ExecutorProperties.JalStep | src/main.cpp:960-973 | JAL runs on the PC the loop has already advanced, and its step is its jump alone |
| ExecutorProperties.JalLinks | src/main.cpp:339-346 | a step on JAL fetched at `a` puts `a + 8`, the address after the delay slot, in `$ra`, and changes no other register |
| ExecutorProperties.BranchLinks | src/main.cpp:407-419 | a step on BGEZAL fetched at `a` puts `a + 8` in `$ra` and changes no other register, taken or not, with or without a pending jump |
| ExecutorProperties.JalrLinks | src/main.cpp:645-652 | a step on JALR fetched at `a` puts `a + 8` in `rd`, changes no other register, and arms a jump to the value `rs` held before the step |
| ExecutorProperties.HaltReport | src/main.cpp:990-994 | the loop stops exactly on an unimplemented word, reporting its address (PC - 4) and the raw word |
| ExecutorProperties.LoopStopsAsReported | src/main.cpp:960-995 | a loop whose body reports every halt faithfully stops with that report |
| ExecutorProperties.RunReportsUnknown | src/main.cpp:990-994 | a run that stops reports an unimplemented word, and the returned PC is just past it |
| ExecutorProperties.LoopsCompose | src/main.cpp:960-995 | `a` iterations that all continue, followed by `b` more, are `a + b` iterations |
| ExecutorProperties.RunsCompose | src/main.cpp:960-995 | runs of the main loop compose by adding their fuel |
| Interpreter.Processor.constructor | src/main.cpp:45-54 | the reset state: PC = 0xBFC00000, no pending jump, and every register, COP0 entry, HI and LO at zero |
| Interpreter.Processor.Run | src/main.cpp:960-995 | the loop leaves the processor and bus in exactly the state `Executor.Run` gives, and returns the same stop |
| Interpreter.Processor.Step | src/main.cpp:962-973 | fetch, `PC += 4` and execute give `Executor.Step`: continue with the new state, or halt with the fetch address and word |
| Interpreter.Processor.AdvancePC | src/main.cpp:971 | `PC += 4` and nothing else |
| Interpreter.Processor.Execute | src/main.cpp:316-914 | the result and the new state are those of `Executor.Execute`; an unknown instruction changes nothing |
| Interpreter.Processor.Apply | src/main.cpp:327-891 | the instruction's own effect and whether it armed a jump are those of `Executor.Apply` |
| Interpreter.Processor.ApplyBusAccess | src/main.cpp:507-629 | loads, stores and COP0 moves have the effect `Executor.Apply` gives |
| Interpreter.Processor.ApplyRegisters | src/main.cpp:327-505 | jumps, branches, the immediate group and SPECIAL have the effect `Executor.Apply` gives |
| Interpreter.Processor.ResolveJump | src/main.cpp:908-912 | PC = `jumpPC & 0xFFFFFFFC`, `jumpPC` = 0, `shouldJump` = false |
| Interpreter.Processor.JumpOrBranch | src/main.cpp:327-446 | implemented exactly for J, JAL and the seven conditional branches; arms a jump exactly for J, JAL and a taken branch |
| Interpreter.Processor.Jump | src/main.cpp:329-346 | J/JAL in place give `Executor.Jump` |
| Interpreter.Processor.BranchIf | src/main.cpp:352-446 | reports whether the branch was taken and leaves `ConditionalBranch` of the old state |
| Interpreter.Processor.Link | src/main.cpp:411 | the link step in place: BGEZAL sets `$ra` to PC + 4 before its condition reads the registers; the other branches change nothing |
| Interpreter.Processor.Immediate | src/main.cpp:450-505 | the immediate group writes `ImmediateResult` of the old `rs` to `rt` (SLTI and SLTIU at 587-603) |
| Interpreter.Processor.Load | src/main.cpp:509-555 | LB, LBU, LW, LH and LHU write `LoadResult` at `rs + offset` to `rt` |
| Interpreter.Processor.Store | src/main.cpp:559-583 | SB, SH and SW leave the buffers `Executor.Store` gives |
| Interpreter.Processor.StoreByte | src/main.cpp:559-564 | SB writes the low byte of `rt` through `writeMemory8` |
| Interpreter.Processor.StoreHalf | src/main.cpp:568-573 | SH writes the low half of `rt` through `writeMemory16` |
| Interpreter.Processor.StoreWord | src/main.cpp:577-583 | SW writes `rt` through `writeMemory32` |
| Interpreter.Processor.Cop0 | src/main.cpp:606-629 | MFC0, MTC0 and the no-op forms give `Executor.Cop0` |
| Interpreter.Processor.MoveToCop0 | src/main.cpp:620-628 | MTC0 writes COP0[rd] and, for register 12, `IsC` |
| Interpreter.Processor.Special | src/main.cpp:632-890 | the SPECIAL group in place gives `Executor.Special` |
| Interpreter.Processor.RegisterJump | src/main.cpp:633-652 | JR/JALR read `rs` before JALR writes `rd` |
| Interpreter.Processor.Syscall | src/main.cpp:876-885 | EPC = PC, cause = 0x20, PC = 0x80000080 |
| Interpreter.Processor.HiLo | src/main.cpp:683-872 | MULT, DIV, DIVU, MFHI, MFLO, MTHI and MTLO give `Executor.HiLo` |
| Cdrom.WithMode | src/device/cdrom.h:23-33 | definition of `setMode` on the status byte; characterised by `Cdrom.SetModeFlags` |
| Cdrom.Toggled | src/device/cdrom.h:35-42 | definition of `toggleShell` on the status byte; characterised by `Cdrom.ToggleFlips` and `Cdrom.ToggleTwiceFromClosed` |
| Cdrom.SetModeFlags | src/device/cdrom.h:23-33 | `setMode` clears error, seekError, idError and motor, sets exactly the mode's read/seek/play flag (none for None), and keeps shellOpen |
| Cdrom.ToggleFlips | src/device/cdrom.h:35-42 | `toggleShell` flips shellOpen; opening clears every other flag, and closing changes no other flag |
| Cdrom.ToggleTwiceFromClosed | src/device/cdrom.h:35-42 | two toggles from a closed shell leave every flag clear |
| Cdrom.StatusCode.constructor | src/device/cdrom.h:44 | `StatusCode` starts at 0 |
| Cdrom.StatusCode.SetMode | src/device/cdrom.h:23-33 | the byte afterwards is the old shellOpen bit joined with the mode's flag |
| Cdrom.StatusCode.ToggleShell | src/device/cdrom.h:35-42 | the byte afterwards is `Toggled` of the old byte |
| Cdrom.ResetStatus | src/device/cdrom.h:59 | 0x18 means index 0, parameterFifoEmpty and parameterFifoFull set, and every other flag clear |
| Cdrom.AfterResponseWrite | src/device/cdrom.h:95 | definition of the status after `writeResponse`; characterised by `Cdrom.ResponseWriteFlags` |
| Cdrom.AfterParamRead | src/device/cdrom.h:102-103 | definition of the status after `readParam`; characterised by `Cdrom.ParamReadFlags` |
| Cdrom.ResponseWriteFlags | src/device/cdrom.h:95 | writing a response sets responseFifoEmpty and no other status bit |
| Cdrom.ParamReadFlags | src/device/cdrom.h:102-103 | reading a parameter sets parameterFifoEmpty to the queue's emptiness and parameterFifoFull to 1, and changes no other bit |
| Cdrom.Drive.InStep | src/device/cdrom.h:51-53 | definition of the agreement between the FIFO flags and the queues; kept by `Cdrom.Drive.constructor`, `WriteResponse`, `ReadParam` and `AckMoreData` |
| Cdrom.Drive.constructor | src/device/cdrom.h:59-73 | status 0x18, interruptEnable 0, empty queues, sector size flag false, readSector 0, stat 0; the flags start in step with the queues |
| Cdrom.Drive.WriteResponse | src/device/cdrom.h:93-96 | the byte is appended at the back of the response queue, responseFifoEmpty is set, nothing else changes, and the flags stay in step |
| Cdrom.Drive.ReadParam | src/device/cdrom.h:98-106 | on a non-empty queue: returns the front, the queue loses exactly that element, parameterFifoEmpty becomes the new emptiness and parameterFifoFull 1, nothing else changes, and the flags stay in step |
| Cdrom.Drive.AckMoreData | src/device/cdrom.h:117-120 | 1 is appended to the interrupt queue and `stat`'s byte to the response queue, and the flags stay in step |
| Cdrom.Drive.ToggleShell | src/device/cdrom.h:116 | forwards to `stat.toggleShell` |

## Left out

- Logging, the disassembler macros and the `part` tag that `readMemory` and `writeMemory` set only for log lines: these are output only.
- Loading the BIOS file and dumping RAM to a file: this is file I/O. `MemoryBus`'s constructor takes the ROM image as a parameter instead.
- The `cycles`/`frames` counters of the main loop: they only pace a log line.
- The unbounded `while (cpuRunning)` loop: `Run` takes a `fuel` bound. A run that spends its fuel stops with `FuelSpent`, which the C++ loop never does.
- The other devices (SPU, controller, GUI) and the CD-ROM's `step`, `read`, `write`, `handleCommand` and command handlers: their bodies are not part of this model.
- The CD-ROM constructor `CDROM()` is declared but its body is not part of this model. `Drive`'s constructor gives the members their in-class initial values.
- The bit positions of the `StatusCode` and `CDROM_Status` fields assume the usual allocation of bit-fields from bit 0 upwards, which the C++ standard leaves to the compiler.
- Bits.LessSignedOrder: states the signed comparison on the bits; the comparison of the integer values is `Bits.LessSignedValues`.
- ExecutorProperties.JalStep: the step is stated as JAL's jump applied to the advanced machine. The link value itself is stated by `JalLinks`.
- ExecutorProperties.JalLinks: states the register file after the step only; PC, `jumpPC` and `shouldJump` after JAL follow from `JalStep` and `Jumps`.
- ExecutorProperties.SyscallInDelaySlot: states EPC and the cause register only; the PC that the pending jump then sets is stated, for every instruction that arms no jump, by `DelaySlot`.
- ExecutorProperties.DelaySlotAddExample: this case and `BranchOnEqualExample` are two separate lemmas rather than one two-instruction sequence.
- ExecutorProperties.DivideByZero: the division-by-zero results follow the R3000, because C++ leaves them undefined. SignedDivision covers `INT_MIN / -1` through `FromInt` of the mathematical quotient, also undefined in C++.

## Findings

| source | as written | input that shows it | evidently intended | confidence | as-written member | corrected member |
|---|---|---|---|---|---|---|
| src/main.cpp:100-101, 117-118 | the I/O and BIOS windows end with an inclusive bound, `<= 0x1f803000` and `<= 0x1fc00000 + 512*1024` | reading 0x1F803000 indexes `io[0x2000]`, and reading 0x1FC80000 indexes `bios[0x80000]`, one past each buffer (main.cpp:26, 23) | exclusive bounds, so that those two addresses fall through to "unmapped" | not executed; the index arithmetic is proved | BusProperties.AsWrittenReadsPastBuffers | Bus.Locate |
