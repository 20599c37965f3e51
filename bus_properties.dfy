/** What the bus promises: mirrored views, the raw-address cache window, the
    regions that keep writes and those that do not, the corrected region bounds,
    and little-endian round trips. */
module BusProperties {
  import opened Bits
  import opened Bus

  /** The KSEG0 view (`A + 0x80000000`) and the KSEG1 view (`A + 0xA0000000`) of a low
      address reach the same target as the address itself. */
  lemma MirroredViews(a: Address)
    requires a < 0x2000_0000
    ensures Locate(a + KSEG0_BASE) == Locate(a)
    ensures Locate(a + KSEG1_BASE) == Locate(a)
  {
  }

  /** For a RAM offset all three views read the same RAM byte. */
  lemma MirroredRamReads(m: Memory, a: Address)
    requires a < RAM_SIZE
    ensures ReadByte(m, a) == m.ram[a]
    ensures ReadByte(m, a + KSEG0_BASE) == m.ram[a]
    ensures ReadByte(m, a + KSEG1_BASE) == m.ram[a]
  {
    MirroredViews(a);
  }

  /** Addresses 0xFFFE0000-0xFFFE0200 are matched before any folding and read 0. */
  lemma CacheControlWindow(m: Memory, a: Address)
    requires CACHE_CONTROL_BASE <= a <= CACHE_CONTROL_LAST
    ensures Locate(a) == CacheControl(a - CACHE_CONTROL_BASE)
    ensures ReadByte(m, a) == 0
  {
  }

  /** Only the raw addresses of the cache window select it; no mirror does. */
  lemma CacheControlOnlyRaw(a: Address)
    requires Locate(a).CacheControl?
    ensures CACHE_CONTROL_BASE <= a <= CACHE_CONTROL_LAST
  {
  }

  /** An address that selects no region reads 0. */
  lemma UnmappedReadsZero(m: Memory, a: Address)
    requires Locate(a).Unmapped?
    ensures ReadByte(m, a) == 0
  {
  }

  /** A write to the ROM, the I/O window, the cache window, an unmapped address,
      or to RAM while isolated, leaves every buffer as it was. */
  lemma DiscardedWrite(m: Memory, isolated: bool, a: Address, v: bv8)
    requires !Stores(Locate(a), isolated)
    ensures WriteByte(m, isolated, a, v) == m
  {
  }

  /** No write ever reaches the BIOS or the I/O buffer. */
  lemma RomAndIoAreNeverWritten(m: Memory, isolated: bool, a: Address, v: bv8)
    ensures WriteByte(m, isolated, a, v).bios == m.bios
    ensures WriteByte(m, isolated, a, v).io == m.io
  {
  }

  /** While RAM is isolated no write of any width changes it. */
  lemma IsolatedRamIsFrozen(m: Memory, a: Address, v: bv32)
    ensures WriteWord(m, true, a, v).ram == m.ram
    ensures WriteHalf(m, true, a, (v & 0xFFFF) as bv16).ram == m.ram
    ensures WriteByte(m, true, a, (v & 0xFF) as bv8).ram == m.ram
  {
  }

  /** A byte write changes exactly the byte it stores: a later read of any address
      that selects the same target sees the new byte, every other read is unchanged. */
  lemma ByteWriteEffect(m: Memory, isolated: bool, a: Address, b: Address, v: bv8)
    ensures ReadByte(WriteByte(m, isolated, a, v), b)
         == if Stores(Locate(a), isolated) && Locate(b) == Locate(a) then v else ReadByte(m, b)
  {
  }

  /** `n` bytes from `a` lie inside one writable region. */
  predicate WritableSpan(a: Address, n: nat)
  {
    Locate(a).Writable() && Locate(a).offset + n <= Locate(a).Size()
  }

  /** Inside a writable region, `a + k` selects the byte `k` places further on. */
  lemma {:induction false} Consecutive(a: Address, k: nat)
    requires WritableSpan(a, k + 1)
    ensures Locate(Next(a, k)) == Locate(a).Advance(k)
  {
    var p := Physical(a);
    assert p < SCRATCHPAD_BASE + SCRATCHPAD_SIZE;
    assert Next(a, k) == a + k;
    assert Physical(a + k) == p + k;
  }

  /** Writing a word then reading it back yields the word, when RAM is not isolated
      and the four bytes lie in one writable region. */
  lemma {:induction false} WordRoundTrip(m: Memory, a: Address, v: bv32)
    requires WritableSpan(a, 4)
    ensures ReadWord(WriteWord(m, false, a, v), a) == v
  {
    WordLittleEndian(m, a, v, 0);
    WordLittleEndian(m, a, v, 1);
    WordLittleEndian(m, a, v, 2);
    WordLittleEndian(m, a, v, 3);
    WordFromBytes(WriteWord(m, false, a, v), a, v);
  }

  /** A word read is the four bytes at consecutive addresses, put back in place. */
  lemma WordFromBytes(w: Memory, a: Address, v: bv32)
    requires ReadByte(w, Next(a, 0)) == ByteOf(v, 0) && ReadByte(w, Next(a, 1)) == ByteOf(v, 1)
    requires ReadByte(w, Next(a, 2)) == ByteOf(v, 2) && ReadByte(w, Next(a, 3)) == ByteOf(v, 3)
    ensures ReadWord(w, a) == v
  {
    assert Next(a, 0) == a;
  }

  /** The word is stored least significant byte first. */
  lemma {:induction false} WordLittleEndian(m: Memory, a: Address, v: bv32, k: nat)
    requires WritableSpan(a, 4) && k < 4
    ensures ReadByte(WriteWord(m, false, a, v), Next(a, k)) == ByteOf(v, k)
  {
    Consecutive(a, 1);
    Consecutive(a, 2);
    Consecutive(a, 3);
    Consecutive(a, k);
    var t := Locate(a);
    var m1 := WriteByte(m, false, a, ByteOf(v, 0));
    var m2 := WriteByte(m1, false, Next(a, 1), ByteOf(v, 1));
    var m3 := WriteByte(m2, false, Next(a, 2), ByteOf(v, 2));
    var m4 := WriteByte(m3, false, Next(a, 3), ByteOf(v, 3));
    ByteWriteEffect(m, false, a, Next(a, k), ByteOf(v, 0));
    ByteWriteEffect(m1, false, Next(a, 1), Next(a, k), ByteOf(v, 1));
    ByteWriteEffect(m2, false, Next(a, 2), Next(a, k), ByteOf(v, 2));
    ByteWriteEffect(m3, false, Next(a, 3), Next(a, k), ByteOf(v, 3));
  }

  /** Writing a half-word then reading it back yields the half-word. */
  lemma {:induction false} HalfRoundTrip(m: Memory, a: Address, v: bv16)
    requires WritableSpan(a, 2)
    ensures ReadHalf(WriteHalf(m, false, a, v), a) == v
  {
    Consecutive(a, 1);
    var m1 := WriteByte(m, false, a, (v & 0xFF) as bv8);
    ByteWriteEffect(m, false, a, a, (v & 0xFF) as bv8);
    ByteWriteEffect(m, false, a, Next(a, 1), (v & 0xFF) as bv8);
    ByteWriteEffect(m1, false, Next(a, 1), a, (v >> 8) as bv8);
    ByteWriteEffect(m1, false, Next(a, 1), Next(a, 1), (v >> 8) as bv8);
  }

  /** The corrected table differs from the written one at exactly two physical
      addresses, one past the I/O buffer and one past the BIOS buffer. */
  lemma CorrectedBounds(a: Address)
    ensures (Physical(a) != IO_BASE + IO_SIZE && Physical(a) != BIOS_BASE + BIOS_SIZE)
      ==> Locate(a) == LocateAsWritten(a)
    ensures Physical(a) == IO_BASE + IO_SIZE ==> Locate(a) == Unmapped
    ensures Physical(a) == BIOS_BASE + BIOS_SIZE ==> Locate(a) == Unmapped
  {
  }

  /** As written, reading 0x1F803000 indexes `io[0x2000]` and reading 0x1FC80000
      indexes `bios[0x80000]`, one past the end of each buffer. */
  lemma AsWrittenReadsPastBuffers()
    ensures LocateAsWritten(IO_BASE + IO_SIZE) == Io(IO_SIZE)
    ensures LocateAsWritten(KSEG1_BASE + IO_BASE + IO_SIZE) == Io(IO_SIZE)
    ensures LocateAsWritten(BIOS_BASE + BIOS_SIZE) == Rom(BIOS_SIZE)
    ensures LocateAsWritten(KSEG0_BASE + BIOS_BASE + BIOS_SIZE) == Rom(BIOS_SIZE)
  {
  }
}
