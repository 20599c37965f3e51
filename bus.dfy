/** The memory bus of the interpreter: the folding of the KSEG0/KSEG1 views, the
    first-match region table, byte reads composed little-endian into half-words and
    words, and byte writes that only the RAM, expansion and scratchpad regions keep. */
module Bus {
  import opened Bits
  import opened WordValue

  /** A CPU address, the `uint32_t` the bus functions take. */
  type Address = a: int | 0 <= a < WORD_MODULUS

  const RAM_SIZE: nat := 0x20_0000
  const EXPANSION_BASE: nat := 0x1F00_0000
  const EXPANSION_SIZE: nat := 0x1_0000
  const SCRATCHPAD_BASE: nat := 0x1F80_0000
  const SCRATCHPAD_SIZE: nat := 0x400
  const IO_BASE: nat := 0x1F80_1000
  const IO_SIZE: nat := 0x2000
  const BIOS_BASE: nat := 0x1FC0_0000
  const BIOS_SIZE: nat := 0x8_0000
  const CACHE_CONTROL_BASE: nat := 0xFFFE_0000
  const CACHE_CONTROL_LAST: nat := 0xFFFE_0200
  const KSEG0_BASE: nat := 0x8000_0000
  const KSEG1_BASE: nat := 0xA000_0000

  /** A register value used as an address. */
  function AddressOf(x: bv32): Address
  {
    x as int
  }

  /** `address + k` in `uint32_t` arithmetic. */
  function Next(a: Address, k: nat): Address
  {
    (a + k) % WORD_MODULUS
  }

  /** The address with the KSEG1 or the KSEG0 base subtracted, as both bus functions
      do before matching a region. */
  function Physical(a: Address): (p: Address)
    ensures p < KSEG0_BASE
    ensures a < KSEG0_BASE ==> p == a
  {
    if a >= KSEG1_BASE then a - KSEG1_BASE
    else if a >= KSEG0_BASE then a - KSEG0_BASE
    else a
  }

  /** Where an access lands: a backing buffer and the index into it, the
      cache-control window, or nothing. */
  datatype Target =
    | Ram(offset: nat)
    | Expansion(offset: nat)
    | Scratchpad(offset: nat)
    | Io(offset: nat)
    | Rom(offset: nat)
    | CacheControl(offset: nat)
    | Unmapped
  {
    /** The regions whose writes are stored. */
    predicate Writable()
    {
      Ram? || Expansion? || Scratchpad?
    }

    /** The number of bytes the region holds (the cache window has no buffer). */
    function Size(): nat
    {
      match this
      case Ram(_) => RAM_SIZE
      case Expansion(_) => EXPANSION_SIZE
      case Scratchpad(_) => SCRATCHPAD_SIZE
      case Io(_) => IO_SIZE
      case Rom(_) => BIOS_SIZE
      case CacheControl(_) => CACHE_CONTROL_LAST - CACHE_CONTROL_BASE + 1
      case Unmapped => 0
    }

    /** The same region, `k` bytes further on. */
    function Advance(k: nat): Target
      requires !Unmapped?
    {
      match this
      case Ram(o) => Ram(o + k)
      case Expansion(o) => Expansion(o + k)
      case Scratchpad(o) => Scratchpad(o + k)
      case Io(o) => Io(o + k)
      case Rom(o) => Rom(o + k)
      case CacheControl(o) => CacheControl(o + k)
    }
  }

  /** The region table exactly as the interpreter writes it: the I/O window and the
      BIOS window are matched with an inclusive upper bound one byte past their buffers. */
  function LocateAsWritten(a: Address): Target
  {
    var p := Physical(a);
    if p < RAM_SIZE then Ram(p)
    else if EXPANSION_BASE <= p < EXPANSION_BASE + EXPANSION_SIZE then Expansion(p - EXPANSION_BASE)
    else if SCRATCHPAD_BASE <= p < SCRATCHPAD_BASE + SCRATCHPAD_SIZE then Scratchpad(p - SCRATCHPAD_BASE)
    else if IO_BASE <= p <= IO_BASE + IO_SIZE then Io(p - IO_BASE)
    else if BIOS_BASE <= p <= BIOS_BASE + BIOS_SIZE then Rom(p - BIOS_BASE)
    else if CACHE_CONTROL_BASE <= a <= CACHE_CONTROL_LAST then CacheControl(a - CACHE_CONTROL_BASE)
    else Unmapped
  }

  /** The region table with the two upper bounds made exclusive, so that every
      index lies inside its buffer; the two addresses the change affects fall
      through to "unmapped". The cache window is matched on the raw address. */
  function Locate(a: Address): (t: Target)
    ensures t.Unmapped? || t.offset < t.Size()
    ensures t.Unmapped? || t.CacheControl? || t.offset == Physical(a) - RegionBase(t)
  {
    var p := Physical(a);
    if p < RAM_SIZE then Ram(p)
    else if EXPANSION_BASE <= p < EXPANSION_BASE + EXPANSION_SIZE then Expansion(p - EXPANSION_BASE)
    else if SCRATCHPAD_BASE <= p < SCRATCHPAD_BASE + SCRATCHPAD_SIZE then Scratchpad(p - SCRATCHPAD_BASE)
    else if IO_BASE <= p < IO_BASE + IO_SIZE then Io(p - IO_BASE)
    else if BIOS_BASE <= p < BIOS_BASE + BIOS_SIZE then Rom(p - BIOS_BASE)
    else if CACHE_CONTROL_BASE <= a <= CACHE_CONTROL_LAST then CacheControl(a - CACHE_CONTROL_BASE)
    else Unmapped
  }

  /** The physical address at which a buffer-backed region starts. */
  function RegionBase(t: Target): nat
  {
    match t
    case Ram(_) => 0
    case Expansion(_) => EXPANSION_BASE
    case Scratchpad(_) => SCRATCHPAD_BASE
    case Io(_) => IO_BASE
    case Rom(_) => BIOS_BASE
    case CacheControl(_) => CACHE_CONTROL_BASE
    case Unmapped => 0
  }

  /** The five backing buffers the bus owns. */
  datatype Buffers = Buffers(
    ram: seq<bv8>,
    expansion: seq<bv8>,
    scratchpad: seq<bv8>,
    io: seq<bv8>,
    bios: seq<bv8>)

  /** Buffers of the sizes the interpreter declares. */
  type Memory = b: Buffers
    | |b.ram| == RAM_SIZE && |b.expansion| == EXPANSION_SIZE
      && |b.scratchpad| == SCRATCHPAD_SIZE && |b.io| == IO_SIZE && |b.bios| == BIOS_SIZE
    witness Buffers(seq(RAM_SIZE, _ => 0), seq(EXPANSION_SIZE, _ => 0),
                    seq(SCRATCHPAD_SIZE, _ => 0), seq(IO_SIZE, _ => 0), seq(BIOS_SIZE, _ => 0))

  /** `readMemory`: the byte at an address; the cache window and unmapped addresses read 0. */
  function ReadByte(m: Memory, a: Address): bv8
  {
    match Locate(a)
    case Ram(o) => m.ram[o]
    case Expansion(o) => m.expansion[o]
    case Scratchpad(o) => m.scratchpad[o]
    case Io(o) => m.io[o]
    case Rom(o) => m.bios[o]
    case CacheControl(_) => 0
    case Unmapped => 0
  }

  /** `readMemory16`: two byte reads, the lower address in the low byte. */
  function ReadHalf(m: Memory, a: Address): bv16
  {
    ReadByte(m, a) as bv16 | (ReadByte(m, Next(a, 1)) as bv16 << 8)
  }

  /** `readMemory32`: four byte reads, little-endian. */
  function ReadWord(m: Memory, a: Address): bv32
  {
    ReadByte(m, a) as bv32
      | (ReadByte(m, Next(a, 1)) as bv32 << 8)
      | (ReadByte(m, Next(a, 2)) as bv32 << 16)
      | (ReadByte(m, Next(a, 3)) as bv32 << 24)
  }

  /** Whether a byte write to this target is kept: only in a writable region, and
      not in RAM while the cache-isolate flag is set. */
  predicate Stores(t: Target, isolated: bool)
  {
    t.Writable() && !(t.Ram? && isolated)
  }

  /** `writeMemory`: the memory after one byte write. */
  function WriteByte(m: Memory, isolated: bool, a: Address, v: bv8): Memory
  {
    match Locate(a)
    case Ram(o) => if isolated then m else m.(ram := m.ram[o := v])
    case Expansion(o) => m.(expansion := m.expansion[o := v])
    case Scratchpad(o) => m.(scratchpad := m.scratchpad[o := v])
    case _ => m
  }

  /** `writeMemory16`: the low byte at `a`, the high byte at `a + 1`. */
  function WriteHalf(m: Memory, isolated: bool, a: Address, v: bv16): Memory
  {
    var m1 := WriteByte(m, isolated, a, (v & 0xFF) as bv8);
    WriteByte(m1, isolated, Next(a, 1), (v >> 8) as bv8)
  }

  /** `writeMemory32`: the four bytes of `v`, least significant first. */
  function WriteWord(m: Memory, isolated: bool, a: Address, v: bv32): Memory
  {
    var m1 := WriteByte(m, isolated, a, ByteOf(v, 0));
    var m2 := WriteByte(m1, isolated, Next(a, 1), ByteOf(v, 1));
    var m3 := WriteByte(m2, isolated, Next(a, 2), ByteOf(v, 2));
    WriteByte(m3, isolated, Next(a, 3), ByteOf(v, 3))
  }

  /** Byte `k` of a word, counting from the least significant. */
  function ByteOf(v: bv32, k: nat): bv8
    requires k < 4
  {
    if k == 0 then (v & 0xFF) as bv8
    else if k == 1 then ((v >> 8) & 0xFF) as bv8
    else if k == 2 then ((v >> 16) & 0xFF) as bv8
    else (v >> 24) as bv8
  }

  /** The memory at power-on: every buffer zero except the BIOS, which holds the
      ROM image at its start. */
  function PowerOn(rom: seq<bv8>): (m: Memory)
    requires |rom| <= BIOS_SIZE
    ensures m.bios[..|rom|] == rom
  {
    Buffers(seq(RAM_SIZE, _ => 0), seq(EXPANSION_SIZE, _ => 0), seq(SCRATCHPAD_SIZE, _ => 0),
            seq(IO_SIZE, _ => 0), seq(BIOS_SIZE, i => if 0 <= i < |rom| then rom[i] else 0))
  }

  /** The bus as the interpreter holds it: fixed buffers updated in place, and the
      cache-isolate flag `IsC` that `MTC0` sets and RAM writes consult. */
  class MemoryBus {
    const ram: array<bv8>
    const expansion: array<bv8>
    const scratchpad: array<bv8>
    const io: array<bv8>
    const bios: array<bv8>
    var isolated: bool

    ghost predicate Valid()
      reads this
    {
      && ram.Length == RAM_SIZE && expansion.Length == EXPANSION_SIZE
      && scratchpad.Length == SCRATCHPAD_SIZE && io.Length == IO_SIZE && bios.Length == BIOS_SIZE
    }

    /** The buffers' current contents as a value. */
    function Contents(): Memory
      reads this, ram, expansion, scratchpad, io, bios
      requires Valid()
    {
      Buffers(ram[..], expansion[..], scratchpad[..], io[..], bios[..])
    }

    /** Zeroed buffers with the ROM image copied to the start of the BIOS, isolation off. */
    constructor (rom: seq<bv8>)
      requires |rom| <= BIOS_SIZE
      ensures Valid() && Contents() == PowerOn(rom) && !isolated
      ensures fresh(ram) && fresh(expansion) && fresh(scratchpad) && fresh(io) && fresh(bios)
    {
      ram := new bv8[RAM_SIZE](_ => 0);
      expansion := new bv8[EXPANSION_SIZE](_ => 0);
      scratchpad := new bv8[SCRATCHPAD_SIZE](_ => 0);
      io := new bv8[IO_SIZE](_ => 0);
      bios := new bv8[BIOS_SIZE](i => if 0 <= i < |rom| then rom[i] else 0);
      isolated := false;
    }

    /** `writeMemory`: stores the byte in the region the address selects, if any. */
    method Write8(a: Address, v: bv8)
      requires Valid()
      modifies ram, expansion, scratchpad
      ensures Contents() == WriteByte(old(Contents()), isolated, a, v)
    {
      match Locate(a)
      case Ram(o) =>
        if !isolated {
          ram[o] := v;
        }
      case Expansion(o) =>
        expansion[o] := v;
      case Scratchpad(o) =>
        scratchpad[o] := v;
      case _ =>
    }

    /** `writeMemory16`: two byte writes, low byte first. */
    method Write16(a: Address, v: bv16)
      requires Valid()
      modifies ram, expansion, scratchpad
      ensures Contents() == WriteHalf(old(Contents()), isolated, a, v)
    {
      Write8(a, (v & 0xFF) as bv8);
      Write8(Next(a, 1), (v >> 8) as bv8);
    }

    /** `writeMemory32`: four byte writes, least significant byte first. */
    method Write32(a: Address, v: bv32)
      requires Valid()
      modifies ram, expansion, scratchpad
      ensures Contents() == WriteWord(old(Contents()), isolated, a, v)
    {
      Write8(a, ByteOf(v, 0));
      Write8(Next(a, 1), ByteOf(v, 1));
      Write8(Next(a, 2), ByteOf(v, 2));
      Write8(Next(a, 3), ByteOf(v, 3));
    }
  }
}
