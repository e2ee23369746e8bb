/** Reads and writes of the guest address space with the page cache deleted, as functions
    on an abstract store, and the laws they obey.  PalmMemory proves its cached, segmented
    methods against these functions. */
module GuestStore {
  import opened Arith
  import opened AddressMap

  /** What reaches the register block and the display controller, in order. */
  datatype BusAccess =
    | Reset
    | HwRead(address: uint32)
    | HwWrite(address: uint32, value: byte)
    | SedRead(offset: nat)
    | SedWrite(offset: nat, value: byte)

  /** Any device: what a read returns may depend on the whole history of accesses, the
      read itself included. */
  type Device = seq<BusAccess> -> byte

  datatype Store = Store(rom: seq<byte>, ram: seq<byte>, vram: seq<byte>, bus: seq<BusAccess>)

  datatype Target =
    | RomByte(offset: nat)
    | RamByte(offset: nat)
    | VramByte(offset: nat)
    | Register
    | SedRegister(offset: nat)
    | Open(value: byte)

  predicate WellSized(s: Store) {
    Mappable(|s.rom|, |s.ram|) && |s.vram| == SED_VRAM_SIZE
  }

  /** What reading needs; any ROM image will do. */
  predicate Sized(s: Store) {
    |s.ram| <= RAM_LOGICAL_SIZE && |s.vram| == SED_VRAM_SIZE
  }

  predicate RamSizeProbe(address: uint32) {
    RAM_LOGICAL_SIZE <= address < RAM_LOGICAL_SIZE + 4
  }

  predicate InDevice(address: uint32) {
    InRegisterSpace(address) || InSedRegisters(address) || InSedVram(address)
  }

  function BeyondMemory(address: uint32): (t: Target)
    ensures t.VramByte? ==> t.offset < SED_VRAM_SIZE
  {
    if InRegisterSpace(address) then Register
    else if InSedRegisters(address) then SedRegister(address - SED_REG_BASE)
    else if InSedVram(address) then VramByte(address - SED_BASE)
    else if RamSizeProbe(address) then Open(0)
    else Open(0xff)
  }

  /** Where palmRead8 without its cache lookup takes a byte from. */
  function ReadTarget(romSize: nat, ramSize: nat, address: uint32): (t: Target)
    requires ramSize <= RAM_LOGICAL_SIZE
    ensures t.RomByte? ==> t.offset < romSize
    ensures t.RamByte? ==> t.offset < ramSize
    ensures t.VramByte? ==> t.offset < SED_VRAM_SIZE
  {
    match RomOffset(romSize, address, 1)
    case Some(o) => RomByte(o)
    case None =>
      match RamOffset(ramSize, address, 1)
      case Some(o) => RamByte(o)
      case None => BeyondMemory(address)
  }

  /** Where palmWrite8 without its cache lookup puts a byte: devices are asked first, and a
      byte aimed at ROM or at nothing goes nowhere. */
  function WriteTarget(romSize: nat, ramSize: nat, address: uint32): (t: Target)
    requires ramSize <= RAM_LOGICAL_SIZE
    ensures !t.RomByte?
    ensures t.RamByte? ==> t.offset < ramSize
    ensures t.VramByte? ==> t.offset < SED_VRAM_SIZE
  {
    if InDevice(address) then BeyondMemory(address)
    else if InRomWindow(romSize, address) then Open(0xff)
    else match RamOffset(ramSize, address, 1)
         case Some(o) => RamByte(o)
         case None => Open(0xff)
  }

  /** The byte read, and the accesses made so far. */
  function Read8(device: Device, s: Store, address: uint32): (r: (byte, seq<BusAccess>))
    requires Sized(s)
  {
    match ReadTarget(|s.rom|, |s.ram|, address)
    case RomByte(o) => (s.rom[o], s.bus)
    case RamByte(o) => (s.ram[o], s.bus)
    case VramByte(o) => (s.vram[o], s.bus)
    case Register =>
      var bus := s.bus + [HwRead(address)];
      (device(bus), bus)
    case SedRegister(o) =>
      var bus := s.bus + [SedRead(o)];
      (device(bus), bus)
    case Open(v) => (v, s.bus)
  }

  function Write8(s: Store, address: uint32, value: byte): (r: Store)
    requires WellSized(s)
    ensures WellSized(r) && r.rom == s.rom && |r.ram| == |s.ram|
  {
    match WriteTarget(|s.rom|, |s.ram|, address)
    case RamByte(o) => s.(ram := s.ram[o := value])
    case VramByte(o) => s.(vram := s.vram[o := value])
    case Register => s.(bus := s.bus + [HwWrite(address, value)])
    case SedRegister(o) => s.(bus := s.bus + [SedWrite(o, value)])
    case Open(_) => s
  }

  /** Devices are asked before anything else. */
  lemma DeviceWrite(s: Store, address: uint32, value: byte)
    requires WellSized(s) && InDevice(address)
    ensures Write8(s, address, value)
            == if InRegisterSpace(address) then s.(bus := s.bus + [HwWrite(address, value)])
               else if InSedRegisters(address) then s.(bus := s.bus + [SedWrite(address - SED_REG_BASE, value)])
               else s.(vram := s.vram[address - SED_BASE := value])
  {}

  type uint16 = x: int | 0 <= x < 0x1_0000

  function Be16(hi: byte, lo: byte): uint16 {
    hi as int * 0x100 + lo as int
  }

  function Be32(hi: uint16, lo: uint16): uint32 {
    hi * 0x1_0000 + lo
  }

  function Hi(v: uint16): byte { (v / 0x100) as byte }
  function Lo(v: uint16): byte { (v % 0x100) as byte }
  function High(v: uint32): uint16 { v / 0x1_0000 }
  function Low(v: uint32): uint16 { v % 0x1_0000 }

  function PutWord(ram: seq<byte>, offset: nat, value: uint16): (r: seq<byte>)
    requires offset + 2 <= |ram|
  {
    ram[offset := Hi(value)][offset + 1 := Lo(value)]
  }

  function PutLong(ram: seq<byte>, offset: nat, value: uint32): (r: seq<byte>)
    requires offset + 4 <= |ram|
  {
    PutWord(PutWord(ram, offset, High(value)), offset + 2, Low(value))
  }

  /** Big-endian composition of byte accesses, first byte first. */
  function Read16(device: Device, s: Store, address: uint32): (r: (uint16, seq<BusAccess>))
    requires WellSized(s)
  {
    var (hi, bus1) := Read8(device, s, address);
    var (lo, bus2) := Read8(device, s.(bus := bus1), Next(address, 1));
    (Be16(hi, lo), bus2)
  }

  function Read32(device: Device, s: Store, address: uint32): (r: (uint32, seq<BusAccess>))
    requires WellSized(s)
  {
    var (hi, bus1) := Read16(device, s, address);
    var (lo, bus2) := Read16(device, s.(bus := bus1), Next(address, 2));
    (Be32(hi, lo), bus2)
  }

  function Write16(s: Store, address: uint32, value: uint16): (r: Store)
    requires WellSized(s)
    ensures WellSized(r)
  {
    Write8(Write8(s, address, Hi(value)), Next(address, 1), Lo(value))
  }

  function Write32(s: Store, address: uint32, value: uint32): (r: Store)
    requires WellSized(s)
    ensures WellSized(r)
  {
    Write16(Write16(s, address, High(value)), Next(address, 2), Low(value))
  }

  /** Reading the byte at distance j has no effect and gives b. */
  predicate ReadsByte(device: Device, s: Store, address: uint32, j: nat, b: byte)
    requires WellSized(s)
  {
    address + j < ADDRESS_END && Read8(device, s, address + j) == (b, s.bus)
  }

  predicate ReadsAs(device: Device, s: Store, address: uint32, bytes: seq<byte>)
    requires WellSized(s)
  {
    forall j :: 0 <= j < |bytes| ==> ReadsByte(device, s, address, j, bytes[j])
  }

  /** Two bytes that read without effect make a word. */
  lemma PureBytes(device: Device, s: Store, address: uint32, hi: byte, lo: byte)
    requires WellSized(s) && address + 1 < ADDRESS_END
    requires Read8(device, s, address) == (hi, s.bus) && Read8(device, s, address + 1) == (lo, s.bus)
    ensures Read16(device, s, address) == (Be16(hi, lo), s.bus)
  {}

  lemma PureWord(device: Device, s: Store, address: uint32, bytes: seq<byte>)
    requires |bytes| == 2 && WellSized(s) && ReadsAs(device, s, address, bytes)
    ensures Read16(device, s, address) == (Be16(bytes[0], bytes[1]), s.bus)
  {
    assert ReadsByte(device, s, address, 0, bytes[0]) && ReadsByte(device, s, address, 1, bytes[1]);
  }

  lemma PureLong(device: Device, s: Store, address: uint32, bytes: seq<byte>)
    requires |bytes| == 4 && WellSized(s) && ReadsAs(device, s, address, bytes)
    ensures Read32(device, s, address) == (Be32(Be16(bytes[0], bytes[1]), Be16(bytes[2], bytes[3])), s.bus)
  {
    assert ReadsByte(device, s, address, 3, bytes[3]);
    PureWord(device, s, address, bytes[..2]);
    forall j | 0 <= j < 2
      ensures ReadsByte(device, s, address + 2, j, bytes[2..][j])
    {
      assert ReadsByte(device, s, address, 2 + j, bytes[2 + j]);
    }
    PureWord(device, s, address + 2, bytes[2..]);
  }

  lemma RegisterWord(device: Device, s: Store, address: uint32)
    requires WellSized(s) && address + 1 < ADDRESS_END
    requires ReadTarget(|s.rom|, |s.ram|, address).Register? && ReadTarget(|s.rom|, |s.ram|, address + 1).Register?
    ensures var first, both := s.bus + [HwRead(address)], s.bus + [HwRead(address)] + [HwRead(address + 1)];
            Read16(device, s, address) == (Be16(device(first), device(both)), both)
  {}

  lemma RamWord(s: Store, address: uint32, value: uint16, offset: nat, next: nat)
    requires WellSized(s) && address + 1 < ADDRESS_END
    requires WriteTarget(|s.rom|, |s.ram|, address) == RamByte(offset)
    requires WriteTarget(|s.rom|, |s.ram|, address + 1) == RamByte(next)
    ensures Write16(s, address, value) == s.(ram := s.ram[offset := Hi(value)][next := Lo(value)])
    ensures next == offset + 1 ==> Write16(s, address, value) == s.(ram := PutWord(s.ram, offset, value))
  {}

  lemma RamLong(s: Store, address: uint32, value: uint32, offset: nat)
    requires WellSized(s) && address + 3 < ADDRESS_END && offset + 4 <= |s.ram|
    requires WriteTarget(|s.rom|, |s.ram|, address) == RamByte(offset)
    requires WriteTarget(|s.rom|, |s.ram|, address + 1) == RamByte(offset + 1)
    requires WriteTarget(|s.rom|, |s.ram|, address + 2) == RamByte(offset + 2)
    requires WriteTarget(|s.rom|, |s.ram|, address + 3) == RamByte(offset + 3)
    ensures Write32(s, address, value) == s.(ram := PutLong(s.ram, offset, value))
  {
    RamWord(s, address, High(value), offset, offset + 1);
    var s1 := Write16(s, address, High(value));
    assert WriteTarget(|s1.rom|, |s1.ram|, address + 3) == RamByte(offset + 3);
    RamWord(s1, address + 2, Low(value), offset + 2, offset + 3);
  }

  /** A byte handed to the registers, which ignore what is not theirs. */
  function RegisterByte(s: Store, address: uint32, value: byte): (r: Store)
    ensures WellSized(s) ==> WellSized(r)
  {
    if InRegisterSpace(address) then s.(bus := s.bus + [HwWrite(address, value)]) else s
  }

  function RegisterPair(s: Store, address: uint32, value: uint16): (r: Store)
    ensures WellSized(s) ==> WellSized(r)
  {
    RegisterByte(RegisterByte(s, address, Hi(value)), Next(address, 1), Lo(value))
  }

  /** From a register on that is two byte writes, also where the block ends and ROM begins. */
  lemma RegisterWordWrite(s: Store, address: uint32, value: uint16)
    requires WellSized(s) && address + 1 < ADDRESS_END
    requires InRegisterSpace(address) || RAM_TOP_ALIAS_END <= address < RAM_TOP_ALIAS_END + 2
    ensures Write16(s, address, value) == RegisterPair(s, address, value)
  {}

  lemma RegisterLongWrite(s: Store, address: uint32, value: uint32)
    requires WellSized(s) && InRegisterSpace(address) && address + 3 < ADDRESS_END
    ensures Write32(s, address, value)
            == RegisterPair(RegisterPair(s, address, High(value)), address + 2, Low(value))
  {
    RegisterWordWrite(s, address, High(value));
    RegisterWordWrite(RegisterPair(s, address, High(value)), address + 2, Low(value));
  }

  /** A wide write whose first byte is in a ROM window is dropped before the display
      controller is asked, which a byte write asks first. */
  predicate DroppedAsRom(romSize: nat, address: uint32) {
    InRomWindow(romSize, address) && !InRegisterSpace(address)
  }

  /** after is before with n bytes of from, starting at i, copied over it starting at k. */
  ghost predicate Copied(before: seq<byte>, after: seq<byte>, k: nat, from: seq<byte>, i: nat, n: nat) {
    && |after| == |before| && (n > 0 ==> k + n <= |before| && i + n <= |from|)
    && forall x :: 0 <= x < |after| ==> after[x] == if k <= x < k + n then from[i + (x - k)] else before[x]
  }

  lemma CopiedByte(start: seq<byte>, before: seq<byte>, k: nat, from: seq<byte>, i: nat, n: nat)
    requires Copied(start, before, k, from, i, n) && k + n < |start| && i + n < |from|
    ensures Copied(start, before[k + n := from[i + n]], k, from, i, n + 1)
  {}

  /** Writing a block into RAM and reading it back gives the block. */
  lemma BlockRoundTrip(ram: seq<byte>, offset: nat, block: seq<byte>, stored: seq<byte>, buffer: seq<byte>,
                       read: seq<byte>)
    requires 0 < |block| == |buffer|
    requires Copied(ram, stored, offset, block, 0, |block|)
    requires Copied(buffer, read, 0, stored, offset, |block|)
    ensures read == block
  {
    forall x | 0 <= x < |block|
      ensures read[x] == block[x]
    {
      assert read[x] == stored[offset + x];
    }
  }

  // ------------------------------------------------------------------------- laws

  predicate IsStorage(t: Target) {
    t.RomByte? || t.RamByte? || t.VramByte? || t.Open?
  }

  /** Reads and writes name the same RAM or VRAM byte wherever reading finds RAM or VRAM. */
  lemma TargetsAgree(romSize: nat, ramSize: nat, address: uint32)
    requires Mappable(romSize, ramSize)
    ensures ReadTarget(romSize, ramSize, address).RamByte?
            ==> WriteTarget(romSize, ramSize, address) == ReadTarget(romSize, ramSize, address)
    ensures WriteTarget(romSize, ramSize, address).RamByte?
            ==> WriteTarget(romSize, ramSize, address) == ReadTarget(romSize, ramSize, address)
  {
    RomWindowIsResolved(romSize, address);
    if ReadTarget(romSize, ramSize, address).RamByte? {
      RamIsNotDevice(romSize, ramSize, address);
    }
  }

  /** A stored byte is read back at exactly the addresses that name its cell; every other
      address that is not a device reads as before, and so does the ROM image. */
  lemma StoreLoad(device: Device, s: Store, at: uint32, value: byte, from: uint32)
    requires WellSized(s)
    requires IsStorage(ReadTarget(|s.rom|, |s.ram|, from))
    ensures var w, r := WriteTarget(|s.rom|, |s.ram|, at), ReadTarget(|s.rom|, |s.ram|, from);
            Read8(device, Write8(s, at, value), from).0
            == if r == w && !w.Open? then value else Read8(device, s, from).0
    ensures Write8(s, at, value).rom == s.rom
  {
  }

  /** Logical RAM: the store at one address is seen at exactly the logical addresses that
      are equal to it modulo the real RAM size. */
  lemma LogicalRamRepeats(device: Device, s: Store, at: uint32, value: byte, from: uint32)
    requires WellSized(s)
    requires at < RAM_LOGICAL_SIZE && from < RAM_LOGICAL_SIZE
    ensures Read8(device, Write8(s, at, value), from).0
            == if from % |s.ram| == at % |s.ram| then value else Read8(device, s, from).0
    ensures Read8(device, s, from) == (s.ram[from % |s.ram|], s.bus)
    ensures Write8(s, at, value) == s.(ram := s.ram[at % |s.ram| := value])
  {
    FoldIsMod(at, |s.ram|);
    FoldIsMod(from, |s.ram|);
    LogicalTarget(|s.rom|, |s.ram|, at);
    LogicalTarget(|s.rom|, |s.ram|, from);
  }

  lemma LogicalTarget(romSize: nat, ramSize: nat, address: uint32)
    requires Mappable(romSize, ramSize) && address < RAM_LOGICAL_SIZE
    ensures ReadTarget(romSize, ramSize, address) == RamByte(Fold(address, ramSize))
    ensures WriteTarget(romSize, ramSize, address) == RamByte(Fold(address, ramSize))
  {
    assert RomOffset(romSize, address, 1).None?;
    RomWindowIsResolved(romSize, address);
  }

  // ------------------------------------------------------------------ runs of stores

  /** A run of byte stores. */
  function Stores(s: Store, writes: seq<(uint32, byte)>): (r: Store)
    requires WellSized(s)
    ensures WellSized(r) && |r.rom| == |s.rom| && |r.ram| == |s.ram|
  {
    if writes == [] then s
    else Write8(Stores(s, writes[..|writes| - 1]), writes[|writes| - 1].0, writes[|writes| - 1].1)
  }

  /** The last store of a run that named the given cell. */
  function LastStore(romSize: nat, ramSize: nat, writes: seq<(uint32, byte)>, cell: Target): (v: Option<byte>)
    requires ramSize <= RAM_LOGICAL_SIZE
  {
    if writes == [] then None
    else if WriteTarget(romSize, ramSize, writes[|writes| - 1].0) == cell then Some(writes[|writes| - 1].1)
    else LastStore(romSize, ramSize, writes[..|writes| - 1], cell)
  }

  /** After any run of stores a memory byte reads as the last value stored to its cell, by
      whatever address, and as before when there was none. */
  lemma {:induction false} LastStoreWins(device: Device, s: Store, writes: seq<(uint32, byte)>, from: uint32)
    requires WellSized(s) && IsStorage(ReadTarget(|s.rom|, |s.ram|, from))
    ensures var cell := ReadTarget(|s.rom|, |s.ram|, from);
            var last := LastStore(|s.rom|, |s.ram|, writes, cell);
            Read8(device, Stores(s, writes), from).0
            == if last.Some? && !cell.Open? then last.value else Read8(device, s, from).0
    ensures Stores(s, writes).rom == s.rom
  {
    if writes != [] {
      var before, last := writes[..|writes| - 1], writes[|writes| - 1];
      LastStoreWins(device, s, before, from);
      StoreLoad(device, Stores(s, before), last.0, last.1, from);
    }
  }

  // ------------------------------------------------------- when the page cache shows

  /** palmRead8 for any ROM image: a page that was found answers by its own finding. */
  function CachedRead8(device: Device, s: Store, address: uint32): (r: (byte, seq<BusAccess>))
    requires Sized(s)
  {
    var k := address % PAGE_SIZE;
    match Find(|s.rom|, |s.ram|, address - k, PAGE_SIZE)
    case InRom(o) => (s.rom[o + k], s.bus)
    case InRam(o) => (s.ram[o + k], s.bus)
    case Nowhere => Read8(device, s, address)
  }

  ghost predicate ReadsThroughCache(device: Device, romSize: nat, ramSize: nat) {
    forall s: Store, address: uint32 :: Sized(s) && |s.rom| == romSize && |s.ram| == ramSize ==>
      CachedRead8(device, s, address) == Read8(device, s, address)
  }

  /** All 0 but for a 1 at the given place of the image. */
  function Marked(romSize: nat, ramSize: nat, place: nat): (s: Store)
    ensures |s.rom| == romSize && |s.ram| == ramSize && |s.vram| == SED_VRAM_SIZE
    ensures forall i :: 0 <= i < romSize ==> s.rom[i] == if i == place then 1 else 0
    ensures forall i :: 0 <= i < ramSize ==> s.ram[i] == 0
    ensures forall i :: 0 <= i < SED_VRAM_SIZE ==> s.vram[i] == 0
  {
    Store(seq(romSize, i => if i == place then 1 else 0), seq(ramSize, _ => 0), seq(SED_VRAM_SIZE, _ => 0), [])
  }

  /** Every byte of every image is read through the cache as without it exactly when the
      image is cacheable. */
  lemma ReadsExactly(device: Device, romSize: nat, ramSize: nat)
    requires romSize > 0 && 0 < ramSize <= RAM_LOGICAL_SIZE && ramSize % PAGE_SIZE == 0
    ensures ReadsThroughCache(device, romSize, ramSize) <==> Cacheable(romSize)
  {
    if Cacheable(romSize) {
      forall s: Store, address: uint32 | Sized(s) && |s.rom| == romSize && |s.ram| == ramSize
        ensures CachedRead8(device, s, address) == Read8(device, s, address)
      {
        CacheableAnswers(romSize, ramSize, address - address % PAGE_SIZE, address % PAGE_SIZE, 1);
      }
    } else {
      LastPageMisleads(romSize, ramSize);
      var s := Marked(romSize, ramSize, romSize / PAGE_SIZE * PAGE_SIZE);
      assert CachedRead8(device, s, LastPage(romSize)).0 == 0;
      assert Read8(device, s, LastPage(romSize)).0 == 1;
    }
  }

  // ------------------------------------------------------------ wide reads at a seam

  /** A word read from the registers, which answer 0xff for what is not theirs. */
  function RegisterReads(device: Device, s: Store, address: uint32): (r: (uint16, seq<BusAccess>))
    requires InRegisterSpace(address)
  {
    var first := s.bus + [HwRead(address)];
    var both := first + [HwRead(Next(address, 1))];
    if InRegisterSpace(Next(address, 1)) then (Be16(device(first), device(both)), both)
    else (Be16(device(first), 0xff), first)
  }

  /** What palmRead16 answers for a word that is not safe: two bytes of the image that follow
      each other, two bytes of RAM, or registers. */
  ghost predicate Seam(device: Device, s: Store, address: uint32, v: uint16, bus: seq<BusAccess>)
    requires Sized(s)
  {
    match RomOffset(|s.rom|, address, 2)
    case Some(o) => v == Be16(s.rom[o], s.rom[o + 1]) && bus == s.bus
    case None =>
      if InRegisterSpace(address) then (v, bus) == RegisterReads(device, s, address)
      else bus == s.bus && exists x: nat, y: nat :: x < |s.ram| && y < |s.ram| && v == Be16(s.ram[x], s.ram[y])
  }

  /** palmRead16 as it is, safe or not. */
  ghost predicate ReadsWord(device: Device, s: Store, address: uint32, v: uint16, bus: seq<BusAccess>)
    requires WellSized(s)
  {
    if WordSafe(|s.rom|, address) then (v, bus) == Read16(device, s, address) else Seam(device, s, address, v, bus)
  }

  /** Whatever is stored, palmRead16 can answer the composition of the two byte reads. */
  ghost predicate ComposesWord(device: Device, romSize: nat, ramSize: nat, address: uint32) {
    forall s: Store :: WellSized(s) && |s.rom| == romSize && |s.ram| == ramSize ==>
      ReadsWord(device, s, address, Read16(device, s, address).0, Read16(device, s, address).1)
  }

  /** The place of the image that a byte of an unsafe word is read from and the word is not. */
  function MissedPlace(romSize: nat, address: uint32): (p: nat) {
    var first, second := RomOffset(romSize, address, 1), RomOffset(romSize, Next(address, 1), 1);
    match RomOffset(romSize, address, 2)
    case None => if first.Some? then first.value else 0
    case Some(o) =>
      if first != Some(o) && first.Some? then first.value else if second.Some? then second.value else o + 1
  }

  /** The word is found in the image, and one of its bytes elsewhere. */
  lemma TornWord(device: Device, romSize: nat, ramSize: nat, address: uint32, s: Store)
    requires Mappable(romSize, ramSize) && !WordSafe(romSize, address)
    requires RomOffset(romSize, address, 2).Some? && s == Marked(romSize, ramSize, MissedPlace(romSize, address))
    ensures !Seam(device, s, address, Read16(device, s, address).0, Read16(device, s, address).1)
  {
    var o := RomOffset(romSize, address, 2).value;
    var (hi, bus) := Read8(device, s, address);
    assert RomOffset(romSize, address, 1).Some?;
    if RomOffset(romSize, address, 1) == Some(o) {
      assert hi == s.rom[o] && bus == s.bus;
      assert RomOffset(romSize, Next(address, 1), 1) != Some(o + 1);
    } else {
      assert hi == 1 && s.rom[o] == 0;
    }
  }

  /** Only a partial image can end between two registers, and only behind its last byte. */
  lemma RegisterEnd(romSize: nat, ramSize: nat, address: uint32)
    requires Mappable(romSize, ramSize) && !WordSafe(romSize, address) && !InRamAlias(address)
    requires RomOffset(romSize, address, 2).None? && address + 1 < ADDRESS_END
    ensures InRegisterSpace(address) && RomOffset(romSize, address, 1).Some?
  {
    if romSize % PAGE_SIZE == 0 {
      if PageContainsSpan(address, 2) { UniformSpans(romSize, ramSize, address, 2); }
    } else {
      LargeImageByte(romSize, address);
      LargeImageByte(romSize, address + 1);
    }
  }

  /** The word is not found in the image, and its first byte is. */
  lemma ShadowedWord(device: Device, romSize: nat, ramSize: nat, address: uint32, s: Store)
    requires Mappable(romSize, ramSize) && !WordSafe(romSize, address)
    requires RomOffset(romSize, address, 2).None? && s == Marked(romSize, ramSize, MissedPlace(romSize, address))
    ensures !Seam(device, s, address, Read16(device, s, address).0, Read16(device, s, address).1)
  {
    if address == ADDRESS_END - 1 {
      assert RamOffset(ramSize, 0, 1) == Some(0);
    } else if InRamAlias(address) {
      RomFillsAlias(romSize, address);
      assert Read8(device, s, address) == (1, s.bus);
      RomFillsAlias(romSize, address + 1);
      assert Read16(device, s, address).1 == s.bus;
    } else {
      RegisterEnd(romSize, ramSize, address);
      assert Read8(device, s, address).1 == s.bus;
    }
  }

  /** A word is the composition of its bytes at exactly the safe addresses. */
  lemma WordReadsExactly(device: Device, romSize: nat, ramSize: nat, address: uint32)
    requires Mappable(romSize, ramSize)
    ensures ComposesWord(device, romSize, ramSize, address) <==> WordSafe(romSize, address)
  {
    if !WordSafe(romSize, address) {
      var s := Marked(romSize, ramSize, MissedPlace(romSize, address));
      if RomOffset(romSize, address, 2).Some? {
        TornWord(device, romSize, ramSize, address, s);
      } else {
        ShadowedWord(device, romSize, ramSize, address, s);
      }
    }
  }

  // ---------------------------------------------------------------- longs at a seam

  function LongAt(b: seq<byte>, o: nat): uint32
    requires o + 4 <= |b|
  {
    Be32(Be16(b[o], b[o + 1]), Be16(b[o + 2], b[o + 3]))
  }

  /** A long read as two words, each as palmRead16 reads it. */
  ghost predicate TwoWords(device: Device, s: Store, address: uint32, v: uint32, bus: seq<BusAccess>)
    requires WellSized(s)
  {
    exists v1: uint16, bus1: seq<BusAccess>, v2: uint16 ::
      ReadsWord(device, s, address, v1, bus1) && ReadsWord(device, s.(bus := bus1), Next(address, 2), v2, bus)
      && v == Be32(v1, v2)
  }

  /** palmRead32 as it is, safe or not: which of the two last answers is given where RAM lies
      behind ROM depends on where the segments of RAM end. */
  ghost predicate ReadsLong(device: Device, s: Store, address: uint32, v: uint32, bus: seq<BusAccess>)
    requires WellSized(s)
  {
    if LongSafe(|s.rom|, |s.ram|, address) then (v, bus) == Read32(device, s, address)
    else match RomOffset(|s.rom|, address, 4)
         case Some(o) => v == LongAt(s.rom, o) && bus == s.bus
         case None => RamLong32(s, address, v, bus) || TwoWords(device, s, address, v, bus)
  }

  ghost predicate RamLong32(s: Store, address: uint32, v: uint32, bus: seq<BusAccess>)
    requires Sized(s)
  {
    && InRamAlias(address) && RamOffset(|s.ram|, address, 4).Some? && bus == s.bus
    && exists x: nat :: x + 4 <= |s.ram| && v == LongAt(s.ram, x)
  }

  lemma SeamLong(device: Device, s: Store, address: uint32, x: nat)
    requires WellSized(s) && x + 4 <= |s.ram| && RomOffset(|s.rom|, address, 4).None?
    requires InRamAlias(address) && RamOffset(|s.ram|, address, 4).Some? && !Uniform(|s.rom|, address, 4)
    ensures ReadsLong(device, s, address, LongAt(s.ram, x), s.bus)
  {
    assert RamLong32(s, address, LongAt(s.ram, x), s.bus);
  }

  /** Whatever is stored and however RAM is cut into segments, palmRead32 answers the composition
      of the four byte reads. */
  ghost predicate ComposesLong(device: Device, romSize: nat, ramSize: nat, address: uint32) {
    forall s: Store, v: uint32, bus: seq<BusAccess> ::
      WellSized(s) && |s.rom| == romSize && |s.ram| == ramSize && ReadsLong(device, s, address, v, bus) ==>
        (v, bus) == Read32(device, s, address)
  }

  /** One of palmRead16's answers. */
  function WordAnswer(device: Device, s: Store, address: uint32): (r: (uint16, seq<BusAccess>))
    requires WellSized(s)
  {
    if WordSafe(|s.rom|, address) then Read16(device, s, address)
    else match RomOffset(|s.rom|, address, 2)
         case Some(o) => (Be16(s.rom[o], s.rom[o + 1]), s.bus)
         case None =>
           if InRegisterSpace(address) then RegisterReads(device, s, address) else (Be16(s.ram[0], s.ram[0]), s.bus)
  }

  lemma WordAnswers(device: Device, s: Store, address: uint32)
    requires WellSized(s)
    ensures ReadsWord(device, s, address, WordAnswer(device, s, address).0, WordAnswer(device, s, address).1)
  {}

  /** With the missed place marked, that answer to an unsafe word is not the composition. */
  lemma UnsafeValue(device: Device, romSize: nat, ramSize: nat, address: uint32, s: Store)
    requires Mappable(romSize, ramSize) && romSize <= DB_REG_BASE - ROM_BASE && !WordSafe(romSize, address)
    requires s.(bus := []) == Marked(romSize, ramSize, MissedPlace(romSize, address))
    ensures WordAnswer(device, s, address).0 != Read16(device, s, address).0
  {
    if RomOffset(romSize, address, 2).Some? {
      TornValue(device, romSize, ramSize, address, s);
    } else {
      ShadowedValue(device, romSize, ramSize, address, s);
    }
  }

  lemma TornValue(device: Device, romSize: nat, ramSize: nat, address: uint32, s: Store)
    requires Mappable(romSize, ramSize) && romSize <= DB_REG_BASE - ROM_BASE && !WordSafe(romSize, address)
    requires RomOffset(romSize, address, 2).Some?
    requires s.(bus := []) == Marked(romSize, ramSize, MissedPlace(romSize, address))
    ensures WordAnswer(device, s, address).0 != Read16(device, s, address).0
  {
    var o := RomOffset(romSize, address, 2).value;
    var hi := Read8(device, s, address).0;
    if RomOffset(romSize, address, 1) == Some(o) {
      assert hi == s.rom[o] && Read8(device, s, address).1 == s.bus;
      assert RomOffset(romSize, Next(address, 1), 1) != Some(o + 1);
      assert Read8(device, s, Next(address, 1)).0 != s.rom[o + 1];
    } else {
      assert hi == 1 && s.rom[o] == 0;
    }
  }

  lemma ShadowedValue(device: Device, romSize: nat, ramSize: nat, address: uint32, s: Store)
    requires Mappable(romSize, ramSize) && romSize <= DB_REG_BASE - ROM_BASE && !WordSafe(romSize, address)
    requires RomOffset(romSize, address, 2).None?
    requires s.(bus := []) == Marked(romSize, ramSize, MissedPlace(romSize, address))
    ensures WordAnswer(device, s, address).0 != Read16(device, s, address).0
  {
    if address == ADDRESS_END - 1 {
      assert RamOffset(ramSize, 0, 1) == Some(0);
    } else if InRegisterSpace(address) {
      NoRomAtRegisters(romSize, ramSize, address);
      ShadowedRegister(device, romSize, ramSize, s);
    } else if InRamAlias(address) {
      FirstByteOne(device, romSize, ramSize, address, s);
    } else {
      RegisterEnd(romSize, ramSize, address);
    }
  }

  lemma NoRomAtRegisters(romSize: nat, ramSize: nat, address: uint32)
    requires Mappable(romSize, ramSize) && romSize <= DB_REG_BASE - ROM_BASE && !WordSafe(romSize, address)
    requires RomOffset(romSize, address, 2).None? && InRegisterSpace(address) && address < ADDRESS_END - 1
    ensures address == RAM_TOP_ALIAS_END - 1
  {
    if address >= DB_REG_BASE {
      UniformSpans(romSize, ramSize, address, 2);
    } else if address < RAM_TOP_ALIAS_END - 1 {
      if romSize % PAGE_SIZE == 0 {
        UniformSpans(romSize, ramSize, address, 2);
      } else {
        LargeImageByte(romSize, address);
      }
    }
  }

  lemma ShadowedRegister(device: Device, romSize: nat, ramSize: nat, s: Store)
    requires Mappable(romSize, ramSize) && !WordSafe(romSize, RAM_TOP_ALIAS_END - 1)
    requires RomOffset(romSize, RAM_TOP_ALIAS_END - 1, 2).None?
    requires s.(bus := []) == Marked(romSize, ramSize, MissedPlace(romSize, RAM_TOP_ALIAS_END - 1))
    ensures WordAnswer(device, s, RAM_TOP_ALIAS_END - 1).0 != Read16(device, s, RAM_TOP_ALIAS_END - 1).0
  {
    RomFillsAlias(romSize, RAM_TOP_ALIAS_END - 1);
    RomFillsAlias(romSize, RAM_TOP_ALIAS_END);
    assert Read8(device, s, RAM_TOP_ALIAS_END - 1).1 == s.bus;
    assert Read8(device, s, RAM_TOP_ALIAS_END).0 <= 1;
  }

  /** With its first byte's place marked, a word in the ROM alias reads as 0x100 at least. */
  lemma FirstByteOne(device: Device, romSize: nat, ramSize: nat, address: uint32, s: Store)
    requires Mappable(romSize, ramSize) && InRamAlias(address)
    requires RomOffset(romSize, address, 1).Some?
             ==> s.(bus := []) == Marked(romSize, ramSize, RomOffset(romSize, address, 1).value)
    ensures RomOffset(romSize, address, 1).Some? && WellSized(s) && Read16(device, s, address).0 >= 0x100
  {
    RomFillsAlias(romSize, address);
    assert Read8(device, s, address) == (1, s.bus);
  }

  /** High and low words of a long. */
  lemma LongParts(device: Device, s: Store, address: uint32, v1: uint16, v2: uint16)
    requires WellSized(s) && Be32(v1, v2) == Read32(device, s, address).0
    ensures var (hi, bus) := Read16(device, s, address);
            v1 == hi && v2 == Read16(device, s.(bus := bus), Next(address, 2)).0
  {}

  /** Two words answered as they may be are an answer to the long. */
  lemma WordsAnswer(device: Device, s: Store, address: uint32)
    requires WellSized(s) && !LongSafe(|s.rom|, |s.ram|, address) && RomOffset(|s.rom|, address, 4).None?
    ensures var (v1, bus1) := WordAnswer(device, s, address);
            var (v2, bus) := WordAnswer(device, s.(bus := bus1), Next(address, 2));
            ReadsLong(device, s, address, Be32(v1, v2), bus)
  {
    var (v1, bus1) := WordAnswer(device, s, address);
    var (v2, bus) := WordAnswer(device, s.(bus := bus1), Next(address, 2));
    WordAnswers(device, s, address);
    WordAnswers(device, s.(bus := bus1), Next(address, 2));
    assert TwoWords(device, s, address, Be32(v1, v2), bus);
  }

  lemma FirstUnsafe(device: Device, romSize: nat, ramSize: nat, address: uint32)
    requires Mappable(romSize, ramSize) && romSize <= DB_REG_BASE - ROM_BASE && !WordSafe(romSize, address)
    requires !LongSafe(romSize, ramSize, address) && RomOffset(romSize, address, 4).None?
    ensures !ComposesLong(device, romSize, ramSize, address)
  {
    var s := Marked(romSize, ramSize, MissedPlace(romSize, address));
    WordsAnswer(device, s, address);
    UnsafeValue(device, romSize, ramSize, address, s);
    Differs(device, s, address, WordAnswer(device, s, address));
  }

  /** Words that differ in one half make longs that differ. */
  lemma Differs(device: Device, s: Store, address: uint32, first: (uint16, seq<BusAccess>))
    requires WellSized(s)
    ensures var second := WordAnswer(device, s.(bus := first.1), Next(address, 2)).0;
            Be32(first.0, second) == Read32(device, s, address).0 ==>
              && first.0 == Read16(device, s, address).0
              && second == Read16(device, s.(bus := Read16(device, s, address).1), Next(address, 2)).0
  {
    var second := WordAnswer(device, s.(bus := first.1), Next(address, 2)).0;
    if Be32(first.0, second) == Read32(device, s, address).0 {
      LongParts(device, s, address, first.0, second);
    }
  }

  lemma SecondUnsafe(device: Device, romSize: nat, ramSize: nat, address: uint32)
    requires Mappable(romSize, ramSize) && romSize <= DB_REG_BASE - ROM_BASE
    requires WordSafe(romSize, address) && !WordSafe(romSize, Next(address, 2))
    requires !LongSafe(romSize, ramSize, address) && RomOffset(romSize, address, 4).None?
    ensures !ComposesLong(device, romSize, ramSize, address)
  {
    var s := Marked(romSize, ramSize, MissedPlace(romSize, Next(address, 2)));
    WordsAnswer(device, s, address);
    UnsafeValue(device, romSize, ramSize, Next(address, 2), s.(bus := Read16(device, s, address).1));
    Differs(device, s, address, Read16(device, s, address));
  }

  /** The place of the image that the first or the last byte of a torn long is read from. */
  function MissedByte(romSize: nat, address: uint32, o: nat): (p: nat) {
    var first, last := RomOffset(romSize, address, 1), RomOffset(romSize, Next(address, 3), 1);
    if first != Some(o) && first.Some? then first.value else if last.Some? then last.value else o + 3
  }

  lemma LastByte(device: Device, s: Store, address: uint32, a: byte, b: byte, c: byte, d: byte)
    requires WellSized(s) && Be32(Be16(a, b), Be16(c, d)) == Read32(device, s, address).0
    ensures a == Read8(device, s, address).0
    ensures !ReadTarget(|s.rom|, |s.ram|, Next(address, 3)).Register?
            && !ReadTarget(|s.rom|, |s.ram|, Next(address, 3)).SedRegister? ==>
              d == Read8(device, s, Next(address, 3)).0
  {
    var (hi, bus) := Read16(device, s, address);
    var t := s.(bus := bus);
    LongParts(device, s, address, Be16(a, b), Be16(c, d));
    var u := t.(bus := Read8(device, t, Next(address, 2)).1);
    assert Next(Next(address, 2), 1) == Next(address, 3);
    assert d == Read8(device, u, Next(address, 3)).0;
  }

  /** A long that is found in the image and one of whose end bytes is not found there. */
  lemma TornEnds(romSize: nat, ramSize: nat, address: uint32, o: nat)
    requires Mappable(romSize, ramSize) && !LongSafe(romSize, ramSize, address)
    requires RomOffset(romSize, address, 4) == Some(o)
    ensures RomOffset(romSize, address, 1).Some?
    ensures RomOffset(romSize, address, 1) != Some(o) || RomOffset(romSize, Next(address, 3), 1) != Some(o + 3)
  {}

  /** What is read behind the end of a window is no device. */
  lemma BehindWindow(romSize: nat, ramSize: nat, address: uint32, o: nat)
    requires Mappable(romSize, ramSize) && romSize <= DB_REG_BASE - ROM_BASE
    requires RomOffset(romSize, address, 4) == Some(o) && RomOffset(romSize, Next(address, 3), 1).None?
    ensures var t := ReadTarget(romSize, ramSize, Next(address, 3)); t.RamByte? || t.Open?
  {}

  lemma TornLong(device: Device, romSize: nat, ramSize: nat, address: uint32)
    requires Mappable(romSize, ramSize) && romSize <= DB_REG_BASE - ROM_BASE
    requires !LongSafe(romSize, ramSize, address) && RomOffset(romSize, address, 4).Some?
    ensures !ComposesLong(device, romSize, ramSize, address)
  {
    var o := RomOffset(romSize, address, 4).value;
    var s := Marked(romSize, ramSize, MissedByte(romSize, address, o));
    assert ReadsLong(device, s, address, LongAt(s.rom, o), s.bus);
    TornEnds(romSize, ramSize, address, o);
    if RomOffset(romSize, Next(address, 3), 1).None? { BehindWindow(romSize, ramSize, address, o); }
    TornValues(device, address, s, o);
  }

  lemma TornValues(device: Device, address: uint32, s: Store, o: nat)
    requires WellSized(s) && o + 4 <= |s.rom| && s == Marked(|s.rom|, |s.ram|, MissedByte(|s.rom|, address, o))
    requires RomOffset(|s.rom|, address, 1).Some?
    requires RomOffset(|s.rom|, address, 1) != Some(o) || RomOffset(|s.rom|, Next(address, 3), 1) != Some(o + 3)
    requires var t := ReadTarget(|s.rom|, |s.ram|, Next(address, 3)); t.RomByte? || t.RamByte? || t.Open?
    ensures LongAt(s.rom, o) != Read32(device, s, address).0
  {
    if LongAt(s.rom, o) == Read32(device, s, address).0 {
      LastByte(device, s, address, s.rom[o], s.rom[o + 1], s.rom[o + 2], s.rom[o + 3]);
    }
  }

  lemma ShadowedLong(device: Device, romSize: nat, ramSize: nat, address: uint32)
    requires Mappable(romSize, ramSize) && InRamAlias(address)
    requires !LongSafe(romSize, ramSize, address) && RomOffset(romSize, address, 4).None?
    requires RamOffset(ramSize, address, 4).Some?
    ensures !ComposesLong(device, romSize, ramSize, address)
  {
    RomFillsAlias(romSize, address);
    var s := Marked(romSize, ramSize, RomOffset(romSize, address, 1).value);
    FirstByteOne(device, romSize, ramSize, address, s);
    assert RamLong32(s, address, LongAt(s.ram, 0), s.bus);
    assert ReadsLong(device, s, address, LongAt(s.ram, 0), s.bus);
    assert Read32(device, s, address).0 >= 0x100_0000;
  }

  /** A long is the composition of its bytes, for every content and every segmentation of RAM, at
      exactly the safe addresses; the image ends before the registers. */
  lemma LongReadsExactly(device: Device, romSize: nat, ramSize: nat, address: uint32)
    requires Mappable(romSize, ramSize) && romSize <= DB_REG_BASE - ROM_BASE
    ensures ComposesLong(device, romSize, ramSize, address) <==> LongSafe(romSize, ramSize, address)
  {
    if !LongSafe(romSize, ramSize, address) {
      if RomOffset(romSize, address, 4).Some? {
        TornLong(device, romSize, ramSize, address);
      } else if InRamAlias(address) && RamOffset(ramSize, address, 4).Some? {
        ShadowedLong(device, romSize, ramSize, address);
      } else if WordSafe(romSize, address) {
        SecondUnsafe(device, romSize, ramSize, address);
      } else {
        FirstUnsafe(device, romSize, ramSize, address);
      }
    }
  }

  // -------------------------------------------------------- wide writes aimed at ROM

  predicate DeviceAt(address: uint32, j: nat)
    requires address + j < ADDRESS_END
  {
    InDevice(address + j)
  }

  /** A dropped access that a device should have heard. */
  predicate Loses(romSize: nat, address: uint32, size: nat)
    requires address + size <= ADDRESS_END
  {
    DroppedAsRom(romSize, address) && exists j :: 0 <= j < size && DeviceAt(address, j)
  }

  /** No access here is handed to a device. */
  predicate Quiet(address: uint32) {
    !InRegisterSpace(address) && !InSedRegisters(address)
  }

  /** A byte write that changes nothing although a device may be asked: not a register, and
      display memory that holds the byte already. */
  predicate Unheard(s: Store, address: uint32, value: byte)
    requires WellSized(s)
  {
    Quiet(address) && (InSedVram(address) ==> s.vram[address - SED_BASE] == value)
  }

  /** From the ROM aliases upwards a byte write reaches a device, or nothing. */
  lemma HighByte(s: Store, address: uint32, value: byte)
    requires WellSized(s) && ROM_LOW_24BIT_ALIAS_BASE <= address
    ensures var r := Write8(s, address, value);
            && r.ram == s.ram
            && r.bus == (if InRegisterSpace(address) then s.bus + [HwWrite(address, value)]
                         else if InSedRegisters(address) then s.bus + [SedWrite(address - SED_REG_BASE, value)]
                         else s.bus)
            && r.vram == if InSedVram(address) then s.vram[address - SED_BASE := value] else s.vram
  {}

  /** Two bytes written up there: their traces, and that they leave none exactly when neither
      would be heard by itself. */
  ghost predicate WordEffect(s: Store, r: Store, address: uint32, hi: byte, lo: byte) {
    && WellSized(s) && WellSized(r) && address + 1 < ADDRESS_END
    && (r == s <==> Unheard(s, address, hi) && Unheard(s, address + 1, lo))
    && r.rom == s.rom && r.ram == s.ram && s.bus <= r.bus
    && (!Quiet(address) || !Quiet(address + 1) ==> s.bus < r.bus)
    && (forall i :: 0 <= i < SED_VRAM_SIZE && i != address - SED_BASE && i != address + 1 - SED_BASE ==>
          r.vram[i] == s.vram[i])
    && (InSedVram(address) ==> r.vram[address - SED_BASE] == hi)
    && (InSedVram(address + 1) ==> r.vram[address + 1 - SED_BASE] == lo)
  }

  lemma HighWord(s: Store, address: uint32, value: uint16)
    requires WellSized(s) && ROM_LOW_24BIT_ALIAS_BASE <= address < ADDRESS_END - 1
    ensures WordEffect(s, Write16(s, address, value), address, Hi(value), Lo(value))
  {
    HighByte(s, address, Hi(value));
    var t := Write8(s, address, Hi(value));
    HighByte(t, address + 1, Lo(value));
    var r := Write8(t, address + 1, Lo(value));
    if Unheard(s, address, Hi(value)) && Unheard(s, address + 1, Lo(value)) {
      assert t.vram == s.vram && r.vram == s.vram;
    } else {
      assert |r.bus| > |s.bus| || r.vram != s.vram;
    }
  }

  /** What a byte changed is still changed after writes to other cells. */
  lemma StaysHeard(s: Store, t: Store, r: Store, address: uint32, value: byte)
    requires WellSized(s) && WellSized(t) && WellSized(r) && s.bus <= t.bus <= r.bus
    requires !Unheard(s, address, value)
    requires !Quiet(address) ==> s.bus < t.bus
    requires InSedVram(address) ==> r.vram[address - SED_BASE] == t.vram[address - SED_BASE] == value
    ensures r != s
  {}

  lemma TwoWordEffects(s: Store, t: Store, r: Store, address: uint32, b0: byte, b1: byte, b2: byte, b3: byte)
    requires address + 3 < ADDRESS_END
    requires WordEffect(s, t, address, b0, b1) && WordEffect(t, r, address + 2, b2, b3)
    ensures r == s <==> && Unheard(s, address, b0) && Unheard(s, address + 1, b1)
                        && Unheard(s, address + 2, b2) && Unheard(s, address + 3, b3)
  {
    if !Unheard(s, address, b0) {
      StaysHeard(s, t, r, address, b0);
    } else if !Unheard(s, address + 1, b1) {
      StaysHeard(s, t, r, address + 1, b1);
    }
  }

  /** A dropped word loses nothing exactly when no device would have heard its bytes. */
  lemma DroppedWord(s: Store, address: uint32, value: uint16)
    requires WellSized(s) && DroppedAsRom(|s.rom|, address) && address + 1 < ADDRESS_END
    ensures Write16(s, address, value) == s
            <==> Unheard(s, address, Hi(value)) && Unheard(s, address + 1, Lo(value))
  {
    HighWord(s, address, value);
  }

  lemma LongEffect(s: Store, t: Store, address: uint32, b0: byte, b1: byte, low: uint16)
    requires ROM_LOW_24BIT_ALIAS_BASE <= address < ADDRESS_END - 3 && WordEffect(s, t, address, b0, b1)
    ensures Write16(t, address + 2, low) == s
            <==> && Unheard(s, address, b0) && Unheard(s, address + 1, b1)
                 && Unheard(s, address + 2, Hi(low)) && Unheard(s, address + 3, Lo(low))
  {
    HighWord(t, address + 2, low);
    TwoWordEffects(s, t, Write16(t, address + 2, low), address, b0, b1, Hi(low), Lo(low));
  }

  lemma DroppedLong(s: Store, address: uint32, value: uint32)
    requires WellSized(s) && DroppedAsRom(|s.rom|, address) && address + 3 < ADDRESS_END
    ensures Write32(s, address, value) == s
            <==> && Unheard(s, address, Hi(High(value))) && Unheard(s, address + 1, Lo(High(value)))
                 && Unheard(s, address + 2, Hi(Low(value))) && Unheard(s, address + 3, Lo(Low(value)))
  {
    HighWord(s, address, High(value));
    LongEffect(s, Write16(s, address, High(value)), address, Hi(High(value)), Lo(High(value)), Low(value));
  }

  /** A drop is what the byte writes do if no byte of it is a device's. */
  lemma KeptWord(s: Store, address: uint32, value: uint16)
    requires WellSized(s) && DroppedAsRom(|s.rom|, address) && address + 1 < ADDRESS_END && !Loses(|s.rom|, address, 2)
    ensures Write16(s, address, value) == s
  {
    DroppedWord(s, address, value);
    assert !DeviceAt(address, 0) && !DeviceAt(address, 1);
  }

  lemma KeptLong(s: Store, address: uint32, value: uint32)
    requires WellSized(s) && DroppedAsRom(|s.rom|, address) && address + 3 < ADDRESS_END && !Loses(|s.rom|, address, 4)
    ensures Write32(s, address, value) == s
  {
    DroppedLong(s, address, value);
    assert !DeviceAt(address, 0) && !DeviceAt(address, 1) && !DeviceAt(address, 2) && !DeviceAt(address, 3);
  }

  /** A long that starts before ROM and reaches into it reaches no device there. */
  lemma SecondWordKept(romSize: nat, address: uint32)
    requires address + 3 < ADDRESS_END && !InRomWindow(romSize, address)
    ensures !Loses(romSize, address + 2, 2)
  {
    if InRomWindow(romSize, address + 2) {
      assert !DeviceAt(address + 2, 0) && !DeviceAt(address + 2, 1);
    }
  }

  /** Whatever is stored and written, a word or long dropped here loses nothing. */
  ghost predicate DropsWord(romSize: nat, ramSize: nat, address: uint32) {
    forall s: Store, value: uint16 :: WellSized(s) && |s.rom| == romSize && |s.ram| == ramSize ==>
      Write16(s, address, value) == s
  }

  ghost predicate DropsLong(romSize: nat, ramSize: nat, address: uint32) {
    forall s: Store, value: uint32 :: WellSized(s) && |s.rom| == romSize && |s.ram| == ramSize ==>
      Write32(s, address, value) == s
  }

  /** Dropping is harmless at exactly the addresses where no byte is a device's. */
  lemma DropsExactly(romSize: nat, ramSize: nat, address: uint32)
    requires Mappable(romSize, ramSize) && DroppedAsRom(romSize, address) && address + 3 < ADDRESS_END
    ensures DropsWord(romSize, ramSize, address) <==> !Loses(romSize, address, 2)
    ensures DropsLong(romSize, ramSize, address) <==> !Loses(romSize, address, 4)
  {
    var s := Marked(romSize, ramSize, 0);
    DroppedWord(s, address, 0xffff);
    DroppedLong(s, address, 0xffff_ffff);
    assert Hi(High(0xffff_ffff)) == Lo(High(0xffff_ffff)) == Hi(Low(0xffff_ffff)) == Lo(Low(0xffff_ffff)) == 0xff;
    assert Hi(0xffff) == Lo(0xffff) == 0xff;
    forall t: Store, value: uint32 | WellSized(t) && |t.rom| == romSize && |t.ram| == ramSize
      ensures !Loses(romSize, address, 2) ==> Write16(t, address, Low(value)) == t
      ensures !Loses(romSize, address, 4) ==> Write32(t, address, value) == t
    {
      if !Loses(romSize, address, 2) { KeptWord(t, address, Low(value)); }
      if !Loses(romSize, address, 4) { KeptLong(t, address, value); }
    }
  }

  /** The image ends so far before the display controller's memory that no long reaches both. */
  predicate Sheltered(romSize: nat) {
    romSize + 2 < SED_BASE - ROM_BASE
  }

  /** The span does not run from ROM into the registers of the 24-bit map. */
  predicate Clear(address: uint32, size: nat) {
    address + size <= DB_REG_24BIT_BASE || DB_REG_24BIT_BASE <= address
  }

  /** A sheltered image loses a byte only where an access runs into those registers, and there
      every image does; any other image loses display memory too. */
  lemma ShelteredExactly(romSize: nat, ramSize: nat)
    requires Mappable(romSize, ramSize)
    ensures Sheltered(romSize)
            <==> forall address: uint32, size: nat ::
                   size <= 4 && address + size <= ADDRESS_END && Clear(address, size) ==>
                     !Loses(romSize, address, size)
    ensures forall address: uint32, size: nat :: 0 < size <= 4 && !Clear(address, size) ==>
              address + size <= ADDRESS_END && Loses(romSize, address, size)
  {
    if !Sheltered(romSize) {
      assert DeviceAt(SED_BASE - 3, 3) && Clear(SED_BASE - 3, 4);
      assert Loses(romSize, SED_BASE - 3, 4);
    }
    forall address: uint32, size: nat | 0 < size <= 4 && !Clear(address, size)
      ensures address + size <= ADDRESS_END && Loses(romSize, address, size)
    {
      assert DeviceAt(address, size - 1);
    }
  }
}
