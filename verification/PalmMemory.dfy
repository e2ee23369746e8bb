/** palm_memory.cpp as it runs: RAM in separately allocated segments, two direct-mapped
    page caches in front of the resolver, and accesses of 8, 16 and 32 bits. */
module PalmMemory {
  import opened Arith
  import opened AddressMap
  import opened GuestStore

  const CACHE_ENTRIES: nat := 256
  const NO_TAG: uint32 := 0xffff_ffff
  const MAX_SEGMENTS: nat := 64
  const INTERNAL_LOW_SIZE: nat := 96 * 1024
  const INTERNAL_LOW_STEP: nat := 16 * 1024
  const BLOCK_SIZES: seq<nat> :=
    [1048576, 524288, 262144, 131072, 65536, 32768, 16384, 8192, 4096, 2048, 1024, 512, 256, 128, 64]

  /** A host pointer: into one block at an index, or null. */
  datatype Pointer = Null | At(block: array<byte>, index: int)

  datatype Segment = Segment(data: array<byte>, base: nat, size: nat)

  datatype CachedPage = CachedPage(tag: uint32, base: Pointer)

  function Advance(p: Pointer, k: int): Pointer {
    match p
    case Null => Null
    case At(block, index) => At(block, index + k)
  }

  predicate Holds(s: Segment, offset: int, size: int) {
    offset >= s.base && offset + size <= s.base + s.size
  }

  /** The first segment that holds the whole span, as ramPointerSpan searches for it. */
  function SpanPointer(segments: seq<Segment>, offset: int, size: int): Pointer {
    if segments == [] then Null
    else if Holds(segments[0], offset, size) then At(segments[0].data, offset - segments[0].base)
    else SpanPointer(segments[1..], offset, size)
  }

  /** Segments lie in order and apart, over distinct blocks. */
  ghost predicate Apart(segments: seq<Segment>) {
    && (forall i :: 0 <= i < |segments| ==> segments[i].size > 0 && segments[i].data.Length == segments[i].size)
    && (forall i, j :: 0 <= i < j < |segments| ==>
          segments[i].base + segments[i].size <= segments[j].base && segments[i].data != segments[j].data)
  }

  /** Each segment starts where the one before ends, from 0 to total. */
  ghost predicate Tiling(segments: seq<Segment>, total: nat) {
    && Apart(segments)
    && (if segments == [] then total == 0
        else segments[0].base == 0
             && segments[|segments| - 1].base + segments[|segments| - 1].size == total)
    && (forall i, j :: 0 <= i < j < |segments| && j == i + 1 ==>
          segments[j].base == segments[i].base + segments[i].size)
  }

  // ------------------------------------------------------------ span-search lemmas

  /** The search returns the one segment that holds a span. */
  lemma {:induction false} SpanInSegment(segments: seq<Segment>, i: nat, offset: int, size: int)
    requires Apart(segments) && i < |segments| && size > 0
    requires Holds(segments[i], offset, size)
    ensures SpanPointer(segments, offset, size) == At(segments[i].data, offset - segments[i].base)
  {
    if i > 0 {
      assert !Holds(segments[0], offset, size);
      SpanInSegment(segments[1..], i - 1, offset, size);
    }
  }

  lemma {:induction false} SpanFound(segments: seq<Segment>, offset: int, size: int) returns (i: nat)
    requires SpanPointer(segments, offset, size).At?
    ensures i < |segments| && Holds(segments[i], offset, size)
    ensures SpanPointer(segments, offset, size) == At(segments[i].data, offset - segments[i].base)
  {
    if Holds(segments[0], offset, size) {
      i := 0;
    } else {
      i := SpanFound(segments[1..], offset, size);
      i := i + 1;
    }
  }

  /** Part of a span that lies in one segment is found at the same distance inside it. */
  lemma SpanPart(segments: seq<Segment>, offset: int, size: int, k: nat, part: nat)
    requires Apart(segments) && part > 0 && k + part <= size
    requires SpanPointer(segments, offset, size).At?
    ensures SpanPointer(segments, offset + k, part) == Advance(SpanPointer(segments, offset, size), k)
  {
    var i := SpanFound(segments, offset, size);
    SpanInSegment(segments, i, offset + k, part);
  }

  /** A span that is found ends inside the tiling. */
  lemma SpanEnd(segments: seq<Segment>, total: nat, offset: int, size: int)
    requires Tiling(segments, total)
    ensures SpanPointer(segments, offset, size).At? ==> offset + size <= total
  {
    if SpanPointer(segments, offset, size).At? {
      var i := SpanFound(segments, offset, size);
      if i < |segments| - 1 {
        assert segments[i].base + segments[i].size <= segments[|segments| - 1].base;
      }
    }
  }

  /** No other cell of any segment stands for the same offset. */
  lemma OneHome(segments: seq<Segment>, i: nat, offset: nat, j: nat, k: nat)
    requires Apart(segments) && i < |segments| && j < |segments|
    requires Holds(segments[i], offset, 1) && k < segments[j].size
    ensures segments[j].base + k == offset <==> i == j && k == offset - segments[i].base
    ensures segments[i].data == segments[j].data ==> i == j
  {}

  /** A tiling leaves no gap: every single byte is in some segment. */
  lemma {:induction false} ByteHasSegment(segments: seq<Segment>, total: nat, offset: nat) returns (i: nat)
    requires Tiling(segments, total) && offset < total
    ensures i < |segments| && Holds(segments[i], offset, 1)
    ensures SpanPointer(segments, offset, 1) == At(segments[i].data, offset - segments[i].base)
  {
    i := |segments| - 1;
    while segments[i].base > offset
      invariant 0 <= i < |segments| && offset < segments[i].base + segments[i].size
    {
      i := i - 1;
    }
    SpanInSegment(segments, i, offset, 1);
  }

  lemma TilingExtends(segments: seq<Segment>, total: nat, block: array<byte>, size: nat)
    requires Tiling(segments, total) && size > 0 && block.Length == size
    requires forall i :: 0 <= i < |segments| ==> segments[i].data != block
    ensures Tiling(segments + [Segment(block, total, size)], total + size)
  {
    var longer := segments + [Segment(block, total, size)];
    forall i, j | 0 <= i < j < |longer|
      ensures longer[i].base + longer[i].size <= longer[j].base && longer[i].data != longer[j].data
      ensures j == i + 1 ==> longer[j].base == longer[i].base + longer[i].size
    {
      if j == |segments| && i < |segments| - 1 {
        assert segments[i].base + segments[i].size <= segments[|segments| - 1].base;
      }
    }
  }

  // ----------------------------------------------------------- uncached resolution

  function RomPointer(rom: array<byte>, address: uint32, size: nat): Pointer {
    match RomOffset(rom.Length, address, size)
    case None => Null
    case Some(o) => At(rom, o)
  }

  function RamPointer(segments: seq<Segment>, ramSize: nat, address: uint32, size: nat): Pointer
    requires ramSize <= RAM_LOGICAL_SIZE
  {
    match RamOffset(ramSize, address, size)
    case None => Null
    case Some(o) => SpanPointer(segments, o, size)
  }

  /** The resolver's pointer for a read, ROM before RAM. */
  function Resolve(rom: array<byte>, segments: seq<Segment>, ramSize: nat, address: uint32, size: nat): Pointer
    requires ramSize <= RAM_LOGICAL_SIZE
  {
    if RomPointer(rom, address, size).At? then RomPointer(rom, address, size)
    else RamPointer(segments, ramSize, address, size)
  }

  /** An offset that the byte-by-byte fallbacks give an address: from ramOffset, or folded. */
  predicate FallbackOffset(ramSize: nat, address: uint32, offset: nat)
    requires 0 < ramSize <= RAM_LOGICAL_SIZE
  {
    || RamWindow(ramSize, address) == Some(offset)
    || (LogicalWindow(address).Some? && offset == Fold(LogicalWindow(address).value, ramSize))
  }

  type PageTag = x: int | 0 <= x < 0x10_0000

  function TagOf(address: uint32): PageTag { address / PAGE_SIZE }

  function ReadPage(rom: array<byte>, segments: seq<Segment>, ramSize: nat, tag: PageTag): Pointer
    requires ramSize <= RAM_LOGICAL_SIZE
  {
    Resolve(rom, segments, ramSize, tag * PAGE_SIZE, PAGE_SIZE)
  }

  function WritePage(rom: array<byte>, segments: seq<Segment>, ramSize: nat, tag: PageTag): Pointer
    requires ramSize <= RAM_LOGICAL_SIZE
  {
    var base := tag * PAGE_SIZE;
    if RomPointer(rom, base, PAGE_SIZE).Null? then RamPointer(segments, ramSize, base, PAGE_SIZE) else Null
  }

  /** Bitwise exclusive or. */
  function Xor(a: nat, b: nat): nat {
    if a == 0 && b == 0 then 0 else 2 * Xor(a / 2, b / 2) + (a + b) % 2
  }

  function PageCacheIndex(tag: PageTag): (i: nat)
    ensures i < CACHE_ENTRIES
  {
    Fold(Xor(Xor(tag, tag / 0x100), tag / 0x1_0000), CACHE_ENTRIES)
  }

  /** A non-null page pointer, advanced, is the uncached resolver's answer for the span. */
  lemma PagePointers(rom: array<byte>, segments: seq<Segment>, ramSize: nat, address: uint32, size: nat)
    requires rom.Length > 0 && Cacheable(rom.Length)
    requires 0 < ramSize <= RAM_LOGICAL_SIZE && ramSize % PAGE_SIZE == 0 && Tiling(segments, ramSize)
    requires PageContainsSpan(address, size)
    ensures var p := Advance(ReadPage(rom, segments, ramSize, TagOf(address)), address % PAGE_SIZE);
            p.At? ==> p == Resolve(rom, segments, ramSize, address, size)
    ensures var p := Advance(WritePage(rom, segments, ramSize, TagOf(address)), address % PAGE_SIZE);
            p.At? ==> RomOffset(rom.Length, address, size).None? && p == RamPointer(segments, ramSize, address, size)
  {
    var k := address % PAGE_SIZE;
    var base := TagOf(address) * PAGE_SIZE;
    assert base + k == address;
    CacheableAnswers(rom.Length, ramSize, base, k, size);
    RamPageUniform(ramSize, base, k, size);
    match RamOffset(ramSize, base, PAGE_SIZE)
    case None =>
    case Some(o) =>
      if SpanPointer(segments, o, PAGE_SIZE).At? {
        SpanPart(segments, o, PAGE_SIZE, k, size);
      }
  }

  /** Over RAM in one block a page pointer is what Find says of the page, for any ROM image. */
  lemma PageInOneBlock(rom: array<byte>, segments: seq<Segment>, ramSize: nat, tag: PageTag)
    requires 0 < ramSize <= RAM_LOGICAL_SIZE && Tiling(segments, ramSize) && |segments| == 1
    ensures ReadPage(rom, segments, ramSize, tag)
            == match Find(rom.Length, ramSize, tag * PAGE_SIZE, PAGE_SIZE)
               case InRom(o) => At(rom, o)
               case InRam(o) => At(segments[0].data, o)
               case Nowhere => Null
  {
    if RamOffset(ramSize, tag * PAGE_SIZE, PAGE_SIZE).Some? {
      SpanInSegment(segments, 0, RamOffset(ramSize, tag * PAGE_SIZE, PAGE_SIZE).value, PAGE_SIZE);
    }
  }

  /** Every span inside a page that the read cache answers for is answered as the uncached
      resolver does. */
  ghost predicate PagesTell(rom: array<byte>, segments: seq<Segment>, ramSize: nat)
    requires ramSize <= RAM_LOGICAL_SIZE
  {
    forall address: uint32, size: nat :: PageContainsSpan(address, size) ==>
      PageTells(rom, segments, ramSize, address, size)
  }

  ghost predicate PageTells(rom: array<byte>, segments: seq<Segment>, ramSize: nat, address: uint32, size: nat)
    requires ramSize <= RAM_LOGICAL_SIZE
  {
    var p := Advance(ReadPage(rom, segments, ramSize, TagOf(address)), address % PAGE_SIZE);
    p.At? ==> p == Resolve(rom, segments, ramSize, address, size)
  }

  /** The page in which an image that is not cacheable ends: if the cache answers for it, its first
      byte is not where the resolver finds it, in however many blocks RAM lies. */
  lemma LastPageAsks(rom: array<byte>, segments: seq<Segment>, ramSize: nat)
    requires rom.Length > 0 && !Cacheable(rom.Length)
    requires 0 < ramSize <= RAM_LOGICAL_SIZE && ramSize % PAGE_SIZE == 0 && Tiling(segments, ramSize)
    requires forall i :: 0 <= i < |segments| ==> segments[i].data != rom
    ensures var base := LastPage(rom.Length);
            && Resolve(rom, segments, ramSize, base, 1) == At(rom, rom.Length / PAGE_SIZE * PAGE_SIZE)
            && (ReadPage(rom, segments, ramSize, TagOf(base)).At? ==> !PageTells(rom, segments, ramSize, base, 1))
            && (|segments| == 1 ==> ReadPage(rom, segments, ramSize, TagOf(base)).At?)
  {
    var base := LastPage(rom.Length);
    LastPageMisleads(rom.Length, ramSize);
    assert TagOf(base) * PAGE_SIZE == base;
    if |segments| == 1 { PageInOneBlock(rom, segments, ramSize, TagOf(base)); }
    if RomOffset(rom.Length, base, PAGE_SIZE).None? {
      var o := RamOffset(ramSize, base, PAGE_SIZE).value;
      if SpanPointer(segments, o, PAGE_SIZE).At? {
        var i := SpanFound(segments, o, PAGE_SIZE);
        assert segments[i].data != rom;
      }
    }
  }

  /** Over RAM in one block the page cache tells the truth exactly for cacheable images. */
  lemma PagesExactly(rom: array<byte>, segments: seq<Segment>, ramSize: nat)
    requires rom.Length > 0 && 0 < ramSize <= RAM_LOGICAL_SIZE && ramSize % PAGE_SIZE == 0
    requires Tiling(segments, ramSize) && |segments| == 1 && segments[0].data != rom
    ensures PagesTell(rom, segments, ramSize) <==> Cacheable(rom.Length)
  {
    if Cacheable(rom.Length) {
      forall address: uint32, size: nat | PageContainsSpan(address, size)
        ensures PageTells(rom, segments, ramSize, address, size)
      {
        PagePointers(rom, segments, ramSize, address, size);
      }
    } else {
      LastPageAsks(rom, segments, ramSize);
      assert PageContainsSpan(LastPage(rom.Length), 1);
    }
  }

  class PalmMemory {
    const rom: array<byte>
    const readCache: array<CachedPage>
    const writeCache: array<CachedPage>
    const device: Device
    const target: nat                  // PALM_RAM_ALLOC_TARGET_SIZE, also the minimum
    const grants: (nat, nat) -> bool   // does the n-th allocation, of this size, succeed?
    var requests: nat                  // allocations asked for so far
    var segments: seq<Segment>
    var ramSize: nat
    var vram: array<byte>
    var bus: seq<BusAccess>
    ghost const Rom: seq<byte>
    ghost var Ram: seq<byte>   // the segments' bytes, laid end to end
    ghost var Vram: seq<byte>

    ghost function Blocks(): set<object>
      reads this`segments
    {
      set s | s in segments :: s.data as object
    }

    ghost predicate Backed()
      reads this`segments, this`ramSize, this`Ram, Blocks()
    {
      && Tiling(segments, ramSize)
      && |Ram| == ramSize
      && (forall i, k {:trigger segments[i].data[k]} :: 0 <= i < |segments| && 0 <= k < segments[i].size ==>
            segments[i].data[k] == Ram[segments[i].base + k])
    }

    ghost predicate Images()
      reads this`vram, this`Vram, rom, vram
    {
      rom[..] == Rom && vram[..] == Vram
    }

    ghost predicate Separate()
      reads this`segments, this`vram
    {
      && readCache.Length == writeCache.Length == CACHE_ENTRIES && readCache != writeCache
      && vram.Length == SED_VRAM_SIZE
      && rom != vram
      && rom as object !in Blocks() && vram as object !in Blocks()
    }

    /** Every entry in use answers as the resolver would for its tag. */
    ghost predicate CachesAgree()
      requires ramSize <= RAM_LOGICAL_SIZE
      reads this`segments, this`ramSize, readCache, writeCache
    {
      && (forall i :: 0 <= i < readCache.Length && readCache[i].tag != NO_TAG ==>
            readCache[i].tag < 0x10_0000
            && readCache[i].base == ReadPage(rom, segments, ramSize, readCache[i].tag))
      && (forall i :: 0 <= i < writeCache.Length && writeCache[i].tag != NO_TAG ==>
            writeCache[i].tag < 0x10_0000
            && writeCache[i].base == WritePage(rom, segments, ramSize, writeCache[i].tag))
    }

    /** Everything but the caches. */
    ghost predicate Mapped()
      reads this`segments, this`ramSize, this`Ram, this`vram, this`Vram, rom, vram, Blocks()
    {
      Mappable(rom.Length, ramSize) && Backed() && Images() && Separate()
    }

    /** The invariant between calls once palmMemoryInit has succeeded. */
    ghost predicate Valid()
      reads this`segments, this`ramSize, this`Ram, this`vram, this`Vram
      reads rom, vram, readCache, writeCache, Blocks()
    {
      Mapped() && CachesAgree()
    }

    ghost function Contents(): Store
      reads this`Ram, this`Vram, this`bus
    {
      Store(Rom, Ram, Vram, bus)
    }

    // ---------------------------------------------------------------- resolvers

    /** The search; the end of the span is computed in 32 bits. */
    method RamPointerSpan(offset: uint32, size: uint32) returns (p: Pointer)
      ensures offset + size < ADDRESS_END ==> p == SpanPointer(segments, offset, size)
    {
      for i := 0 to |segments|
        invariant offset + size < ADDRESS_END ==>
                    SpanPointer(segments, offset, size) == SpanPointer(segments[i..], offset, size)
      {
        var s := segments[i];
        if offset >= s.base && Next(offset, size) <= s.base + s.size {
          return At(s.data, offset - s.base);
        }
      }
      return Null;
    }

    /** Tries the first two segments before searching them all. */
    method RamPointerFastSpan(offset: uint32, size: uint32) returns (p: Pointer)
      requires Tiling(segments, ramSize) && ramSize <= RAM_LOGICAL_SIZE
      ensures size <= ramSize || offset + size < ADDRESS_END ==>
                p == if ramSize == 0 || size == 0 || offset + size > ramSize then Null
                     else SpanPointer(segments, offset, size)
    {
      if ramSize == 0 || size == 0 || offset > Minus32(ramSize, size) {
        return Null;
      }
      if |segments| > 0 {
        var s0 := segments[0];
        if s0.size >= size && offset >= s0.base && offset <= s0.base + s0.size - size {
          SpanEnd(segments, ramSize, offset, size);
          return At(s0.data, offset - s0.base);
        }
      }
      if |segments| > 1 {
        var s1 := segments[1];
        if s1.size >= size && offset >= s1.base && offset <= s1.base + s1.size - size {
          SpanInSegment(segments, 1, offset, size);
          SpanEnd(segments, ramSize, offset, size);
          return At(s1.data, offset - s1.base);
        }
      }
      SpanEnd(segments, ramSize, offset, size);
      p := RamPointerSpan(offset, size);
    }

    method RamPointerForAddress(address: uint32, size: nat) returns (p: Pointer)
      requires Tiling(segments, ramSize) && ramSize <= RAM_LOGICAL_SIZE
      ensures p == RamPointer(segments, ramSize, address, size)
    {
      match RamOffset(ramSize, address, size)
      case None => p := Null;
      case Some(o) => p := RamPointerFastSpan(o, size);
    }

    method KeepReadPage(tag: PageTag, base: Pointer)
      requires Valid() && base == ReadPage(rom, segments, ramSize, tag)
      modifies readCache
      ensures Valid()
    {
      readCache[PageCacheIndex(tag)] := CachedPage(tag, base);
      assert CachesAgree();
    }

    method FillReadPage(tag: PageTag) returns (base: Pointer)
      requires Valid()
      modifies readCache
      ensures Valid()
      ensures base == ReadPage(rom, segments, ramSize, tag)
    {
      base := RomPointer(rom, tag * PAGE_SIZE, PAGE_SIZE);
      if base.Null? {
        base := RamPointerForAddress(tag * PAGE_SIZE, PAGE_SIZE);
      }
      KeepReadPage(tag, base);
    }

    method KeepWritePage(tag: PageTag, base: Pointer)
      requires Valid() && base == WritePage(rom, segments, ramSize, tag)
      modifies writeCache
      ensures Valid()
    {
      writeCache[PageCacheIndex(tag)] := CachedPage(tag, base);
      assert CachesAgree();
    }

    method FillWritePage(tag: PageTag) returns (base: Pointer)
      requires Valid()
      modifies writeCache
      ensures Valid()
      ensures base == WritePage(rom, segments, ramSize, tag)
    {
      base := Null;
      if RomPointer(rom, tag * PAGE_SIZE, PAGE_SIZE).Null? {
        base := RamPointerForAddress(tag * PAGE_SIZE, PAGE_SIZE);
      }
      KeepWritePage(tag, base);
    }

    method CachedReadPointer(address: uint32, size: nat) returns (p: Pointer)
      requires Valid()
      modifies readCache
      ensures Valid()
      ensures p == if PageContainsSpan(address, size)
                   then Advance(ReadPage(rom, segments, ramSize, TagOf(address)), address % PAGE_SIZE) else Null
    {
      if !PageContainsSpan(address, size) {
        return Null;
      }
      var tag := TagOf(address);
      var entry := readCache[PageCacheIndex(tag)];
      var base := entry.base;
      if entry.tag != tag {
        base := FillReadPage(tag);
      }
      p := Advance(base, address % PAGE_SIZE);
    }

    method CachedWritePointer(address: uint32, size: nat) returns (p: Pointer)
      requires Valid()
      modifies writeCache
      ensures Valid()
      ensures p == if PageContainsSpan(address, size)
                   then Advance(WritePage(rom, segments, ramSize, TagOf(address)), address % PAGE_SIZE) else Null
    {
      if !PageContainsSpan(address, size) {
        return Null;
      }
      var tag := TagOf(address);
      var entry := writeCache[PageCacheIndex(tag)];
      var base := entry.base;
      if entry.tag != tag {
        base := FillWritePage(tag);
      }
      p := Advance(base, address % PAGE_SIZE);
    }

    // ------------------------------------------------------------- byte accesses

    /** What a pointer into RAM refers to. */
    lemma SpanBytes(offset: nat, size: nat)
      requires Backed() && SpanPointer(segments, offset, size).At?
      ensures var p := SpanPointer(segments, offset, size);
              && p.block in Blocks() && 0 <= p.index && p.index + size <= p.block.Length
              && offset + size <= ramSize
              && forall x :: p.index <= x < p.index + size ==> p.block[x] == Ram[offset + (x - p.index)]
    {
      var i := SpanFound(segments, offset, size);
      assert segments[i] in segments;
      SegmentEnd(i);
    }

    lemma SegmentEnd(i: nat)
      requires Tiling(segments, ramSize) && i < |segments|
      ensures segments[i].base + segments[i].size <= ramSize
    {
      if i < |segments| - 1 {
        assert segments[i].base + segments[i].size <= segments[|segments| - 1].base;
      }
    }

    lemma ResolvedByte(address: uint32)
      requires Mapped()
      ensures var p := Resolve(rom, segments, ramSize, address, 1);
              if p.At? then
                && 0 <= p.index < p.block.Length
                && Read8(device, Contents(), address) == (p.block[p.index], bus)
              else RomOffset(rom.Length, address, 1).None? && RamOffset(ramSize, address, 1).None?
    {
      if RomOffset(rom.Length, address, 1).None? && RamOffset(ramSize, address, 1).Some? {
        var o := RamOffset(ramSize, address, 1).value;
        var _ := ByteHasSegment(segments, ramSize, o);
        SpanBytes(o, 1);
      }
    }

    /** What every read tries first: cache, then ROM, then RAM. */
    method ReadPointer(address: uint32, size: nat) returns (p: Pointer)
      requires Valid()
      modifies readCache
      ensures Valid() && Contents() == old(Contents())
      ensures p == Resolve(rom, segments, ramSize, address, size)
    {
      if PageContainsSpan(address, size) {
        PagePointers(rom, segments, ramSize, address, size);
      }
      p := CachedReadPointer(address, size);
      if p.Null? {
        p := RomPointer(rom, address, size);
      }
      if p.Null? {
        p := RamPointerForAddress(address, size);
      }
    }

    method PalmRead8(address: uint32) returns (v: byte)
      requires Valid()
      modifies this`bus, readCache
      ensures Valid()
      ensures (v, bus) == Read8(device, old(Contents()), address)
    {
      var p := ReadPointer(address, 1);
      ResolvedByte(address);
      if p.At? {
        return p.block[p.index];
      }
      v := ReadBeyondMemory(address);
    }

    /** The rest of palmRead8, for an address that is neither ROM nor RAM. */
    method ReadBeyondMemory(address: uint32) returns (v: byte)
      requires Valid()
      requires ReadTarget(rom.Length, ramSize, address) == BeyondMemory(address)
      modifies this`bus
      ensures Valid()
      ensures (v, bus) == Read8(device, old(Contents()), address)
    {
      if InRegisterSpace(address) {
        Record(HwRead(address));
        return device(bus);
      }
      if InSedRegisters(address) {
        Record(SedRead(address - SED_REG_BASE));
        return device(bus);
      }
      if InSedVram(address) {
        return vram[address - SED_BASE];
      }
      return if RamSizeProbe(address) then 0 else 0xff;
    }

    /** An access handed to the register block or to the display controller. */
    method Record(access: BusAccess)
      requires Valid()
      modifies this`bus
      ensures Valid()
      ensures bus == old(bus) + [access]
    {
      bus := bus + [access];
    }

    method StoreVram(offset: nat, value: byte)
      requires Valid() && offset < SED_VRAM_SIZE
      modifies this`Vram, vram
      ensures Valid()
      ensures Vram == old(Vram)[offset := value]
    {
      vram[offset] := value;
      Vram := Vram[offset := value];
    }

    /** One byte through a RAM pointer. */
    method StoreByte(p: Pointer, ghost offset: nat, value: byte)
      requires Backed() && offset < ramSize
      requires p.At? && p == SpanPointer(segments, offset, 1)
      modifies this`Ram, Blocks()
      ensures Backed()
      ensures Ram == old(Ram)[offset := value]
    {
      ghost var i := SpanFound(segments, offset, 1);
      assert segments[i] in segments;
      ghost var before := Ram;
      p.block[p.index] := value;
      Ram := before[offset := value];
      forall j, k | 0 <= j < |segments| && 0 <= k < segments[j].size
        ensures segments[j].data[k] == Ram[segments[j].base + k]
      {
        SegmentEnd(j);
        OneHome(segments, i, offset, j, k);
        assert old(segments[j].data[k]) == before[segments[j].base + k];
      }
    }

    /** StoreByte, keeping the whole invariant. */
    method PutByteAt(p: Pointer, ghost offset: nat, value: byte)
      requires Valid() && offset < ramSize
      requires p.At? && p == SpanPointer(segments, offset, 1)
      modifies this`Ram, Blocks()
      ensures Valid()
      ensures Contents() == old(Contents()).(ram := old(Ram)[offset := value])
    {
      StoreByte(p, offset, value);
    }

    method PalmWrite8(address: uint32, value: byte)
      requires Valid()
      modifies this`bus, this`Ram, this`Vram, writeCache, vram, Blocks()
      ensures Valid()
      ensures Contents() == Write8(old(Contents()), address, value)
    {
      PagePointers(rom, segments, ramSize, address, 1);
      ghost var start := Contents();
      var direct := CachedWritePointer(address, 1);
      assert Contents() == start;
      RamTarget(address);
      if direct.At? {
        PutByteAt(direct, RamOffset(ramSize, address, 1).value, value);
        return;
      }
      WriteUncached(address, value);
    }

    /** The rest of palmWrite8, when the write cache has no page for the address. */
    method WriteUncached(address: uint32, value: byte)
      requires Valid()
      modifies this`bus, this`Ram, this`Vram, vram, Blocks()
      ensures Valid()
      ensures Contents() == Write8(old(Contents()), address, value)
    {
      if InDevice(address) {
        WriteDevice(address, value);
        return;
      }
      if InRomWindow(rom.Length, address) {
        return;
      }
      ghost var start := Contents();
      var ram := RamPointerForAddress(address, 1);
      assert Contents() == start;
      RamTarget(address);
      if ram.At? {
        PutByteAt(ram, RamOffset(ramSize, address, 1).value, value);
      }
    }

    method WriteDevice(address: uint32, value: byte)
      requires Valid()
      requires InDevice(address)
      modifies this`bus, this`Vram, vram
      ensures Valid()
      ensures Contents() == Write8(old(Contents()), address, value)
    {
      DeviceWrite(Contents(), address, value);
      if InRegisterSpace(address) {
        Record(HwWrite(address, value));
      } else if InSedRegisters(address) {
        Record(SedWrite(address - SED_REG_BASE, value));
      } else {
        StoreVram(address - SED_BASE, value);
      }
    }

    /** Unshadowed RAM is what a store to its address reaches, and its byte has a pointer. */
    lemma RamTarget(address: uint32)
      requires Mapped()
      ensures InRomWindow(rom.Length, address) <==> RomOffset(rom.Length, address, 1).Some?
      ensures RomOffset(rom.Length, address, 1).None? && RamOffset(ramSize, address, 1).Some? ==>
                WriteTarget(rom.Length, ramSize, address) == RamByte(RamOffset(ramSize, address, 1).value)
      ensures RamPointer(segments, ramSize, address, 1).At? <==> RamOffset(ramSize, address, 1).Some?
    {
      RomWindowIsResolved(rom.Length, address);
      match RamOffset(ramSize, address, 1)
      case None =>
      case Some(o) =>
        var _ := ByteHasSegment(segments, ramSize, o);
        if RomOffset(rom.Length, address, 1).None? {
          RamIsNotDevice(rom.Length, ramSize, address);
        }
    }

    // ------------------------------------------------------- 16- and 32-bit reads

    lemma ResolvedRange(address: uint32, size: nat)
      requires Mapped() && Resolve(rom, segments, ramSize, address, size).At?
      ensures var p := Resolve(rom, segments, ramSize, address, size);
              p.block.Length >= p.index + size && p.index >= 0 && size > 0
    {
      if RomOffset(rom.Length, address, size).None? {
        SpanBytes(RamOffset(ramSize, address, size).value, size);
      }
    }

    /** Byte j of a resolved uniform span is the byte its own address reads. */
    lemma ResolvedSpanByte(address: uint32, size: nat, j: nat, p: Pointer)
      requires Mapped() && Uniform(rom.Length, address, size) && j < size && address + j < ADDRESS_END
      requires p.At? && p == Resolve(rom, segments, ramSize, address, size)
      ensures 0 <= p.index && p.index + j < p.block.Length
      ensures Read8(device, Contents(), address + j) == (p.block[p.index + j], bus)
    {
      ResolvedRange(address, size);
      SpanResolvesBytewise(rom.Length, ramSize, address, size, j);
      ResolvedByte(address + j);
      if RomOffset(rom.Length, address, size).None? {
        SpanPart(segments, RamOffset(ramSize, address, size).value, size, j, 1);
      }
    }

    /** A resolved uniform span is read, byte by byte, as its pointer says. */
    lemma ResolvedSpan(address: uint32, size: nat, p: Pointer)
      requires Mapped() && Uniform(rom.Length, address, size)
      requires p.At? && p == Resolve(rom, segments, ramSize, address, size)
      ensures 0 <= p.index && p.index + size <= p.block.Length
      ensures ReadsAs(device, Contents(), address, p.block[p.index..p.index + size])
    {
      ResolvedRange(address, size);
      var bytes := p.block[p.index..p.index + size];
      forall j | 0 <= j < size
        ensures ReadsByte(device, Contents(), address, j, bytes[j])
      {
        ResolvedSpanByte(address, size, j, p);
      }
    }

    /** palmHwRead8 answers 0xff outside the register block. */
    method PalmHwRead8(address: uint32) returns (v: byte)
      requires Valid()
      modifies this`bus
      ensures Valid()
      ensures if InRegisterSpace(address) then
                bus == old(bus) + [HwRead(address)] && v == device(bus)
              else bus == old(bus) && v == 0xff
    {
      if !InRegisterSpace(address) {
        return 0xff;
      }
      Record(HwRead(address));
      v := device(bus);
    }

    /** Two RAM bytes, through one pointer when they share a segment. */
    method ReadRamPair(offset: nat, next: nat) returns (v: uint16)
      requires Backed() && ramSize <= RAM_LOGICAL_SIZE && offset < ramSize && next < ramSize
      ensures v == Be16(Ram[offset], Ram[next])
    {
      if next == offset + 1 {
        var p := RamPointerSpan(offset, 2);
        if p.At? {
          SpanBytes(offset, 2);
          return Be16(p.block[p.index], p.block[p.index + 1]);
        }
      }
      var hi := RamByteAt(offset);
      var lo := RamByteAt(next);
      v := Be16(hi, lo);
    }

    /** One RAM byte, as the source dereferences ramPointer. */
    method RamByteAt(offset: nat) returns (v: byte)
      requires Backed() && ramSize <= RAM_LOGICAL_SIZE && offset < ramSize
      ensures v == Ram[offset]
    {
      var p := RamPointerSpan(offset, 1);
      var _ := ByteHasSegment(segments, ramSize, offset);
      SpanBytes(offset, 1);
      v := p.block[p.index];
    }

    /** When the pair at address has no pointer, none of its bytes is ROM. */
    lemma ApartBytes(address: uint32)
      requires Mapped() && Uniform(rom.Length, address, 2)
      requires Resolve(rom, segments, ramSize, address, 2).Null?
      ensures address + 1 < ADDRESS_END
      ensures RomOffset(rom.Length, address, 1).None? && RomOffset(rom.Length, address + 1, 1).None?
    {
      SpanResolvesBytewise(rom.Length, ramSize, address, 2, 0);
      SpanResolvesBytewise(rom.Length, ramSize, address, 2, 1);
    }

    /** A register pair without a pointer is two registers. */
    lemma ApartRegisters(address: uint32)
      requires Mapped() && Uniform(rom.Length, address, 2) && InRegisterSpace(address)
      requires Resolve(rom, segments, ramSize, address, 2).Null?
      ensures address + 1 < ADDRESS_END
      ensures ReadTarget(rom.Length, ramSize, address).Register?
      ensures ReadTarget(rom.Length, ramSize, address + 1).Register?
      ensures InRegisterSpace(address + 1)
    {
      ApartBytes(address);
      RamTarget(address);
      RamTarget(address + 1);
    }

    /** A RAM pair without a pointer is two RAM bytes at the offsets the windows give. */
    lemma ApartRamByte(address: uint32, offset: nat)
      requires Mapped() && RomOffset(rom.Length, address, 1).None?
      requires FallbackOffset(ramSize, address, offset)
      ensures offset < ramSize
      ensures Read8(device, Contents(), address) == (Ram[offset], bus)
    {
      if RamWindow(ramSize, address) != Some(offset) {
        if address >= RAM_LOGICAL_SIZE {
          RomFillsAlias(rom.Length, address);
        }
        LogicalTarget(rom.Length, ramSize, address);
      }
    }

    lemma ApartRamPair(address: uint32, offset: nat, next: nat)
      requires Mapped() && Uniform(rom.Length, address, 2)
      requires Resolve(rom, segments, ramSize, address, 2).Null?
      requires FallbackOffset(ramSize, address, offset) && FallbackOffset(ramSize, Next(address, 1), next)
      ensures offset < ramSize && next < ramSize
      ensures Read16(device, Contents(), address) == (Be16(Ram[offset], Ram[next]), bus)
    {
      ApartBytes(address);
      ApartRamByte(address, offset);
      ApartRamByte(address + 1, next);
      PureBytes(device, Contents(), address, Ram[offset], Ram[next]);
    }

    method ReadRegisterPair(address: uint32) returns (v: uint16)
      requires Valid() && Resolve(rom, segments, ramSize, address, 2).Null? && InRegisterSpace(address)
      modifies this`bus
      ensures Valid()
      ensures ReadsWord(device, old(Contents()), address, v, bus)
    {
      if WordSafe(rom.Length, address) {
        ApartRegisters(address);
        RegisterWord(device, Contents(), address);
      }
      var hi := PalmHwRead8(address);
      var lo := PalmHwRead8(Next(address, 1));
      v := Be16(hi, lo);
    }

    /** The two RAM offsets of a pair without a pointer: by real RAM, else by logical RAM. */
    method PairOffsets(address: uint32) returns (found: bool, offset: nat, next: nat)
      requires 0 < ramSize <= RAM_LOGICAL_SIZE
      ensures found ==> offset < ramSize && next < ramSize
      ensures found ==> FallbackOffset(ramSize, address, offset) && FallbackOffset(ramSize, Next(address, 1), next)
      ensures InRamAlias(address) && InRamAlias(Next(address, 1)) ==> found
    {
      var window, nextWindow := RamWindow(ramSize, address), RamWindow(ramSize, Next(address, 1));
      if window.Some? && nextWindow.Some? {
        return true, window.value, nextWindow.value;
      }
      var logical, nextLogical := LogicalWindow(address), LogicalWindow(Next(address, 1));
      if logical.Some? && nextLogical.Some? {
        return true, Fold(logical.value, ramSize), Fold(nextLogical.value, ramSize);
      }
      return false, 0, 0;
    }

    /** The rest of palmRead16, for a span that no single pointer covers. */
    method Read16Apart(address: uint32) returns (v: uint16)
      requires Valid() && Resolve(rom, segments, ramSize, address, 2).Null?
      modifies this`bus, readCache
      ensures Valid()
      ensures ReadsWord(device, old(Contents()), address, v, bus)
    {
      if InRegisterSpace(address) {
        v := ReadRegisterPair(address);
        return;
      }
      var found, offset, next := PairOffsets(address);
      if found {
        v := ReadFoundPair(address, offset, next);
        return;
      }
      v := ReadByteTwice(address);
    }

    /** A word with RAM offsets is uniform or unsafe. */
    lemma FoundPair(address: uint32, offset: nat, next: nat)
      requires Mapped() && WordSafe(rom.Length, address)
      requires FallbackOffset(ramSize, address, offset) && FallbackOffset(ramSize, Next(address, 1), next)
      ensures Uniform(rom.Length, address, 2)
    {
      if !Uniform(rom.Length, address, 2) {
        UniformSpans(rom.Length, ramSize, address, 2);
      }
    }

    method ReadFoundPair(address: uint32, offset: nat, next: nat) returns (v: uint16)
      requires Valid() && Resolve(rom, segments, ramSize, address, 2).Null? && !InRegisterSpace(address)
      requires offset < ramSize && next < ramSize
      requires FallbackOffset(ramSize, address, offset) && FallbackOffset(ramSize, Next(address, 1), next)
      ensures ReadsWord(device, Contents(), address, v, bus)
    {
      if WordSafe(rom.Length, address) {
        FoundPair(address, offset, next);
        ApartRamPair(address, offset, next);
      }
      v := ReadRamPair(offset, next);
    }

    method ReadByteTwice(address: uint32) returns (v: uint16)
      requires Valid()
      modifies this`bus, readCache
      ensures Valid()
      ensures (v, bus) == Read16(device, old(Contents()), address)
    {
      var hi := PalmRead8(address);
      var lo := PalmRead8(Next(address, 1));
      v := Be16(hi, lo);
    }

    method PalmRead16(address: uint32) returns (v: uint16)
      requires Valid()
      modifies this`bus, readCache
      ensures Valid()
      ensures ReadsWord(device, old(Contents()), address, v, bus)
    {
      var p := ReadPointer(address, 2);
      if p.Null? {
        v := Read16Apart(address);
        return;
      }
      ResolvedRange(address, 2);
      v := Be16(p.block[p.index], p.block[p.index + 1]);
      ResolvedWord(address, p);
    }

    /** A span with a pointer is uniform if it is found in RAM below the aliases. */
    lemma FoundSpan(address: uint32, size: nat)
      requires Mapped() && 0 < size <= PAGE_SIZE && Resolve(rom, segments, ramSize, address, size).At?
      requires RomOffset(rom.Length, address, size).None? && !InRamAlias(address)
      ensures address + size <= RAM_LOGICAL_SIZE && Uniform(rom.Length, address, size)
    {
      LowSpan(ramSize, address, size, 0);
      UniformSpans(rom.Length, ramSize, address, size);
    }

    /** What a word's pointer shows, safe or not. */
    lemma ResolvedWord(address: uint32, p: Pointer)
      requires Mapped() && p.At? && p == Resolve(rom, segments, ramSize, address, 2)
      ensures 0 <= p.index && p.index + 2 <= p.block.Length
      ensures ReadsWord(device, Contents(), address, Be16(p.block[p.index], p.block[p.index + 1]), bus)
    {
      ResolvedRange(address, 2);
      if WordSafe(rom.Length, address) {
        if !Uniform(rom.Length, address, 2) { FoundSpan(address, 2); }
        ResolvedSpan(address, 2, p);
        PureWord(device, Contents(), address, p.block[p.index..p.index + 2]);
      } else if RomOffset(rom.Length, address, 2).None? {
        UnsafeRamWord(address, p);
      }
    }

    lemma UnsafeRamWord(address: uint32, p: Pointer)
      requires Mapped() && p.At? && p == Resolve(rom, segments, ramSize, address, 2)
      requires !WordSafe(rom.Length, address) && RomOffset(rom.Length, address, 2).None?
      ensures 0 <= p.index && p.index + 2 <= p.block.Length
      ensures Seam(device, Contents(), address, Be16(p.block[p.index], p.block[p.index + 1]), bus)
    {
      SpanWordBytes(RamOffset(ramSize, address, 2).value);
      UnsafeNoRegister(address);
    }

    lemma SpanWordBytes(o: nat)
      requires Backed() && SpanPointer(segments, o, 2).At?
      ensures o + 2 <= ramSize
      ensures var p := SpanPointer(segments, o, 2);
              && 0 <= p.index && p.index + 2 <= p.block.Length
              && Be16(p.block[p.index], p.block[p.index + 1]) == Be16(Ram[o], Ram[o + 1])
    {
      SpanBytes(o, 2);
    }

    /** An unsafe word that RAM answers for is no register. */
    lemma UnsafeNoRegister(address: uint32)
      requires Mapped() && !WordSafe(rom.Length, address) && RamOffset(ramSize, address, 2).Some?
      requires RomOffset(rom.Length, address, 2).None?
      ensures !InRegisterSpace(address)
    {
      if InRegisterSpace(address) {
        UnshadowedRam(rom.Length, ramSize, address, 2);
      }
    }

    static function BlockLong(block: array<byte>, i: int): uint32
      requires 0 <= i && i + 3 < block.Length
      reads block
    {
      Be32(Be16(block[i], block[i + 1]), Be16(block[i + 2], block[i + 3]))
    }

    /** The mirror branch of the 32-bit paths finds nothing the resolver missed. */
    lemma MirrorAddsNothing(address: uint32)
      requires Mapped() && Uniform(rom.Length, address, 4)
      requires LogicalWindow(address).Some? && LogicalWindow(Next(address, 3)).Some?
      requires Resolve(rom, segments, ramSize, address, 4).Null?
      ensures SpanPointer(segments, Fold(LogicalWindow(address).value, ramSize), 4).Null?
    {
      var o := Fold(LogicalWindow(address).value, ramSize);
      SpanResolvesBytewise(rom.Length, ramSize, address, 4, 0);
      if address >= RAM_LOGICAL_SIZE {
        RomFillsAlias(rom.Length, address);
      }
      if SpanPointer(segments, o, 4).At? {
        SpanBytes(o, 4);
      }
    }

    /** The mirror branch of the 32-bit paths: a long whose folded ends are still apart by 3. */
    method MirrorPointer(address: uint32) returns (p: Pointer, ghost offset: nat)
      requires Backed() && 0 < ramSize <= RAM_LOGICAL_SIZE
      ensures p.At? ==> p == SpanPointer(segments, offset, 4)
      ensures p.At? ==> && LogicalWindow(address).Some? && LogicalWindow(Next(address, 3)).Some?
                        && offset == Fold(LogicalWindow(address).value, ramSize)
    {
      p, offset := Null, 0;
      var logical, last := LogicalWindow(address), LogicalWindow(Next(address, 3));
      if logical.Some? && last.Some? {
        var o := Fold(logical.value, ramSize);
        if Fold(last.value, ramSize) == o + 3 {
          p := RamPointerSpan(o, 4);
          offset := o;
        }
      }
    }

    method ReadTwoWords(address: uint32) returns (v: uint32)
      requires Valid()
      modifies this`bus, readCache
      ensures Valid() && TwoWords(device, old(Contents()), address, v, bus)
    {
      var hi := PalmRead16(address);
      var lo := PalmRead16(Next(address, 2));
      v := Be32(hi, lo);
    }

    /** Two words that are safe make a long that is. */
    lemma SafeWords(s: Store, address: uint32, v: uint32, end: seq<BusAccess>)
      requires WellSized(s) && |s.rom| == rom.Length && |s.ram| == ramSize && LongSafe(rom.Length, ramSize, address)
      requires TwoWords(device, s, address, v, end)
      ensures (v, end) == Read32(device, s, address)
    {
      if Uniform(rom.Length, address, 4) { UniformHalves(rom.Length, ramSize, address); }
    }

    /** The mirror's pointer to a long is one that RAM would have given. */
    lemma MirroredInRam(address: uint32, offset: nat)
      requires Mapped() && LogicalWindow(address).Some? && LogicalWindow(Next(address, 3)).Some?
      requires offset == Fold(LogicalWindow(address).value, ramSize) && offset + 4 <= ramSize
      ensures RamOffset(ramSize, address, 4).Some?
    {}

    /** The rest of palmRead32, for a span that no single pointer covers. */
    method Read32Apart(address: uint32) returns (v: uint32)
      requires Valid() && Resolve(rom, segments, ramSize, address, 4).Null?
      modifies this`bus, readCache
      ensures Valid() && ReadsLong(device, old(Contents()), address, v, bus)
    {
      ghost var offset;
      var p;
      p, offset := MirrorPointer(address);
      if p.At? {
        MirroredSeam(address, p, offset);
        v := BlockLong(p.block, p.index);
      } else {
        v := ReadTwoWords(address);
        if LongSafe(rom.Length, ramSize, address) { SafeWords(old(Contents()), address, v, bus); }
      }
    }

    /** A long that only the mirror finds lies behind ROM. */
    lemma MirroredSeam(address: uint32, p: Pointer, offset: nat)
      requires Mapped() && Resolve(rom, segments, ramSize, address, 4).Null?
      requires LogicalWindow(address).Some? && LogicalWindow(Next(address, 3)).Some?
      requires p.At? && p == SpanPointer(segments, offset, 4) && offset == Fold(LogicalWindow(address).value, ramSize)
      ensures 0 <= p.index && p.index + 4 <= p.block.Length
      ensures ReadsLong(device, Contents(), address, BlockLong(p.block, p.index), bus)
    {
      SpanLongBytes(offset);
      MirroredBehindRom(address, offset);
      SeamLong(device, Contents(), address, offset);
    }

    lemma MirroredBehindRom(address: uint32, offset: nat)
      requires Mapped() && Resolve(rom, segments, ramSize, address, 4).Null?
      requires LogicalWindow(address).Some? && LogicalWindow(Next(address, 3)).Some?
      requires SpanPointer(segments, offset, 4).At? && offset == Fold(LogicalWindow(address).value, ramSize)
      ensures RomOffset(rom.Length, address, 4).None? && InRamAlias(address) && !Uniform(rom.Length, address, 4)
      ensures offset + 4 <= ramSize && RamOffset(ramSize, address, 4).Some?
    {
      SpanBytes(offset, 4);
      MirroredInRam(address, offset);
      if address < RAM_LOGICAL_SIZE { UniformSpans(rom.Length, ramSize, address, 4); }
      if Uniform(rom.Length, address, 4) { MirrorAddsNothing(address); }
    }

    lemma SpanLongBytes(o: nat)
      requires Backed() && SpanPointer(segments, o, 4).At?
      ensures o + 4 <= ramSize
      ensures var p := SpanPointer(segments, o, 4);
              && 0 <= p.index && p.index + 4 <= p.block.Length && BlockLong(p.block, p.index) == LongAt(Ram, o)
    {
      SpanBytes(o, 4);
    }

    method PalmRead32(address: uint32) returns (v: uint32)
      requires Valid()
      modifies this`bus, readCache
      ensures Valid()
      ensures ReadsLong(device, old(Contents()), address, v, bus)
    {
      var p := ReadPointer(address, 4);
      if p.Null? {
        v := Read32Apart(address);
        return;
      }
      ResolvedRange(address, 4);
      v := BlockLong(p.block, p.index);
      if Uniform(rom.Length, address, 4) {
        ResolvedLong(address, p);
      } else {
        ResolvedSeam(address, p);
      }
    }

    lemma ResolvedLong(address: uint32, p: Pointer)
      requires Mapped() && p.At? && p == Resolve(rom, segments, ramSize, address, 4) && Uniform(rom.Length, address, 4)
      ensures 0 <= p.index && p.index + 4 <= p.block.Length
      ensures Read32(device, Contents(), address) == (BlockLong(p.block, p.index), bus)
    {
      ResolvedSpan(address, 4, p);
      PureLong(device, Contents(), address, p.block[p.index..p.index + 4]);
    }

    /** A long that is not uniform and has a pointer is torn, or RAM behind ROM. */
    lemma ResolvedSeam(address: uint32, p: Pointer)
      requires Mapped() && p.At? && p == Resolve(rom, segments, ramSize, address, 4) && !Uniform(rom.Length, address, 4)
      ensures 0 <= p.index && p.index + 4 <= p.block.Length
      ensures ReadsLong(device, Contents(), address, BlockLong(p.block, p.index), bus)
    {
      if RomOffset(rom.Length, address, 4).None? {
        SpanLongBytes(RamOffset(ramSize, address, 4).value);
        if !InRamAlias(address) { FoundSpan(address, 4); }
        SeamLong(device, Contents(), address, RamOffset(ramSize, address, 4).value);
      } else {
        ResolvedRange(address, 4);
      }
    }

    // ------------------------------------------------------ 16- and 32-bit writes

    /** Stores the bytes of a word through a RAM pointer, as writeBe16 does. */
    method StoreWord(p: Pointer, ghost offset: nat, value: uint16)
      requires Backed() && p.At? && p == SpanPointer(segments, offset, 2)
      modifies this`Ram, Blocks()
      ensures offset + 2 <= |old(Ram)| == ramSize
      ensures Backed()
      ensures Ram == PutWord(old(Ram), offset, value)
    {
      var second := Advance(p, 1);
      assert offset + 2 <= ramSize && p == SpanPointer(segments, offset, 1)
             && second == SpanPointer(segments, offset + 1, 1) by {
        SpanBytes(offset, 2);
        SpanPart(segments, offset, 2, 0, 1);
        SpanPart(segments, offset, 2, 1, 1);
      }
      StoreByte(p, offset, Hi(value));
      StoreByte(second, offset + 1, Lo(value));
    }

    lemma SpanHalves(p: Pointer, offset: nat)
      requires Backed() && p.At? && p == SpanPointer(segments, offset, 4)
      ensures offset + 4 <= ramSize && p == SpanPointer(segments, offset, 2)
      ensures Advance(p, 2).At? && Advance(p, 2) == SpanPointer(segments, offset + 2, 2)
    {
      SpanBytes(offset, 4);
      SpanPart(segments, offset, 4, 0, 2);
      SpanPart(segments, offset, 4, 2, 2);
    }

    method StoreLong(p: Pointer, ghost offset: nat, value: uint32)
      requires Backed() && p.At? && p == SpanPointer(segments, offset, 4)
      modifies this`Ram, Blocks()
      ensures offset + 4 <= |old(Ram)| == ramSize
      ensures Backed()
      ensures Ram == PutLong(old(Ram), offset, value)
    {
      SpanHalves(p, offset);
      StoreWord(p, offset, High(value));
      StoreWord(Advance(p, 2), offset + 2, Low(value));
    }

    /** The pointer that palmWrite16 and palmWrite32 try first. */
    lemma WritePointerIsRam(address: uint32, size: nat)
      requires Mapped() && PageContainsSpan(address, size)
      ensures var p := Advance(WritePage(rom, segments, ramSize, TagOf(address)), address % PAGE_SIZE);
              p.At? ==> RomOffset(rom.Length, address, size).None? && RamOffset(ramSize, address, size).Some?
                        && p == SpanPointer(segments, RamOffset(ramSize, address, size).value, size)
    {
      PagePointers(rom, segments, ramSize, address, size);
    }

    method PalmHwWrite8(address: uint32, value: byte)
      requires Valid()
      modifies this`bus
      ensures Valid()
      ensures Contents() == RegisterByte(old(Contents()), address, value)
    {
      if InRegisterSpace(address) {
        Record(HwWrite(address, value));
      }
    }

    method WriteRegisterPair(address: uint32, value: uint16)
      requires Valid()
      modifies this`bus
      ensures Valid()
      ensures Contents() == RegisterPair(old(Contents()), address, value)
    {
      PalmHwWrite8(address, Hi(value));
      PalmHwWrite8(Next(address, 1), Lo(value));
    }

    method StoreRamByte(offset: nat, value: byte)
      requires Backed() && ramSize <= RAM_LOGICAL_SIZE && offset < ramSize
      modifies this`Ram, Blocks()
      ensures Backed()
      ensures Ram == old(Ram)[offset := value]
    {
      var p := RamPointerSpan(offset, 1);
      assert p.At? && p == SpanPointer(segments, offset, 1) by {
        var _ := ByteHasSegment(segments, ramSize, offset);
      }
      StoreByte(p, offset, value);
    }

    /** Two RAM bytes, through one pointer when they share a segment. */
    method StoreRamPair(offset: nat, next: nat, value: uint16)
      requires Backed() && ramSize <= RAM_LOGICAL_SIZE && offset < ramSize && next < ramSize
      modifies this`Ram, Blocks()
      ensures Backed()
      ensures Ram == old(Ram)[offset := Hi(value)][next := Lo(value)]
    {
      if next == offset + 1 {
        var p := RamPointerSpan(offset, 2);
        if p.At? {
          StoreWord(p, offset, value);
          return;
        }
      }
      StoreRamByte(offset, Hi(value));
      StoreRamByte(next, Lo(value));
    }

    /** A RAM span that is not ROM lies below the aliases, and its bytes are RAM for writing. */
    lemma SpanTarget(address: uint32, size: nat, j: nat)
      requires Mapped() && !InRomWindow(rom.Length, address) && RamOffset(ramSize, address, size).Some? && j < size
      ensures address + size <= RAM_LOGICAL_SIZE
      ensures WriteTarget(rom.Length, ramSize, address + j) == RamByte(RamOffset(ramSize, address, size).value + j)
    {
      RomWindowIsResolved(rom.Length, address);
      BelowAliases(rom.Length, ramSize, address, size);
      LowSpan(ramSize, address, size, j);
      LogicalTarget(rom.Length, ramSize, address + j);
    }

    lemma ApartRamTargets(address: uint32, offset: nat, next: nat)
      requires Mapped() && address + 1 < ADDRESS_END
      requires !InRomWindow(rom.Length, address)
      requires FallbackOffset(ramSize, address, offset) && FallbackOffset(ramSize, address + 1, next)
      ensures WriteTarget(rom.Length, ramSize, address) == RamByte(offset)
      ensures WriteTarget(rom.Length, ramSize, address + 1) == RamByte(next)
    {
      RomWindowIsResolved(rom.Length, address);
      RomWindowIsResolved(rom.Length, address + 1);
      ApartTarget(address, offset);
      ApartTarget(address + 1, next);
    }

    lemma ApartTarget(address: uint32, offset: nat)
      requires Mapped() && RomOffset(rom.Length, address, 1).None?
      requires FallbackOffset(ramSize, address, offset)
      ensures WriteTarget(rom.Length, ramSize, address) == RamByte(offset)
    {
      if RamWindow(ramSize, address) == Some(offset) {
        RamTarget(address);
      } else {
        if address >= RAM_LOGICAL_SIZE {
          RomFillsAlias(rom.Length, address);
        }
        LogicalTarget(rom.Length, ramSize, address);
      }
    }

    /** StoreWord and StoreLong, keeping the whole invariant. */
    method PutWordAt(p: Pointer, ghost offset: nat, value: uint16)
      requires Valid() && p.At? && p == SpanPointer(segments, offset, 2)
      modifies this`Ram, Blocks()
      ensures Valid() && offset + 2 <= |old(Ram)|
      ensures Contents() == old(Contents()).(ram := PutWord(old(Ram), offset, value))
    {
      StoreWord(p, offset, value);
    }

    method PutLongAt(p: Pointer, ghost offset: nat, value: uint32)
      requires Valid() && p.At? && p == SpanPointer(segments, offset, 4)
      modifies this`Ram, Blocks()
      ensures Valid() && offset + 4 <= |old(Ram)|
      ensures Contents() == old(Contents()).(ram := PutLong(old(Ram), offset, value))
    {
      StoreLong(p, offset, value);
    }

    method PutPair(offset: nat, next: nat, value: uint16)
      requires Valid() && offset < ramSize && next < ramSize
      modifies this`Ram, Blocks()
      ensures Valid()
      ensures Contents() == old(Contents()).(ram := old(Ram)[offset := Hi(value)][next := Lo(value)])
    {
      StoreRamPair(offset, next, value);
    }

    method WriteTwoBytes(address: uint32, value: uint16)
      requires Valid()
      modifies this`bus, this`Ram, this`Vram, writeCache, vram, Blocks()
      ensures Valid()
      ensures Contents() == Write16(old(Contents()), address, value)
    {
      PalmWrite8(address, Hi(value));
      PalmWrite8(Next(address, 1), Lo(value));
    }

    lemma SpanWord(address: uint32, value: uint16)
      requires Mapped() && !InRomWindow(rom.Length, address) && RamOffset(ramSize, address, 2).Some?
      ensures var o := RamOffset(ramSize, address, 2).value;
              Write16(Contents(), address, value) == Contents().(ram := PutWord(Ram, o, value))
    {
      SpanTarget(address, 2, 0);
      SpanTarget(address, 2, 1);
      var o := RamOffset(ramSize, address, 2).value;
      RamWord(Contents(), address, value, o, o + 1);
    }

    lemma ApartWord(address: uint32, value: uint16, offset: nat, next: nat)
      requires Mapped() && address + 1 < ADDRESS_END && !InRomWindow(rom.Length, address)
      requires FallbackOffset(ramSize, address, offset) && FallbackOffset(ramSize, address + 1, next)
      ensures offset < ramSize && next < ramSize
      ensures Write16(Contents(), address, value)
              == Contents().(ram := Ram[offset := Hi(value)][next := Lo(value)])
    {
      ApartRamTargets(address, offset, next);
      RamWord(Contents(), address, value, offset, next);
    }

    /** The rest of palmWrite16, after the registers and ROM have been ruled out. */
    method WriteRam16(address: uint32, value: uint16)
      requires Valid() && !InRegisterSpace(address) && !InRomWindow(rom.Length, address)
      modifies this`bus, this`Ram, this`Vram, writeCache, vram, Blocks()
      ensures Valid()
      ensures Contents() == Write16(old(Contents()), address, value)
    {
      var ram := RamPointerForAddress(address, 2);
      if ram.At? {
        SpanWord(address, value);
        PutWordAt(ram, RamOffset(ramSize, address, 2).value, value);
      } else {
        WriteApart16(address, value);
      }
    }

    method WriteApart16(address: uint32, value: uint16)
      requires Valid() && !InRegisterSpace(address) && !InRomWindow(rom.Length, address)
      modifies this`bus, this`Ram, this`Vram, writeCache, vram, Blocks()
      ensures Valid()
      ensures Contents() == Write16(old(Contents()), address, value)
    {
      var found, offset, next := PairOffsets(address);
      if found {
        ApartWord(address, value, offset, next);
        PutPair(offset, next, value);
      } else {
        WriteTwoBytes(address, value);
      }
    }

    method PalmWrite16(address: uint32, value: uint16)
      requires Valid()
      modifies this`bus, this`Ram, this`Vram, writeCache, vram, Blocks()
      ensures Valid()
      ensures address + 1 < ADDRESS_END ==>
                Contents() == if Loses(rom.Length, address, 2) then old(Contents())
                              else Write16(old(Contents()), address, value)
      ensures address + 1 == ADDRESS_END ==> Contents() == RegisterPair(old(Contents()), address, value)
    {
      if PageContainsSpan(address, 2) { WritePointerIsRam(address, 2); }
      var direct := CachedWritePointer(address, 2);
      if direct.At? {
        WritableSpan(address, 2);
        SpanWord(address, value);
        PutWordAt(direct, RamOffset(ramSize, address, 2).value, value);
      } else if InRegisterSpace(address) {
        if address + 1 < ADDRESS_END { RegisterWordWrite(Contents(), address, value); }
        WriteRegisterPair(address, value);
      } else if !InRomWindow(rom.Length, address) {
        WriteRam16(address, value);
      } else if address + 1 < ADDRESS_END && !Loses(rom.Length, address, 2) {
        KeptWord(Contents(), address, value);
      }
    }

    lemma WritableSpan(address: uint32, size: nat)
      requires Mapped() && PageContainsSpan(address, size) && RomOffset(rom.Length, address, size).None?
      requires RamOffset(ramSize, address, size).Some?
      ensures !InRomWindow(rom.Length, address)
    {
      UnshadowedRam(rom.Length, ramSize, address, size);
    }

    lemma SpanLong(address: uint32, value: uint32)
      requires Mapped() && !InRomWindow(rom.Length, address) && RamOffset(ramSize, address, 4).Some?
      ensures var o := RamOffset(ramSize, address, 4).value;
              Write32(Contents(), address, value) == Contents().(ram := PutLong(Ram, o, value))
    {
      SpanTarget(address, 4, 0);
      SpanTarget(address, 4, 1);
      SpanTarget(address, 4, 2);
      SpanTarget(address, 4, 3);
      RamLong(Contents(), address, value, RamOffset(ramSize, address, 4).value);
    }

    method WindowPointer(address: uint32) returns (p: Pointer, ghost offset: nat)
      requires Backed() && 0 < ramSize <= RAM_LOGICAL_SIZE
      ensures p.At? ==> p == SpanPointer(segments, offset, 4)
      ensures p.At? ==> && RamWindow(ramSize, address) == Some(offset)
                        && RamWindow(ramSize, Next(address, 3)) == Some(offset + 3)
    {
      p, offset := Null, 0;
      var window, last := RamWindow(ramSize, address), RamWindow(ramSize, Next(address, 3));
      if window.Some? && last.Some? && last.value == window.value + 3 {
        p := RamPointerSpan(window.value, 4);
        offset := window.value;
      }
    }

    method WriteTwoWords(address: uint32, value: uint32)
      requires Valid() && !InRomWindow(rom.Length, address) && address + 3 < ADDRESS_END
      modifies this`bus, this`Ram, this`Vram, writeCache, vram, Blocks()
      ensures Valid()
      ensures Contents() == Write32(old(Contents()), address, value)
    {
      SecondWordKept(rom.Length, address);
      PalmWrite16(address, High(value));
      PalmWrite16(Next(address, 2), Low(value));
    }

    /** The rest of palmWrite32, after the registers and ROM have been ruled out. */
    method WriteRam32(address: uint32, value: uint32)
      requires Valid() && !InRegisterSpace(address) && !InRomWindow(rom.Length, address)
      modifies this`bus, this`Ram, this`Vram, writeCache, vram, Blocks()
      ensures Valid()
      ensures Contents() == Write32(old(Contents()), address, value)
    {
      var p := RamPointerForAddress(address, 4);
      if p.At? {
        SpanLong(address, value);
        PutLongAt(p, RamOffset(ramSize, address, 4).value, value);
      } else {
        WriteRam32Apart(address, value);
      }
    }

    /** The bytes of a long whose mirrored offsets stay together. */
    lemma MirroredByte(address: uint32, offset: nat, j: nat)
      requires Mapped() && !InRomWindow(rom.Length, address) && j < 4 && address + 3 < ADDRESS_END
      requires LogicalWindow(address).Some? && LogicalWindow(address + 3).Some?
      requires offset == Fold(LogicalWindow(address).value, ramSize) && offset + 4 <= ramSize
      ensures WriteTarget(rom.Length, ramSize, address + j) == RamByte(offset + j)
    {
      FoldStep(address, j, ramSize);
      LogicalTarget(rom.Length, ramSize, address + j);
    }

    lemma MirroredLong(address: uint32, offset: nat, value: uint32)
      requires Mapped() && !InRomWindow(rom.Length, address) && address + 3 < ADDRESS_END
      requires LogicalWindow(address).Some? && LogicalWindow(address + 3).Some?
      requires offset == Fold(LogicalWindow(address).value, ramSize) && offset + 4 <= ramSize
      ensures Write32(Contents(), address, value) == Contents().(ram := PutLong(Ram, offset, value))
    {
      MirroredByte(address, offset, 0);
      MirroredByte(address, offset, 1);
      MirroredByte(address, offset, 2);
      MirroredByte(address, offset, 3);
      RamLong(Contents(), address, value, offset);
    }

    /** palmWrite32's further searches for one pointer: by real RAM, then by logical RAM. */
    method FallbackPointer(address: uint32) returns (p: Pointer, ghost offset: nat)
      requires Mapped() && address + 3 < ADDRESS_END && !InRomWindow(rom.Length, address)
      ensures p.At? ==> p == SpanPointer(segments, offset, 4)
      ensures p.At? ==> && LogicalWindow(address).Some? && LogicalWindow(address + 3).Some?
                        && offset == Fold(LogicalWindow(address).value, ramSize)
    {
      p, offset := WindowPointer(address);
      if p.Null? {
        p, offset := MirrorPointer(address);
      }
    }

    method WriteRam32Apart(address: uint32, value: uint32)
      requires Valid() && !InRegisterSpace(address) && !InRomWindow(rom.Length, address)
      modifies this`bus, this`Ram, this`Vram, writeCache, vram, Blocks()
      ensures Valid()
      ensures Contents() == Write32(old(Contents()), address, value)
    {
      var p;
      ghost var offset;
      p, offset := FallbackPointer(address);
      if p.At? {
        SpanBytes(offset, 4);
        MirroredLong(address, offset, value);
        PutLongAt(p, offset, value);
      } else {
        WriteTwoWords(address, value);
      }
    }

    method WriteFourRegisters(address: uint32, value: uint32)
      requires Valid() && InRegisterSpace(address)
      modifies this`bus
      ensures Valid()
      ensures address + 3 < ADDRESS_END ==> Contents() == Write32(old(Contents()), address, value)
      ensures Contents()
              == RegisterPair(RegisterPair(old(Contents()), address, High(value)), Next(address, 2), Low(value))
    {
      if address + 3 < ADDRESS_END { RegisterLongWrite(Contents(), address, value); }
      WriteRegisterPair(address, High(value));
      WriteRegisterPair(Next(address, 2), Low(value));
    }

    method PalmWrite32(address: uint32, value: uint32)
      requires Valid()
      modifies this`bus, this`Ram, this`Vram, writeCache, vram, Blocks()
      ensures Valid()
      ensures address + 3 < ADDRESS_END ==>
                Contents() == if Loses(rom.Length, address, 4) then old(Contents())
                              else Write32(old(Contents()), address, value)
      ensures address + 3 >= ADDRESS_END ==>
                Contents()
                == RegisterPair(RegisterPair(old(Contents()), address, High(value)), Next(address, 2), Low(value))
    {
      if PageContainsSpan(address, 4) { WritePointerIsRam(address, 4); }
      var direct := CachedWritePointer(address, 4);
      if direct.At? {
        WritableSpan(address, 4);
        SpanLong(address, value);
        PutLongAt(direct, RamOffset(ramSize, address, 4).value, value);
      } else if InRegisterSpace(address) {
        WriteFourRegisters(address, value);
      } else if !InRomWindow(rom.Length, address) {
        WriteRam32(address, value);
      } else if address + 3 < ADDRESS_END && !Loses(rom.Length, address, 4) {
        KeptLong(Contents(), address, value);
      }
    }

    // ---------------------------------------------------------------- start-up

    constructor (image: array<byte>, targetSize: nat, hardware: Device, allocator: (nat, nat) -> bool)
      ensures rom == image && target == targetSize && device == hardware && grants == allocator
      ensures ramSize == 0 && segments == [] && Ram == [] && bus == []
      ensures fresh(readCache) && fresh(writeCache) && fresh(vram)
      ensures readCache.Length == writeCache.Length == CACHE_ENTRIES && readCache != writeCache
      ensures Rom == rom[..] && rom != vram
    {
      rom, target, device, grants := image, targetSize, hardware, allocator;
      readCache := new CachedPage[CACHE_ENTRIES](_ => CachedPage(0, Null));
      writeCache := new CachedPage[CACHE_ENTRIES](_ => CachedPage(0, Null));
      vram := new byte[0];
      segments, ramSize, bus, requests := [], 0, [], 0;
      Rom, Ram, Vram := image[..], [], [];
    }

    ghost predicate CachesEmpty()
      reads readCache, writeCache
    {
      && (forall i :: 0 <= i < readCache.Length ==> readCache[i] == CachedPage(NO_TAG, Null))
      && (forall i :: 0 <= i < writeCache.Length ==> writeCache[i] == CachedPage(NO_TAG, Null))
    }

    method ResetPageCache()
      requires readCache.Length == writeCache.Length == CACHE_ENTRIES && readCache != writeCache
      modifies readCache, writeCache
      ensures CachesEmpty()
    {
      for i := 0 to CACHE_ENTRIES
        invariant forall j :: 0 <= j < i ==> readCache[j] == CachedPage(NO_TAG, Null)
        invariant forall j :: 0 <= j < i ==> writeCache[j] == CachedPage(NO_TAG, Null)
      {
        readCache[i] := CachedPage(NO_TAG, Null);
        writeCache[i] := CachedPage(NO_TAG, Null);
      }
    }

    /** A zeroed block, or nothing: the allocator decides. */
    method PalmAlloc(size: nat) returns (ok: bool, block: array<byte>)
      modifies this`requests
      ensures fresh(block)
      ensures ok ==> block.Length == size && forall k :: 0 <= k < size ==> block[k] == 0
      ensures ok == grants(old(requests), size) && requests == old(requests) + 1
    {
      ok := grants(requests, size);
      requests := requests + 1;
      block := new byte[if ok then size else 0](_ => 0);
    }

    /** What holds while segments are being added. */
    ghost predicate Building()
      reads this`segments, this`ramSize, this`Ram, Blocks()
    {
      && Backed() && ramSize <= target
      && rom as object !in Blocks()
      && forall o :: 0 <= o < ramSize ==> Ram[o] == 0
    }

    /** A block of its own extends the tiling. */
    lemma NewBlock(block: array<byte>)
      requires Backed() && block.Length > 0 && block as object !in Blocks()
      ensures forall i :: 0 <= i < |segments| ==> segments[i].base + segments[i].size <= ramSize
      ensures Tiling(segments + [Segment(block, ramSize, block.Length)], ramSize + block.Length)
    {
      forall i | 0 <= i < |segments|
        ensures segments[i].data != block && segments[i].base + segments[i].size <= ramSize
      {
        assert segments[i] in segments;
        SegmentEnd(i);
      }
      TilingExtends(segments, ramSize, block, block.Length);
    }

    method Append(block: array<byte>)
      requires Backed() && block.Length > 0 && block as object !in Blocks()
      modifies this`segments, this`ramSize, this`Ram
      ensures Backed() && Blocks() == old(Blocks()) + {block}
      ensures segments == old(segments) + [Segment(block, old(ramSize), block.Length)]
      ensures ramSize == old(ramSize) + block.Length
      ensures Ram == old(Ram) + block[..]
    {
      ghost var before := segments;
      NewBlock(block);
      segments := segments + [Segment(block, ramSize, block.Length)];
      Ram := Ram + block[..];
      ramSize := ramSize + block.Length;
      forall i, k | 0 <= i < |segments| && 0 <= k < segments[i].size
        ensures segments[i].data[k] == Ram[segments[i].base + k]
      {
        if i < |before| {
          assert before[i].data[k] == old(Ram)[before[i].base + k];
        }
      }
    }

    /** Asks for one more segment and appends it at the end of RAM. */
    method AddSegment(size: nat) returns (ok: bool)
      requires Building() && 0 < size <= target - ramSize
      modifies this`requests, this`segments, this`ramSize, this`Ram
      ensures Building()
      ensures fresh(Blocks() - old(Blocks()))
      ensures ok ==> ramSize == old(ramSize) + size && |segments| == old(|segments|) + 1
      ensures ok ==> segments[..old(|segments|)] == old(segments) && Ram[..old(|Ram|)] == old(Ram)
      ensures ok ==> var last := segments[old(|segments|)]; last.base == old(ramSize) && last.size == size
      ensures !ok ==> ramSize == old(ramSize) && segments == old(segments) && Ram == old(Ram)
    {
      var block;
      ok, block := PalmAlloc(size);
      if ok {
        Append(block);
      }
    }

    /** One segment of internal memory for low RAM: 96 KiB, or 16 KiB less at each refusal. */
    method AllocateLow()
      requires Building()
      modifies this`requests, this`segments, this`ramSize, this`Ram
      ensures Building() && fresh(Blocks() - old(Blocks()))
    {
      var lowRequest := INTERNAL_LOW_SIZE;
      while lowRequest >= INTERNAL_LOW_STEP && ramSize < target && |segments| < MAX_SEGMENTS
        invariant Building() && fresh(Blocks() - old(Blocks()))
        decreases lowRequest
      {
        var remaining := target - ramSize;
        var ok := AddSegment(if lowRequest < remaining then lowRequest else remaining);
        if ok {
          break;
        }
        lowRequest := lowRequest - INTERNAL_LOW_STEP;
      }
    }

    method AllocateBlocksOf(blockSize: nat)
      requires Building() && blockSize > 0
      modifies this`requests, this`segments, this`ramSize, this`Ram
      ensures Building() && fresh(Blocks() - old(Blocks()))
    {
      while ramSize < target && |segments| < MAX_SEGMENTS
        invariant Building() && fresh(Blocks() - old(Blocks()))
        decreases target - ramSize
      {
        var remaining := target - ramSize;
        var ok := AddSegment(if remaining < blockSize then remaining else blockSize);
        if !ok {
          break;
        }
      }
    }

    /** Blocks of ever smaller sizes, each size until it is refused. */
    method AllocateBlocks()
      requires Building()
      modifies this`requests, this`segments, this`ramSize, this`Ram
      ensures Building() && fresh(Blocks() - old(Blocks()))
    {
      var b := 0;
      while b < |BLOCK_SIZES| && ramSize < target && |segments| < MAX_SEGMENTS
        invariant 0 <= b <= |BLOCK_SIZES|
        invariant Building() && fresh(Blocks() - old(Blocks()))
        decreases |BLOCK_SIZES| - b
      {
        AllocateBlocksOf(BLOCK_SIZES[b]);
        b := b + 1;
      }
    }

    method FreeRamPages()
      requires readCache.Length == writeCache.Length == CACHE_ENTRIES && readCache != writeCache
      modifies this`segments, this`ramSize, this`Ram, this`vram, this`Vram, readCache, writeCache
      ensures segments == [] && ramSize == 0 && Ram == [] && Vram == [] && vram.Length == 0
      ensures fresh(vram) && CachesEmpty()
    {
      vram := new byte[0];
      segments, ramSize := [], 0;
      Ram, Vram := [], [];
      ResetPageCache();
    }

    ghost predicate Fresh()
      reads this`segments, this`ramSize, this`Ram, this`vram, this`Vram, rom
    {
      && segments == [] && ramSize == 0 && Ram == [] && Vram == [] && vram.Length == 0
      && rom.Length > 0 && Cacheable(rom.Length) && rom[..] == Rom && rom != vram
      && readCache.Length == writeCache.Length == CACHE_ENTRIES && readCache != writeCache
      && 0 < target <= RAM_LOGICAL_SIZE && target % PAGE_SIZE == 0
    }

    method AllocateRam()
      requires Fresh()
      modifies this`requests, this`segments, this`ramSize, this`Ram
      ensures Building() && fresh(Blocks())
    {
      assert Blocks() == {};
      AllocateLow();
      AllocateBlocks();
    }

    /** Display memory, then the register block's own reset. */
    method StartDisplay() returns (ok: bool)
      requires Building() && ramSize == target && 0 < target <= RAM_LOGICAL_SIZE && target % PAGE_SIZE == 0
      requires rom.Length > 0 && Cacheable(rom.Length) && rom[..] == Rom
      requires CachesEmpty() && readCache.Length == writeCache.Length == CACHE_ENTRIES && readCache != writeCache
      modifies this`requests, this`vram, this`Vram, this`bus
      ensures ok ==> Valid() && Vram == seq(SED_VRAM_SIZE, _ => 0) && bus == old(bus) + [Reset]
    {
      var block;
      ok, block := PalmAlloc(SED_VRAM_SIZE);
      if ok {
        AttachDisplay(block);
      }
    }

    method AttachDisplay(block: array<byte>)
      requires Building() && ramSize == target && 0 < target <= RAM_LOGICAL_SIZE && target % PAGE_SIZE == 0
      requires rom.Length > 0 && Cacheable(rom.Length) && rom[..] == Rom
      requires CachesEmpty() && readCache.Length == writeCache.Length == CACHE_ENTRIES && readCache != writeCache
      requires block.Length == SED_VRAM_SIZE && block != rom && block as object !in Blocks()
      requires forall k :: 0 <= k < SED_VRAM_SIZE ==> block[k] == 0
      modifies this`vram, this`Vram, this`bus
      ensures Valid() && Vram == seq(SED_VRAM_SIZE, _ => 0) && bus == old(bus) + [Reset]
    {
      vram := block;
      Vram := block[..];
      bus := bus + [Reset];
    }

    /** Whatever the allocator answers: either all of RAM and VRAM, zeroed, or nothing at all. */
    method PalmMemoryInit() returns (ok: bool)
      requires Valid() || Fresh()
      modifies this`requests, this`segments, this`ramSize, this`Ram, this`vram, this`Vram, this`bus
      modifies readCache, writeCache
      ensures old(ramSize) != 0 ==> ok && Valid() && Contents() == old(Contents())
      ensures old(ramSize) == 0 && ok ==> Valid() && ramSize == target && bus == old(bus) + [Reset]
      ensures old(ramSize) == 0 && ok ==> Ram == seq(target, _ => 0) && Vram == seq(SED_VRAM_SIZE, _ => 0)
      ensures !ok ==> Fresh() && CachesEmpty()
    {
      if ramSize != 0 {
        return true;
      }
      ResetPageCache();
      AllocateRam();
      if ramSize < target {
        FreeRamPages();
        return false;
      }
      ResetPageCache();
      ok := StartDisplay();
      if !ok {
        FreeRamPages();
      }
    }

    // -------------------------------------------------------------- block copies

    /** size_t subtraction, 32 bits wide as on the target. */
    static function Minus32(a: nat, b: nat): int {
      if a >= b then a - b else a - b + ADDRESS_END
    }

    /** The largest chunk, halved until it fits one segment, that starts at cursor. */
    method Chunk(cursor: uint32, remaining: uint32) returns (p: Pointer, chunk: nat)
      requires Backed() && PAGE_SIZE <= ramSize <= RAM_LOGICAL_SIZE && 0 < remaining
      ensures 0 < chunk <= remaining
      ensures p.At? ==> p == SpanPointer(segments, cursor, chunk) && cursor + chunk <= ramSize
      ensures p.At? <==> cursor < ramSize
    {
      chunk := if remaining > PAGE_SIZE then PAGE_SIZE else remaining;
      p := RamPointerFastSpan(cursor, chunk);
      while p.Null? && chunk > 1
        invariant 0 < chunk <= remaining && chunk <= PAGE_SIZE
        invariant p == if cursor + chunk > ramSize then Null else SpanPointer(segments, cursor, chunk)
        decreases chunk
      {
        chunk := chunk / 2;
        p := RamPointerFastSpan(cursor, chunk);
      }
      if p.Null? && cursor < ramSize {
        var _ := ByteHasSegment(segments, ramSize, cursor);
        assert false;
      }
    }

    /** One byte of memcpy into a segment. */
    method CopyByte(p: Pointer, ghost offset: nat, data: array<byte>, from: nat, k: nat, ghost chunk: nat,
                    ghost origin: nat, ghost start: seq<byte>)
      requires Backed() && p.At? && k < chunk && p == SpanPointer(segments, offset, chunk)
      requires from + k < data.Length && data as object !in Blocks()
      requires offset == origin + from && Copied(start, Ram, origin, data[..], 0, from + k)
      modifies this`Ram, Blocks()
      ensures Backed() && data[..] == old(data[..])
      ensures Copied(start, Ram, origin, data[..], 0, from + k + 1)
    {
      var here := Advance(p, k);
      assert offset + chunk <= ramSize && here == SpanPointer(segments, offset + k, 1) by {
        SpanBytes(offset, chunk);
        SpanPart(segments, offset, chunk, k, 1);
      }
      CopiedByte(start, Ram, origin, data[..], 0, from + k);
      StoreByte(here, offset + k, data[from + k]);
    }

    /** memcpy into one segment, as the next part of a longer copy. */
    method CopyIn(p: Pointer, ghost offset: nat, data: array<byte>, done: nat, chunk: nat, ghost start: seq<byte>)
      requires Backed() && p.At? && chunk > 0 && p == SpanPointer(segments, offset + done, chunk)
      requires done + chunk <= data.Length && data as object !in Blocks()
      requires Copied(start, Ram, offset, data[..], 0, done)
      modifies this`Ram, Blocks()
      ensures Backed() && data[..] == old(data[..])
      ensures Copied(start, Ram, offset, data[..], 0, done + chunk)
    {
      ghost var bytes := data[..];
      for k := 0 to chunk
        invariant Backed() && data[..] == bytes
        invariant Copied(start, Ram, offset, bytes, 0, done + k)
      {
        CopyByte(p, offset + done, data, done, k, chunk, offset, start);
      }
    }

    /** memcpy out of one segment, as the next part of a longer copy. */
    method CopyOut(p: Pointer, ghost offset: nat, data: array<byte>, done: nat, chunk: nat, ghost start: seq<byte>)
      requires Backed() && p.At? && chunk > 0 && p == SpanPointer(segments, offset + done, chunk)
      requires done + chunk <= data.Length && data as object !in Blocks()
      requires Copied(start, data[..], 0, Ram, offset, done)
      modifies data
      ensures Backed()
      ensures Copied(start, data[..], 0, Ram, offset, done + chunk)
    {
      SpanBytes(offset + done, chunk);
      forall k | 0 <= k < chunk {
        data[done + k] := p.block[p.index + k];
      }
    }

    /** One round of palmRamWriteBytes: the next chunk, or 0 when the cursor has left RAM. */
    method WriteChunk(offset: uint32, data: array<byte>, done: nat, count: uint32, ghost start: seq<byte>)
      returns (chunk: nat)
      requires Backed() && PAGE_SIZE <= ramSize <= RAM_LOGICAL_SIZE
      requires done < count <= data.Length && data as object !in Blocks()
      requires |start| == ramSize && (done > 0 ==> offset + done <= ramSize)
      requires Copied(start, Ram, offset, data[..], 0, done)
      modifies this`Ram, Blocks()
      ensures Backed() && done + chunk <= count && data[..] == old(data[..])
      ensures chunk == 0 <==> offset + done >= ramSize
      ensures chunk > 0 ==> offset + done + chunk <= ramSize
      ensures Copied(start, Ram, offset, data[..], 0, done + chunk)
    {
      var p;
      p, chunk := Chunk(offset + done, count - done);
      if p.Null? {
        return 0;
      }
      CopyIn(p, offset, data, done, chunk, start);
    }

    /** The copy loop: runs to the end of the block or of RAM. */
    method CopyAllIn(offset: uint32, data: array<byte>, count: uint32) returns (ok: bool)
      requires Backed() && PAGE_SIZE <= ramSize <= RAM_LOGICAL_SIZE
      requires 0 < count <= data.Length && data as object !in Blocks()
      modifies this`Ram, Blocks()
      ensures Backed() && (ok <==> offset + count <= ramSize)
      ensures Copied(old(Ram), Ram, offset, data[..], 0, Reach(ramSize, offset, count))
    {
      var done := 0;
      ghost var bytes, start := data[..], Ram;
      while done < count
        invariant 0 <= done <= count && data[..] == bytes
        invariant done > 0 ==> offset + done <= ramSize
        invariant Backed() && Copied(start, Ram, offset, bytes, 0, done)
        decreases count - done
      {
        var chunk := WriteChunk(offset, data, done, count, start);
        if chunk == 0 {
          return false;
        }
        done := done + chunk;
      }
      return true;
    }

    /** How much of a block at offset lies before the end of RAM. */
    static function Reach(size: nat, offset: nat, count: nat): nat {
      if offset + count <= size then count else if offset < size then size - offset else 0
    }

    /** Succeeds exactly on blocks inside RAM.  A count above the whole RAM size slips past
        the wrapped bounds test; such a call fills RAM to its end before it fails. */
    method PalmRamWriteBytes(offset: uint32, data: array?<byte>, count: uint32) returns (ok: bool)
      requires Backed() && (ramSize == 0 || PAGE_SIZE <= ramSize <= RAM_LOGICAL_SIZE)
      requires data != null ==> count <= data.Length && data as object !in Blocks()
      modifies this`Ram, Blocks()
      ensures Backed()
      ensures ok <==> count == 0 || (data != null && offset + count <= ramSize)
      ensures data == null ==> Ram == old(Ram)
      ensures data != null ==> Copied(old(Ram), Ram, offset, data[..], 0,
                                           if ok || count > ramSize then Reach(ramSize, offset, count) else 0)
    {
      if count == 0 {
        return true;
      }
      if data == null || ramSize == 0 || offset > Minus32(ramSize, count) {
        return false;
      }
      ok := CopyAllIn(offset, data, count);
    }

    method ReadChunk(offset: uint32, data: array<byte>, done: nat, count: uint32, ghost start: seq<byte>)
      returns (chunk: nat)
      requires Backed() && PAGE_SIZE <= ramSize <= RAM_LOGICAL_SIZE
      requires done < count <= data.Length == |start| && data as object !in Blocks()
      requires done > 0 ==> offset + done <= ramSize
      requires Copied(start, data[..], 0, Ram, offset, done)
      modifies data
      ensures Backed() && done + chunk <= count
      ensures chunk == 0 <==> offset + done >= ramSize
      ensures chunk > 0 ==> offset + done + chunk <= ramSize
      ensures Copied(start, data[..], 0, Ram, offset, done + chunk)
    {
      var p;
      p, chunk := Chunk(offset + done, count - done);
      if p.Null? {
        return 0;
      }
      CopyOut(p, offset, data, done, chunk, start);
    }

    method CopyAllOut(offset: uint32, data: array<byte>, count: uint32) returns (ok: bool)
      requires Backed() && PAGE_SIZE <= ramSize <= RAM_LOGICAL_SIZE
      requires 0 < count <= data.Length && data as object !in Blocks()
      modifies data
      ensures Backed() && (ok <==> offset + count <= ramSize)
      ensures Copied(old(data[..]), data[..], 0, Ram, offset, Reach(ramSize, offset, count))
    {
      var done := 0;
      ghost var start := data[..];
      while done < count
        invariant 0 <= done <= count && |start| == data.Length
        invariant done > 0 ==> offset + done <= ramSize
        invariant Backed() && Copied(start, data[..], 0, Ram, offset, done)
        decreases count - done
      {
        var chunk := ReadChunk(offset, data, done, count, start);
        if chunk == 0 {
          return false;
        }
        done := done + chunk;
      }
      return true;
    }

    /** The same bounds, copying the other way. */
    method PalmRamReadBytes(offset: uint32, data: array?<byte>, count: uint32) returns (ok: bool)
      requires Backed() && (ramSize == 0 || PAGE_SIZE <= ramSize <= RAM_LOGICAL_SIZE)
      requires data != null ==> count <= data.Length && data as object !in Blocks()
      modifies data
      ensures Backed()
      ensures ok <==> count == 0 || (data != null && offset + count <= ramSize)
      ensures data != null ==>
                Copied(old(data[..]), data[..], 0, Ram, offset,
                                 if ok || count > ramSize then Reach(ramSize, offset, count) else 0)
    {
      if count == 0 {
        return true;
      }
      if data == null || ramSize == 0 || offset > Minus32(ramSize, count) {
        return false;
      }
      ok := CopyAllOut(offset, data, count);
    }
  }
}
