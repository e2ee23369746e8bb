/** The guest address map of the Palm IIIc profile: which backing byte, register or
    constant each 32-bit guest address stands for.  Everything here is a value; the
    segmented RAM and the page cache that short-cuts this resolver are in PalmMemory. */
module AddressMap {
  import opened Arith

  newtype byte = x: int | 0 <= x < 0x100
  type uint32 = x: int | 0 <= x < 0x1_0000_0000

  datatype Option<+T> = None | Some(value: T)

  const ADDRESS_END: nat := 0x1_0000_0000
  const PAGE_SIZE: nat := 0x1000
  const RAM_LOGICAL_SIZE: nat := 0x40_0000
  const RAM_TOP_ALIAS_END: nat := 0x100_0000
  const ROM_BASE: nat := 0x10c0_8000
  const ROM_LOW_ALIAS_BASE: nat := 0x10c0_0000
  const ROM_24BIT_BASE: nat := 0xc0_8000
  const ROM_LOW_24BIT_ALIAS_BASE: nat := 0xc0_0000
  const ROM_CHIP_SELECT_SIZE: nat := 0x100_0000
  const DB_REG_BASE: nat := 0xffff_f000
  const DB_REG_24BIT_BASE: nat := 0xff_f000
  const DB_REG_SIZE: nat := 0x1000
  const SED_BASE: nat := 0x1f00_0000
  const SED_REG_BASE: nat := 0x1f01_ffe0
  const SED_REG_SIZE: nat := 0x20
  const SED_VRAM_SIZE: nat := 0x1_4000

  // ------------------------------------------------------------------ resolvers

  /** A window that maps addresses lo, lo+1, ... below hi onto offsets 0, 1, ... of n bytes. */
  function Direct(lo: nat, hi: nat, n: nat, address: nat, size: nat): Option<nat> {
    if lo <= address < hi && address - lo <= n - size then Some(address - lo) else None
  }

  /** A window starting at lo, entered at addresses up to last, that repeats n bytes. */
  function Repeat(lo: nat, last: int, n: nat, address: nat, size: nat): Option<nat>
    requires n > 0
  {
    if lo <= address <= last && Fold(address - lo, n) <= n - size then Some(Fold(address - lo, n)) else None
  }

  function OrElse(x: Option<nat>, y: Option<nat>): Option<nat> {
    if x.Some? then x else y
  }

  /** Offset into the ROM image, in the order the windows are tried: base window, low
      alias, the two 24-bit aliases, and the chip-select windows that repeat the image. */
  function RomOffset(romSize: nat, address: uint32, size: nat): (r: Option<nat>)
    ensures r.Some? ==> size > 0 && r.value + size <= romSize
  {
    if romSize == 0 || size == 0 || size > romSize then None
    else
      OrElse(Direct(ROM_BASE, ADDRESS_END, romSize, address, size),
      OrElse(Direct(ROM_LOW_ALIAS_BASE, ROM_BASE, romSize, address, size),
      OrElse(Direct(ROM_LOW_24BIT_ALIAS_BASE, ROM_24BIT_BASE, romSize, address, size),
      OrElse(Direct(ROM_24BIT_BASE, ADDRESS_END, romSize, address, size),
      OrElse(Repeat(ROM_LOW_ALIAS_BASE, ROM_LOW_ALIAS_BASE + ROM_CHIP_SELECT_SIZE - 1, romSize, address, size),
             Repeat(ROM_LOW_24BIT_ALIAS_BASE, ROM_LOW_24BIT_ALIAS_BASE + ROM_CHIP_SELECT_SIZE - 1,
                    romSize, address, size))))))
  }

  /** The offset that ramPointerForAddress hands to the segment search: real RAM at
      address zero, its alias below 16 MiB, then both windows again over the logical
      size, where the real RAM repeats. */
  function RamOffset(ramSize: nat, address: uint32, size: nat): (r: Option<nat>)
    requires ramSize <= RAM_LOGICAL_SIZE
    ensures r.Some? ==> size > 0 && r.value + size <= ramSize
  {
    if ramSize == 0 || size == 0 || ramSize < size then None
    else
      OrElse(Direct(0, ADDRESS_END, ramSize, address, size),
      OrElse(Direct(RAM_TOP_ALIAS_END - ramSize, ADDRESS_END, ramSize, address, size),
      OrElse(Repeat(0, RAM_LOGICAL_SIZE - size, ramSize, address, size),
             Repeat(RAM_TOP_ALIAS_END - RAM_LOGICAL_SIZE, RAM_TOP_ALIAS_END - size, ramSize, address, size))))
  }

  /** ramOffset: real RAM and its alias, one byte. */
  function RamWindow(ramSize: nat, address: uint32): (r: Option<nat>)
    requires ramSize <= RAM_LOGICAL_SIZE
    ensures r.Some? ==> r.value < ramSize && r == RamOffset(ramSize, address, 1)
  {
    if ramSize == 0 then None
    else if address < ramSize then Some(address)
    else if RAM_TOP_ALIAS_END - ramSize <= address < RAM_TOP_ALIAS_END then
      Some(address - (RAM_TOP_ALIAS_END - ramSize))
    else None
  }

  /** inLogicalRam: the offset inside the logical RAM size, at zero or below 16 MiB. */
  function LogicalWindow(address: uint32): (r: Option<nat>)
    ensures r.Some? ==> r.value < RAM_LOGICAL_SIZE
  {
    if address < RAM_LOGICAL_SIZE then Some(address)
    else if RAM_TOP_ALIAS_END - RAM_LOGICAL_SIZE <= address < RAM_TOP_ALIAS_END then
      Some(address - (RAM_TOP_ALIAS_END - RAM_LOGICAL_SIZE))
    else None
  }

  predicate InRegisterSpace(address: uint32) {
    || DB_REG_BASE <= address < DB_REG_BASE + DB_REG_SIZE
    || DB_REG_24BIT_BASE <= address < DB_REG_24BIT_BASE + DB_REG_SIZE
  }

  predicate InSedRegisters(address: uint32) {
    SED_REG_BASE <= address < SED_REG_BASE + SED_REG_SIZE
  }

  predicate InSedVram(address: uint32) {
    SED_BASE <= address < SED_BASE + SED_VRAM_SIZE
  }

  /** What romOffset, the test that makes ROM writes vanish, accepts. */
  predicate InRomWindow(romSize: nat, address: uint32) {
    || (address >= ROM_BASE && address - ROM_BASE < romSize)
    || (ROM_LOW_ALIAS_BASE <= address < ROM_BASE && address - ROM_LOW_ALIAS_BASE < romSize)
    || ROM_LOW_ALIAS_BASE <= address < ROM_LOW_ALIAS_BASE + ROM_CHIP_SELECT_SIZE
    || ROM_LOW_24BIT_ALIAS_BASE <= address < ROM_LOW_24BIT_ALIAS_BASE + ROM_CHIP_SELECT_SIZE
    || (ROM_LOW_24BIT_ALIAS_BASE <= address < ROM_24BIT_BASE && address - ROM_LOW_24BIT_ALIAS_BASE < romSize)
    || (address >= ROM_24BIT_BASE && address - ROM_24BIT_BASE < romSize)
  }

  /** An image of whole pages, or one whose last, partial page lies behind both chip-select
      windows, where nothing else maps its addresses. */
  predicate Cacheable(romSize: nat) {
    romSize % PAGE_SIZE == 0 || romSize >= ROM_CHIP_SELECT_SIZE - (ROM_BASE - ROM_LOW_ALIAS_BASE)
  }

  /** Sizes the map is used with: a cacheable image, and real RAM of whole pages within the
      logical size. */
  predicate Mappable(romSize: nat, ramSize: nat) {
    && 0 < romSize && Cacheable(romSize)
    && 0 < ramSize <= RAM_LOGICAL_SIZE && ramSize % PAGE_SIZE == 0
  }

  predicate PageContainsSpan(address: uint32, size: nat) {
    0 < size <= PAGE_SIZE && address % PAGE_SIZE <= PAGE_SIZE - size
  }

  // ----------------------------------------------------- pages resolve as a block

  lemma {:induction false} FoldOfPages(x: nat, k: nat, n: nat)
    requires n > 0 && x % PAGE_SIZE == 0 && n % PAGE_SIZE == 0 && k < PAGE_SIZE
    ensures Fold(x + k, n) == Fold(x, n) + k && Fold(x, n) <= n - PAGE_SIZE
  {
    if x >= n {
      FoldOfPages(x - n, k, n);
    }
  }

  function Shift(o: Option<nat>, k: nat): Option<nat> {
    match o
    case None => None
    case Some(v) => Some(v + k)
  }

  lemma DirectPage(lo: nat, hi: nat, n: nat, base: nat, k: nat, size: nat)
    requires lo % PAGE_SIZE == 0 && hi % PAGE_SIZE == 0 && n % PAGE_SIZE == 0 && base % PAGE_SIZE == 0
    requires 0 < size && k + size <= PAGE_SIZE
    ensures Direct(lo, hi, n, base + k, size) == Shift(Direct(lo, hi, n, base, PAGE_SIZE), k)
  {}

  /** Page-aligned bounds cannot separate a page from a span inside it. */
  lemma BoundsOfPage(edge: nat, base: nat, k: nat, size: nat)
    requires edge % PAGE_SIZE == 0 && base % PAGE_SIZE == 0
    requires 0 < size && k + size <= PAGE_SIZE
    ensures edge <= base + k <==> edge <= base
    ensures base + k <= edge - size <==> base <= edge - PAGE_SIZE
    ensures base + k <= edge - 1 <==> base <= edge - 1
  {}

  lemma RepeatPage(lo: nat, end: nat, last: int, pageLast: int, n: nat, base: nat, k: nat, size: nat)
    requires n > 0 && lo % PAGE_SIZE == 0 && end % PAGE_SIZE == 0 && n % PAGE_SIZE == 0 && base % PAGE_SIZE == 0
    requires 0 < size && k + size <= PAGE_SIZE
    requires (last == end - 1 == pageLast) || (last == end - size && pageLast == end - PAGE_SIZE)
    ensures Repeat(lo, last, n, base + k, size) == Shift(Repeat(lo, pageLast, n, base, PAGE_SIZE), k)
  {
    BoundsOfPage(lo, base, k, size);
    BoundsOfPage(end, base, k, size);
    if lo <= base {
      FoldOfPages(base - lo, k, n);
    }
  }

  /** A span inside one page resolves into ROM exactly as its whole page does. */
  lemma RomPageUniform(romSize: nat, base: uint32, k: nat, size: nat)
    requires romSize > 0 && romSize % PAGE_SIZE == 0 && base % PAGE_SIZE == 0
    requires 0 < size && k + size <= PAGE_SIZE
    ensures base + k < ADDRESS_END
    ensures RomOffset(romSize, base + k, size) == Shift(RomOffset(romSize, base, PAGE_SIZE), k)
  {
    DirectPage(ROM_BASE, ADDRESS_END, romSize, base, k, size);
    DirectPage(ROM_LOW_ALIAS_BASE, ROM_BASE, romSize, base, k, size);
    DirectPage(ROM_LOW_24BIT_ALIAS_BASE, ROM_24BIT_BASE, romSize, base, k, size);
    DirectPage(ROM_24BIT_BASE, ADDRESS_END, romSize, base, k, size);
    var low, low24 := ROM_LOW_ALIAS_BASE + ROM_CHIP_SELECT_SIZE, ROM_LOW_24BIT_ALIAS_BASE + ROM_CHIP_SELECT_SIZE;
    RepeatPage(ROM_LOW_ALIAS_BASE, low, low - 1, low - 1, romSize, base, k, size);
    RepeatPage(ROM_LOW_24BIT_ALIAS_BASE, low24, low24 - 1, low24 - 1, romSize, base, k, size);
  }

  /** The same for RAM offsets, including the alias and the repeats. */
  lemma RamPageUniform(ramSize: nat, base: uint32, k: nat, size: nat)
    requires 0 < ramSize <= RAM_LOGICAL_SIZE && ramSize % PAGE_SIZE == 0 && base % PAGE_SIZE == 0
    requires 0 < size && k + size <= PAGE_SIZE
    ensures base + k < ADDRESS_END
    ensures RamOffset(ramSize, base + k, size) == Shift(RamOffset(ramSize, base, PAGE_SIZE), k)
  {
    DirectPage(0, ADDRESS_END, ramSize, base, k, size);
    DirectPage(RAM_TOP_ALIAS_END - ramSize, ADDRESS_END, ramSize, base, k, size);
    RepeatPage(0, RAM_LOGICAL_SIZE, RAM_LOGICAL_SIZE - size, RAM_LOGICAL_SIZE - PAGE_SIZE, ramSize, base, k, size);
    RepeatPage(RAM_TOP_ALIAS_END - RAM_LOGICAL_SIZE, RAM_TOP_ALIAS_END, RAM_TOP_ALIAS_END - size,
               RAM_TOP_ALIAS_END - PAGE_SIZE, ramSize, base, k, size);
  }

  /** The write path's ROM test and the pointer resolver agree on single bytes. */
  lemma RomWindowIsResolved(romSize: nat, address: uint32)
    requires romSize > 0
    ensures InRomWindow(romSize, address) <==> RomOffset(romSize, address, 1).Some?
  {}

  /** RAM that ROM does not shadow is never a register or display-controller page. */
  lemma RamIsNotDevice(romSize: nat, ramSize: nat, address: uint32)
    requires Mappable(romSize, ramSize)
    requires RomOffset(romSize, address, 1).None? && RamOffset(ramSize, address, 1).Some?
    ensures !InRegisterSpace(address) && !InSedRegisters(address) && !InSedVram(address)
  {}

  /** A span that resolves into ROM as its first and its last byte do, or as neither does. */
  predicate Uniform(romSize: nat, address: uint32, size: nat) {
    && 0 < size <= PAGE_SIZE && address + size <= ADDRESS_END
    && RomOffset(romSize, address, 1) == RomOffset(romSize, address, size)
    && RomOffset(romSize, address + size - 1, 1) == Shift(RomOffset(romSize, address, size), size - 1)
  }

  /** A byte that is ROM takes along every span that stays in the image; one that is not ROM
      starts none. */
  lemma SpanOfByte(romSize: nat, address: uint32, size: nat)
    requires 0 < size
    ensures RomOffset(romSize, address, 1).None? ==> RomOffset(romSize, address, size).None?
    ensures RomOffset(romSize, address, 1).Some? && RomOffset(romSize, address, 1).value + size <= romSize ==>
              RomOffset(romSize, address, size) == RomOffset(romSize, address, 1)
  {}

  /** A uniform long is two uniform words, and wraps nowhere. */
  lemma UniformHalves(romSize: nat, ramSize: nat, address: uint32)
    requires Mappable(romSize, ramSize) && Uniform(romSize, address, 4)
    ensures address + 3 < ADDRESS_END && Uniform(romSize, address, 2) && Uniform(romSize, address + 2, 2)
  {
    SpanResolvesBytewise(romSize, ramSize, address, 4, 1);
    SpanResolvesBytewise(romSize, ramSize, address, 4, 2);
    SpanOfByte(romSize, address, 2);
    SpanOfByte(romSize, address + 2, 2);
  }

  /** Two bytes of a page are neighbours in the image, or neither is ROM. */
  lemma PageNeighbours(romSize: nat, base: uint32, k: nat, l: nat)
    requires romSize > 0 && romSize % PAGE_SIZE == 0 && base % PAGE_SIZE == 0
    requires k <= l < PAGE_SIZE
    ensures base + l < ADDRESS_END
    ensures RomOffset(romSize, base + l, 1) == Shift(RomOffset(romSize, base + k, 1), l - k)
  {
    RomPageUniform(romSize, base, k, 1);
    RomPageUniform(romSize, base, l, 1);
  }

  /** Bytes from the next page on are counted back from the last one. */
  lemma BackFromLast(romSize: nat, base: uint32, k: nat, l: nat, first: Option<nat>, j: nat, last: nat)
    requires romSize > 0 && romSize % PAGE_SIZE == 0 && base % PAGE_SIZE == 0
    requires k <= l < PAGE_SIZE && j <= last && last - j == l - k
    requires base + l < ADDRESS_END && RomOffset(romSize, base + l, 1) == Shift(first, last)
    ensures RomOffset(romSize, base + k, 1) == Shift(first, j)
  {
    PageNeighbours(romSize, base, k, l);
  }

  /** Bytes in the page of the first one are counted from it. */
  lemma RomBytewiseAt(romSize: nat, base: uint32, k: nat, size: nat, j: nat, span: Option<nat>)
    requires romSize > 0 && romSize % PAGE_SIZE == 0 && base % PAGE_SIZE == 0
    requires k < PAGE_SIZE && j < size <= PAGE_SIZE && base + k + size <= ADDRESS_END
    requires RomOffset(romSize, base + k, 1) == span
    requires RomOffset(romSize, base + k + size - 1, 1) == Shift(span, size - 1)
    ensures RomOffset(romSize, base + k + j, 1) == Shift(span, j)
  {
    if k + j < PAGE_SIZE {
      PageNeighbours(romSize, base, k, k + j);
    } else {
      BackFromLast(romSize, base + PAGE_SIZE, k + j - PAGE_SIZE, k + size - 1 - PAGE_SIZE, span, j, size - 1);
    }
  }

  /** Images behind both chip-select windows nowhere repeat. */
  lemma LargeImageByte(romSize: nat, address: uint32)
    requires romSize >= ROM_CHIP_SELECT_SIZE - (ROM_BASE - ROM_LOW_ALIAS_BASE)
    ensures RomOffset(romSize, address, 1)
            == if ROM_BASE <= address < ROM_BASE + romSize then Some(address - ROM_BASE)
               else if ROM_LOW_ALIAS_BASE <= address < ROM_BASE then Some(address - ROM_LOW_ALIAS_BASE)
               else if ROM_LOW_24BIT_ALIAS_BASE <= address < ROM_24BIT_BASE then
                 Some(address - ROM_LOW_24BIT_ALIAS_BASE)
               else if ROM_24BIT_BASE <= address < ROM_24BIT_BASE + romSize then Some(address - ROM_24BIT_BASE)
               else None
  {}

  lemma LargeImageBytewise(romSize: nat, address: uint32, size: nat, j: nat)
    requires romSize >= ROM_CHIP_SELECT_SIZE - (ROM_BASE - ROM_LOW_ALIAS_BASE)
    requires Uniform(romSize, address, size) && j < size
    ensures RomOffset(romSize, address + j, 1) == Shift(RomOffset(romSize, address, size), j)
  {
    LargeImageByte(romSize, address);
    LargeImageByte(romSize, address + j);
    LargeImageByte(romSize, address + size - 1);
  }

  lemma RomBytewise(romSize: nat, address: uint32, size: nat, j: nat)
    requires romSize > 0 && Cacheable(romSize) && Uniform(romSize, address, size) && j < size
    ensures RomOffset(romSize, address + j, 1) == Shift(RomOffset(romSize, address, size), j)
  {
    if romSize % PAGE_SIZE == 0 {
      var k := address % PAGE_SIZE;
      RomBytewiseAt(romSize, address - k, k, size, j, RomOffset(romSize, address, size));
    } else {
      LargeImageBytewise(romSize, address, size, j);
    }
  }

  /** Where a uniform span resolves as a whole, its bytes resolve one after another. */
  lemma SpanResolvesBytewise(romSize: nat, ramSize: nat, address: uint32, size: nat, j: nat)
    requires Mappable(romSize, ramSize) && Uniform(romSize, address, size) && j < size
    ensures address + j < ADDRESS_END
    ensures RomOffset(romSize, address + j, 1) == Shift(RomOffset(romSize, address, size), j)
    ensures RomOffset(romSize, address, size).None? && RamOffset(ramSize, address, size).Some? ==>
              RamOffset(ramSize, address + j, 1) == Shift(RamOffset(ramSize, address, size), j)
  {
    RomBytewise(romSize, address, size, j);
    if RomOffset(romSize, address, size).None? && RamOffset(ramSize, address, size).Some? {
      BelowAliases(romSize, ramSize, address, size);
      LowSpan(ramSize, address, size, j);
    }
  }

  /** What RAM answers for and ROM does not lies below the aliases. */
  lemma BelowAliases(romSize: nat, ramSize: nat, address: uint32, size: nat)
    requires romSize > 0 && ramSize <= RAM_LOGICAL_SIZE
    requires RomOffset(romSize, address, 1).None? && RamOffset(ramSize, address, size).Some?
    ensures address < ROM_LOW_24BIT_ALIAS_BASE
  {
    if address >= ROM_LOW_24BIT_ALIAS_BASE {
      RomFillsAlias(romSize, address);
    }
  }

  /** Below the aliases a span that is found is found as its bytes. */
  lemma LowSpan(ramSize: nat, address: uint32, size: nat, j: nat)
    requires 0 < ramSize <= RAM_LOGICAL_SIZE && j < size && address < ROM_LOW_24BIT_ALIAS_BASE
    requires RamOffset(ramSize, address, size).Some?
    ensures address + size <= RAM_LOGICAL_SIZE
    ensures RamOffset(ramSize, address + j, 1) == Shift(RamOffset(ramSize, address, size), j)
  {
    LogicalRamOffset(ramSize, address, size);
    LogicalRamOffset(ramSize, address + j, 1);
    FoldStep(address, j, ramSize);
  }

  /** Spans inside a page of an image of whole pages are uniform, and so are spans below 12 MiB,
      where RAM, its repeats and the gap behind them lie, inside the ROM base window, and beyond
      the image and the windows that repeat it, where devices lie. */
  lemma UniformSpans(romSize: nat, ramSize: nat, address: uint32, size: nat)
    requires Mappable(romSize, ramSize) && 0 < size <= PAGE_SIZE && address + size <= ADDRESS_END
    requires || (romSize % PAGE_SIZE == 0 && PageContainsSpan(address, size))
             || address + size <= ROM_LOW_24BIT_ALIAS_BASE
             || (ROM_BASE <= address && address + size <= ROM_BASE + romSize)
             || (ROM_LOW_ALIAS_BASE + ROM_CHIP_SELECT_SIZE <= address && ROM_BASE + romSize <= address)
    ensures Uniform(romSize, address, size)
  {
    if romSize % PAGE_SIZE == 0 && PageContainsSpan(address, size) {
      var k := address % PAGE_SIZE;
      RomPageUniform(romSize, address - k, k, size);
      PageNeighbours(romSize, address - k, k, k + size - 1);
    }
  }

  /** A span inside a page that RAM answers for and ROM does not lies below the aliases. */
  lemma UnshadowedRam(romSize: nat, ramSize: nat, address: uint32, size: nat)
    requires Mappable(romSize, ramSize) && PageContainsSpan(address, size)
    requires RomOffset(romSize, address, size).None? && RamOffset(ramSize, address, size).Some?
    ensures address < ROM_LOW_24BIT_ALIAS_BASE && !InRomWindow(romSize, address)
  {
    if romSize % PAGE_SIZE == 0 {
      UniformSpans(romSize, ramSize, address, size);
      BelowAliases(romSize, ramSize, address, size);
    } else if address >= ROM_LOW_24BIT_ALIAS_BASE {
      LargeImageByte(romSize, address);
      SpanOfByte(romSize, address, size);
    }
  }

  /** The last 4 MiB below 16 MiB, where logical RAM lies behind the ROM alias. */
  predicate InRamAlias(address: uint32) {
    RAM_TOP_ALIAS_END - RAM_LOGICAL_SIZE <= address < RAM_TOP_ALIAS_END
  }

  /** Words that are read as their bytes are: uniform ones, and ones for which neither a ROM nor
      a RAM pointer nor the register test stops the search before it falls back to bytes. */
  predicate WordSafe(romSize: nat, address: uint32) {
    && address + 1 < ADDRESS_END
    && (|| Uniform(romSize, address, 2)
        || (RomOffset(romSize, address, 2).None? && !InRamAlias(address) && !InRegisterSpace(address)))
  }

  /** Address arithmetic wraps at 32 bits. */
  function Next(address: uint32, k: nat): uint32
    requires k < ADDRESS_END
  {
    if address + k < ADDRESS_END then address + k else address + k - ADDRESS_END
  }

  /** Longs likewise, where the search falls back to words. */
  predicate LongSafe(romSize: nat, ramSize: nat, address: uint32)
    requires ramSize <= RAM_LOGICAL_SIZE
  {
    || Uniform(romSize, address, 4)
    || (&& RomOffset(romSize, address, 4).None? && !(InRamAlias(address) && RamOffset(ramSize, address, 4).Some?)
        && WordSafe(romSize, address) && WordSafe(romSize, Next(address, 2)))
  }

  /** A span found below the aliases lies in logical RAM and starts at its address folded by
      the real size. */
  lemma LogicalRamOffset(ramSize: nat, address: uint32, size: nat)
    requires 0 < ramSize <= RAM_LOGICAL_SIZE && 0 < size && address + size <= ROM_LOW_24BIT_ALIAS_BASE
    ensures RamOffset(ramSize, address, size).Some? ==>
              address + size <= RAM_LOGICAL_SIZE && RamOffset(ramSize, address, size).value == Fold(address, ramSize)
    ensures size == 1 && address < RAM_LOGICAL_SIZE ==> RamOffset(ramSize, address, size).Some?
  {}

  /** Every address between 12 and 28 MiB is ROM when ROM is whole pages. */
  lemma RomFillsAlias(romSize: nat, address: uint32)
    requires romSize > 0
    requires ROM_LOW_24BIT_ALIAS_BASE <= address < ROM_LOW_24BIT_ALIAS_BASE + ROM_CHIP_SELECT_SIZE
    ensures RomOffset(romSize, address, 1).Some?
  {}

  // ------------------------------------------------- when the page cache may be trusted

  /** Where a span is found, ROM before RAM. */
  datatype Found = InRom(offset: nat) | InRam(offset: nat) | Nowhere

  function Find(romSize: nat, ramSize: nat, address: uint32, size: nat): (f: Found)
    requires ramSize <= RAM_LOGICAL_SIZE
    ensures f.InRom? ==> size > 0 && f.offset + size <= romSize
    ensures f.InRam? ==> size > 0 && f.offset + size <= ramSize
  {
    match RomOffset(romSize, address, size)
    case Some(o) => InRom(o)
    case None =>
      match RamOffset(ramSize, address, size)
      case Some(o) => InRam(o)
      case None => Nowhere
  }

  /** The span at distance k inside its page is found where the page's own finding puts it;
      a page found nowhere is not cached and leaves the span to the resolver. */
  predicate PageAnswers(romSize: nat, ramSize: nat, base: uint32, k: nat, size: nat)
    requires ramSize <= RAM_LOGICAL_SIZE
    requires base % PAGE_SIZE == 0 && 0 < size && k + size <= PAGE_SIZE
  {
    && base + k < ADDRESS_END
    && match Find(romSize, ramSize, base, PAGE_SIZE)
       case InRom(o) => Find(romSize, ramSize, base + k, size) == InRom(o + k)
       case InRam(o) => Find(romSize, ramSize, base + k, size) == InRam(o + k)
       case Nowhere => true
  }

  /** No page misleads about any span inside it. */
  ghost predicate CacheInvisible(romSize: nat, ramSize: nat)
    requires ramSize <= RAM_LOGICAL_SIZE
  {
    forall address: uint32, size: nat :: PageContainsSpan(address, size) ==>
      PageAnswers(romSize, ramSize, address - address % PAGE_SIZE, address % PAGE_SIZE, size)
  }

  /** The page of the 24-bit window in which a partial image ends. */
  function LastPage(romSize: nat): (base: uint32)
    requires !Cacheable(romSize)
    ensures base % PAGE_SIZE == 0 && ROM_24BIT_BASE <= base < ROM_LOW_24BIT_ALIAS_BASE + ROM_CHIP_SELECT_SIZE
  {
    ROM_24BIT_BASE + romSize / PAGE_SIZE * PAGE_SIZE
  }

  /** Beyond the windows, ROM pages that are found resolve as a block and those that are not
      found are not RAM pages either. */
  lemma LargeImageUniform(romSize: nat, ramSize: nat, base: uint32, k: nat, size: nat)
    requires 0 < ramSize <= RAM_LOGICAL_SIZE && base % PAGE_SIZE == 0
    requires 0 < size && k + size <= PAGE_SIZE
    requires romSize >= ROM_CHIP_SELECT_SIZE - (ROM_BASE - ROM_LOW_ALIAS_BASE)
    ensures base + k < ADDRESS_END
    ensures RomOffset(romSize, base, PAGE_SIZE).Some? ==>
              RomOffset(romSize, base + k, size) == Shift(RomOffset(romSize, base, PAGE_SIZE), k)
    ensures RomOffset(romSize, base, PAGE_SIZE).None? && base < RAM_TOP_ALIAS_END ==>
              RomOffset(romSize, base + k, size).None?
    ensures RamOffset(ramSize, base, PAGE_SIZE).Some? ==> base < RAM_TOP_ALIAS_END
  {
    var page := base / PAGE_SIZE;
    assert base == page * PAGE_SIZE;
  }

  lemma CacheableAnswers(romSize: nat, ramSize: nat, base: uint32, k: nat, size: nat)
    requires romSize > 0 && Cacheable(romSize)
    requires 0 < ramSize <= RAM_LOGICAL_SIZE && ramSize % PAGE_SIZE == 0
    requires base % PAGE_SIZE == 0 && 0 < size && k + size <= PAGE_SIZE
    ensures PageAnswers(romSize, ramSize, base, k, size)
  {
    RamPageUniform(ramSize, base, k, size);
    if romSize % PAGE_SIZE == 0 {
      RomPageUniform(romSize, base, k, size);
    } else {
      LargeImageUniform(romSize, ramSize, base, k, size);
    }
  }

  /** The first byte of the last page is ROM; the page as a whole is not, or is found at
      another place of the image, or is taken for RAM. */
  lemma LastPageMisleads(romSize: nat, ramSize: nat)
    requires romSize > 0 && !Cacheable(romSize)
    requires 0 < ramSize <= RAM_LOGICAL_SIZE && ramSize % PAGE_SIZE == 0
    ensures Find(romSize, ramSize, LastPage(romSize), 1) == InRom(romSize / PAGE_SIZE * PAGE_SIZE)
    ensures var f := Find(romSize, ramSize, LastPage(romSize), PAGE_SIZE);
            f.InRam? || (f.InRom? && f.offset != romSize / PAGE_SIZE * PAGE_SIZE)
  {
    var base := LastPage(romSize);
    var distance := base - ROM_LOW_24BIT_ALIAS_BASE;
    if romSize < ROM_BASE - ROM_LOW_ALIAS_BASE + PAGE_SIZE {
      SmallImageInRam(ramSize, base);
    } else {
      assert Fold(distance, romSize) == distance - romSize;
    }
  }

  /** Pages at the start of the 24-bit window are RAM where ROM does not claim them. */
  lemma SmallImageInRam(ramSize: nat, base: uint32)
    requires 0 < ramSize <= RAM_LOGICAL_SIZE && ramSize % PAGE_SIZE == 0 && base % PAGE_SIZE == 0
    requires RAM_TOP_ALIAS_END - RAM_LOGICAL_SIZE <= base < RAM_TOP_ALIAS_END
    ensures RamOffset(ramSize, base, PAGE_SIZE).Some?
  {
    FoldOfPages(base - (RAM_TOP_ALIAS_END - RAM_LOGICAL_SIZE), 0, ramSize);
  }

  /** The page cache is invisible exactly for cacheable images. */
  lemma InvisibleExactly(romSize: nat, ramSize: nat)
    requires romSize > 0
    requires 0 < ramSize <= RAM_LOGICAL_SIZE && ramSize % PAGE_SIZE == 0
    ensures CacheInvisible(romSize, ramSize) <==> Cacheable(romSize)
  {
    if Cacheable(romSize) {
      forall address: uint32, size: nat | PageContainsSpan(address, size)
        ensures PageAnswers(romSize, ramSize, address - address % PAGE_SIZE, address % PAGE_SIZE, size)
      {
        CacheableAnswers(romSize, ramSize, address - address % PAGE_SIZE, address % PAGE_SIZE, size);
      }
    } else {
      LastPageMisleads(romSize, ramSize);
      assert PageContainsSpan(LastPage(romSize), 1);
    }
  }
}
