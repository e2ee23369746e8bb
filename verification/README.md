# Verification of a Palm IIIc emulator

A Dafny 4.11 model of three parts of the emulator, with proofs of what they promise. Where the
source changes fields in place the model is a class with those fields; each such method is proved
against a specification function, and the laws are lemmas about the specification.

**Memory map and page cache.** `AddressMap` is the resolver: ROM windows, aliases, mirrors, RAM and
its aliases, registers and display controller. `GuestStore` gives byte, word and long accesses
with the cache deleted and the laws they obey. `PalmMemory` is the code as it runs: segmented RAM,
two direct-mapped page caches, wide accesses with their fallbacks, start-up and block copies.
`Sed1375` is the display controller's palette, LUT port and state image.

**DragonBall peripherals.** `Ads` is the touch digitizer's bit-serial protocol inside word transfers.
`Timing` holds `scaleU64`, the timer and the cycle pacer. `Uart` is the FIFO ring with its
snapshots, and `Peripherals` the register file around the interrupt block.

**68000 core.** `M68kShift` has the shifts and rotates by register count (`M68kTables` their mask
tables), `M68kLong` long multiply and divide in both compiled forms, `M68kChain` multi-precision
ADDX, SUBX, ABCD and SBCD, `M68kMovem` MOVEM.L, `M68kException` exception entry, interrupts and RTE,
`M68kExecute` the loop, its handlers and the cycle pool, and `M68kTurns` laws over whole turns.
`M68kMemory`, `Bits` and `Arith` are shared.

Conventions. Constants are those of the Palm IIIc profile. A machine word is an integer with its
wrap-around written out, or, where single bits matter, a sequence of bits (`Bits`) or the set of its
one bits (`Peripherals`). Lazy flags keep their encoding in `M68kShift` and `M68kException`; elsewhere
a flag is the bit a test of the encoding would see. Allocators and clocks are parameters:
whatever they answer, the theorems hold.

Findings. The page cache is invisible exactly for ROM images of whole pages and for images of
0xff8000 bytes or more (`AddressMap.InvisibleExactly`, `PalmMemory.PagesExactly`). A word or long
read that straddles the edge of a ROM window or the end of an image may not be the composition of its
bytes; the addresses where it is are given exactly (`GuestStore.WordReadsExactly`,
`GuestStore.LongReadsExactly`). A wide write whose first
byte is in a ROM window is dropped before devices are asked, which byte writes ask first: with any
image a long written to 0xffeffe loses its second word, a register, and images that reach the
display controller lose more (`GuestStore.DropsExactly`, `GuestStore.ShelteredExactly`). A block copy
longer than RAM passes the wrapped bounds test, fills RAM to its end and then fails
(`PalmMemory.PalmMemory.PalmRamWriteBytes`). Timer ticks are lost only by calls that count 2^32 or
more (`Timing.Conservation`). A snapshot with unequal digitizer counters loads, and its next transfer
may shift by more than a word (`Ads.SpiMaster.LoadState`). Preparing for sleep leaves the inputs quiet
unless a released line is itself asserted (`Peripherals.Registers.PrepareForSleepSnapshot`). The
portable DIVL reports overflow for a signed quad quotient of exactly -2^31 (`M68kLong.DivlPortable`,
`M68kLong.ExceptionalQuotient`). A branch to itself charges eight cycles more than plain turns would
when the pool is whole instructions (`M68kTurns.WaitingLoop`).

## Model

| member | source | states |
|---|---|---|
| `PalmMemory.PalmMemory.PalmRead8` | palm_memory.cpp:725-773 | For every cacheable image, a byte read through the cache returns what the uncached resolver gives (ROM before RAM before registers, display controller and open bus), with the same device accesses in the same order; the invariant that every cache entry answers as the resolver does is kept |
| `PalmMemory.PalmMemory.PalmWrite8` | palm_memory.cpp:859-925 | A byte write through the cache changes memory and devices exactly as the uncached write does |
| `PalmMemory.PalmMemory.CachedReadPointer` | palm_memory.cpp:316-323 | Whether it hits or misses, the pointer is the page resolver's for the address's own tag; spans that leave the page get none |
| `PalmMemory.PalmMemory.CachedWritePointer` | palm_memory.cpp:325-332 | The same for writes, where ROM pages are never cached |
| `PalmMemory.PagePointers` | palm_memory.cpp:281-332 | For every cacheable image a page pointer, advanced, is the uncached resolver's answer for every span inside the page |
| `PalmMemory.PageInOneBlock` | palm_memory.cpp:281-302 | Over RAM in one block a page pointer is where the page as a whole is found, for any image |
| `PalmMemory.PagesExactly` | palm_memory.cpp:281-332 | Over RAM in one block the read cache's pages tell the truth about every span inside them exactly for cacheable images |
| `PalmMemory.LastPageAsks` | palm_memory.cpp:281-302 | However RAM is cut, if the cache answers for the page in which another image ends, its first byte is not where the resolver finds it |
| `PalmMemory.PalmMemory.PalmRead16` | palm_memory.cpp:775-823 | At every safe address, across two RAM segments and in the mirror too, a word read is the big-endian composition of two byte reads; at every other address it is two neighbouring bytes of the image, two bytes of RAM or one register |
| `PalmMemory.PalmMemory.PalmRead32` | palm_memory.cpp:825-857 | At every safe address a long read is the composition of four byte reads; at every other address it is four neighbouring bytes of the image, four of RAM where RAM lies behind ROM, or two word reads as they are |
| `PalmMemory.PalmMemory.PalmWrite16` | palm_memory.cpp:927-983 | At every address a word write has the effect of its two byte writes in order, unless it is dropped as ROM although one of its bytes is a device's; at the end of the address space only the registers hear it |
| `PalmMemory.PalmMemory.PalmWrite32` | palm_memory.cpp:985-1035 | The same for a long write and its four byte writes |
| `PalmMemory.PalmMemory.RamPointerFastSpan` | palm_memory.cpp:187-206 | Trying the first two segments first finds what the search of all segments finds, and null outside RAM, for every span that fits RAM or does not wrap at 32 bits |
| `PalmMemory.PalmMemory.PalmMemoryInit` | palm_memory.cpp:514-601 | For every pattern of allocation failures start-up ends with segments tiling all of RAM in order, zeroed, or with nothing allocated and both caches empty; a second call changes nothing |
| `PalmMemory.PalmMemory.AddSegment` | palm_memory.cpp:529-541 | One more allocation puts a segment of exactly its size at the end of RAM and leaves the others and their bytes in place, or changes nothing |
| `PalmMemory.PalmMemory.PalmRamWriteBytes` | palm_memory.cpp:628-649 | The chunk-halving copy succeeds exactly on nothing or on blocks inside RAM, changes exactly the block, and says how far a failing copy got |
| `PalmMemory.PalmMemory.PalmRamReadBytes` | palm_memory.cpp:651-672 | The reading copy delivers exactly the bytes of the block across segment boundaries |
| `GuestStore.BlockRoundTrip` | palm_memory.cpp:628-672 | A block written into RAM reads back as itself |
| `GuestStore.WordReadsExactly` | palm_memory.cpp:775-823 | A word read can be the composition of its bytes for every memory content exactly at the safe addresses; at each other one some content makes every answer of the code wrong |
| `GuestStore.LongReadsExactly` | palm_memory.cpp:825-857 | A long read is the composition of its bytes for every memory content and every segmentation of RAM exactly at the safe addresses |
| `GuestStore.ReadsExactly` | palm_memory.cpp:281-332 | Over RAM in one block, every byte of every content reads through its page pointer as without it exactly when the image is whole pages or at least 0xff8000 bytes |
| `GuestStore.DropsExactly` | palm_memory.cpp:944-946 | A dropped word or long loses nothing, whatever is stored and written, exactly when none of its bytes is a device address |
| `GuestStore.DroppedWord` | palm_memory.cpp:944-946 | For a given state and value, the byte writes of a dropped word change nothing exactly when no device would have heard either |
| `GuestStore.DroppedLong` | palm_memory.cpp:1004-1006 | The same for the four bytes of a long |
| `GuestStore.ShelteredExactly` | palm_memory.cpp:944-1006 | Away from the 24-bit registers no dropped write loses a byte exactly when the image ends before the display controller; into those registers every image loses one |
| `GuestStore.StoreLoad` | palm_memory.cpp:725-925 | A stored byte is read back at exactly the addresses naming its cell; everything else reads as before and ROM never changes |
| `GuestStore.LastStoreWins` | palm_memory.cpp:725-925 | After any run of stores each memory byte reads as the last value stored to its cell through any alias |
| `GuestStore.LogicalRamRepeats` | palm_memory.cpp:208-236 | In logical RAM a store is seen at exactly the addresses equal modulo the real RAM size |
| `GuestStore.TargetsAgree` | palm_memory.cpp:725-925 | Read and write paths name the same RAM cell although they test windows in different orders |
| `AddressMap.RomPageUniform` | palm_memory.cpp:238-279 | A span inside a page resolves into ROM exactly as its page does, through all windows and the repeated image |
| `AddressMap.UniformSpans` | palm_memory.cpp:238-279 | Spans inside a page, below 12 MiB, inside the ROM base window or beyond image and windows resolve as their first and last bytes do |
| `AddressMap.RamPageUniform` | palm_memory.cpp:208-236 | The same for RAM, its top alias and the logical mirror |
| `AddressMap.RomWindowIsResolved` | palm_memory.cpp:691-723 | The write path's ROM test accepts exactly the addresses the pointer resolver maps |
| `AddressMap.RamIsNotDevice` | palm_memory.cpp:690-773 | RAM not shadowed by ROM is never a register or display-controller address, so devices are never served from the cache |
| `AddressMap.InvisibleExactly` | palm_memory.cpp:281-332 | No page misleads about a span inside it exactly when the image is whole pages or at least 0xff8000 bytes |
| `AddressMap.LastPageMisleads` | palm_memory.cpp:238-302 | For every other image the page of the 24-bit window in which it ends is cached with the wrong bytes |
| `Sed1375.Display.WriteReg` | palm_memory.cpp:440-468 | A register write stores where allowed, moves the LUT cursor and sets the palette colour under it, and keeps the 565 palette equal to the converted palette and the colour phase below 3 |
| `Sed1375.Display.ReadReg` | palm_memory.cpp:425-438 | LUT reads return the high nibble under the cursor and advance it; status always has bit 7 set |
| `Sed1375.LutRoundTrip` | palm_memory.cpp:425-468 | Up to 768 colours written through the LUT port, with wrap past entry 255, read back as each byte's high nibble |
| `Sed1375.Display.Init` | palm_memory.cpp:406-423 | Initialisation needs one of two allocations, gives every register its initial value, clears memory and cursor and sets the grey ramp with its 565 form; without an allocation nothing changes |
| `Sed1375.Display.WriteStateBytes` | palm_memory.cpp:1259-1276 | Writing a block into the state image changes the image at exactly that block, also when video memory is allocated by the call |
| `Sed1375.Display.ReadStateBytes` | palm_memory.cpp:1241-1257 | Reading delivers the image's bytes, or fails outside it |
| `Sed1375.Display.ImageIsState` | palm_memory.cpp:1194-1209 | The image determines registers, LUT cursor, palette and video memory |
| `Sed1375.ChunksRestore` | palm_memory.cpp:1211-1276 | A saved image written back in any consecutive chunks restores the image |
| `Ads.SpiMaster.CompleteSpiExchange` | palm_hw.cpp:812-887 | A word transfer of 1 to 16 bits leaves the digitizer where the bit-serial automaton ends, returns its output bits and clears the others; bit counters agree and stay below 8 |
| `Ads.SpiMaster.LoadState` | palm_hw.cpp:1095-1101 | A loaded pair of bit counters meets the invariant exactly when both are at most 0 or both are the same number from 1 to 7; every transfer's mask shift is in range exactly when their clamped difference is from 0 to 16 |
| `Ads.SpiMaster.Exchange` | palm_hw.cpp:828-874 | Each turn of the loop is one clock of the automaton on the bit under the mask |
| `Ads.SplitIndependence` | palm_hw.cpp:812-874 | However a bit stream is cut into transfers, output, decoded commands and final state are the same |
| `Ads.RunJoin` | palm_hw.cpp:828-874 | Running a stream in two parts is running it at once |
| `Ads.CommandAnswered` | palm_hw.cpp:839-874 | Any command behind a start bit is decoded as sent, and after one gap clock its conversion comes out, most significant bit first |
| `Timing.ScaleFormsAgree` | palm_hw.cpp:432-439 | The 128-bit and the 64-bit form agree exactly when the remainder product fits in 64 bits |
| `Timing.ScaleIsFloor` | palm_hw.cpp:432-439 | For every scale whose parts multiply below 2^64, in both directions, both forms are the exact quotient cut to 64 bits |
| `Timing.TimerScale` | palm_hw.cpp:450-490 | Every scale the timer uses meets that condition; awake a tick is never shorter than a cycle |
| `Timing.Clocks.UpdateTimer` | palm_hw.cpp:514-571 | A sampling call, awake or asleep, delivers and consumes what the scale says and sets both baselines; a stopped timer or an unset host baseline only restarts them |
| `Timing.Clocks.ApplyTimerTicks` | palm_hw.cpp:492-507 | The counter advances modulo 2^16 or restarts at the compare value, with status and interrupt |
| `Timing.Conservation` | palm_hw.cpp:551-570 | For clock sources 1 and 2, delivered and owed ticks are the whole divisors elapsed for any sampling schedule; nothing is owed exactly when each call counts fewer than 2^32 ticks |
| `Timing.ScheduleIndependence` | palm_hw.cpp:551-570 | Two schedules over the same stretch deliver the same ticks |
| `Timing.ErrorBound` | palm_hw.cpp:551-570 | For every source, the 32 kHz one too, the error is under one cycle per delivering call beside the tick in progress |
| `Timing.Clocks.AdvanceCycles` | palm_hw.cpp:1229-1248 | Awake, as many of the requested cycles are granted as host time allows; asleep all of them, with the pacer restarted |
| `Timing.PacedRun` | palm_hw.cpp:1229-1248 | Over every run with a non-decreasing host clock a pacer that is set keeps its base, never takes cycles back, and grants at most what the host time since that base is worth |
| `Timing.UnsetRun` | palm_hw.cpp:1229-1248 | A pacer that is not set is reset once, by the first call with a host time that is not zero, to the cycles it had; from there the bound holds |
| `Peripherals.Registers.UpdateInterruptStatus` | palm_hw.cpp:349-362 | Status words become pending and not mask, and a level-triggered IRQ1 follows its line |
| `Peripherals.LevelIsMaximum` | palm_hw.cpp:373-389 | The reported level is the highest priority among the raised sources and zero only when none is |
| `Peripherals.Registers.GetInterruptLevel` | palm_hw.cpp:373-389 | The level reported by the register block is that of the sources pending and not masked |
| `Peripherals.Registers.SetCradleButton` | palm_hw.cpp:1196-1209 | The line is followed when level-triggered and latched on assertion when edge-triggered, and nothing else changes |
| `Peripherals.Registers.SetPen` | palm_hw.cpp:1166-1190 | The pen is down or up as told, its source pending exactly while down, and nothing else changes |
| `Peripherals.Registers.SetButtonBits` | palm_hw.cpp:1211-1227 | Key sources are recomputed from the key matrix; columns that went low are latched, asleep those of any new key; pen, line, masks, control and all other sources stay |
| `Peripherals.Registers.Write8` | palm_hw.cpp:1313-1400 | Every register write keeps the interrupt invariant and, outside the pending word, that key sources show keys and edges; masks, control, pending words, edges and registers change as written or as the block concerned asks, bytes are queued, inputs stay; IRQ1 is acknowledged only when edge-triggered and a key edge only where edges are enabled |
| `Peripherals.Registers.Read8` | palm_hw.cpp:1279-1311 | Every register read returns the stored byte, pending and not mask for status, port data from direction, selection, output and pins, or the queue flags, takes one byte off the queue at the data register, and leaves inputs and all other sources |
| `Peripherals.Registers.KeyLines` | palm_hw.cpp:680-704 | Port D's key lines read as the key matrix on input and as written on output |
| `Peripherals.Registers.KeysStay` | palm_hw.cpp:706-728 | Key sources that show the pressed keys and latched edges go on doing so while no register they are made from changes |
| `Peripherals.Registers.PrepareForSleepSnapshot` | palm_hw.cpp:1142-1164 | All inputs are released and their sources withdrawn; the quiet test holds afterwards exactly when no line asks for service at rest |
| `Peripherals.Registers.PortAtRest` | palm_hw.cpp:1142-1164 | With no key down exactly the key lines that are level-triggered on low ask |
| `Peripherals.Registers.LoadState` | palm_hw.cpp:1078-1115 | Any stored register image ends in a state with the invariant, the inputs as given and the pending words recomputed for keys, clock and UART |
| `Peripherals.Registers.UpdateUartRegs` | palm_hw.cpp:896-934 | The UART source is pending exactly under an enabled receive or transmit condition |
| `Peripherals.Registers.UartWriteRx` | palm_hw.cpp:1437-1448 | Host bytes are queued in order as far as they fit and the rest counted as overruns |
| `Peripherals.Registers.LoadUartState` | palm_hw.cpp:1501-1516 | Stored queues of any size and position are rebuilt from the front |
| `Peripherals.Registers.SaveUartState` | palm_hw.cpp:1518-1529 | Heads, tails, counts and overruns returned with the images describe the queues, so that loading them restores the queues |
| `Uart.Ring.Enqueue` | palm_hw.cpp:936-946 | A byte goes to the end of the queue or counts as an overrun; over every run, bytes offered are those delivered, those queued and those lost |
| `Uart.Ring.Dequeue` | palm_hw.cpp:1297-1303 | The oldest byte leaves |
| `Uart.Ring.Write` | palm_hw.cpp:1437-1448 | As many bytes as fit are taken in order, every other one is counted lost |
| `Uart.Ring.Read` | palm_hw.cpp:1450-1461 | The oldest bytes are delivered in order |
| `Uart.Ring.Save` | palm_hw.cpp:1489-1499 | The queue is stored in a straight line from any ring position |
| `Uart.Ring.Load` | palm_hw.cpp:1475-1487 | Loading gives the stored queue, with head and tail rebuilt |
| `Uart.StoredFromFront` | palm_hw.cpp:1475-1499 | A saved image describes the bytes that were queued |
| `M68kShift.Asr` | Musashi-master/m68k_in.c:1954-2110 | For every width and count the result and flags are those of count one-bit steps |
| `M68kShift.Asl` | Musashi-master/m68k_in.c:2191-2302 | The same, with V set exactly when the sign changes at some step |
| `M68kShift.Lsr` | Musashi-master/m68k_in.c:5385-5497 | The same for logical right shifts, counts at and beyond the width included |
| `M68kShift.Lsl` | Musashi-master/m68k_in.c:5570-5680 | The same for logical left shifts |
| `M68kShift.Rol` | Musashi-master/m68k_in.c:8706-8799 | The same for rotates left: the expression with the reduced count equals that many one-bit rotates |
| `M68kShift.Ror` | Musashi-master/m68k_in.c:8552-8630 | The same for rotates right |
| `M68kShift.Rox` | Musashi-master/m68k_in.c:8906-8996 | The same for rotates through extend, in their 9, 17 and 33 bit cycles |
| `M68kShift.FullTurns` | Musashi-master/m68kcpu.h:302-321 | Rotating by any count turns the ring by the count modulo 8, 16, 32 or, through extend, 9, 17, 33 |
| `M68kShift.LeftOverflow` | Musashi-master/m68k_in.c:2191-2302 | Iterated one-bit shifts report overflow exactly when some bit passing the sign position differs from the sign |
| `M68kShift.OverflowMask` | Musashi-master/m68k_in.c:2191-2302 | The masked comparison has its sign set exactly when the sign changes at some step |
| `M68kTables.EntryIsMask` | Musashi-master/m68kcpu.c:111-144 | Each of the 195 entries of the three shift tables is the mask of that many top bits, all of them beyond the width |
| `M68kShift.Registers.Shift` | Musashi-master/m68k_in.c:8906-8996 | A handler changes its register and the flags only |
| `M68kLong.MullPortable` | Musashi-master/m68k_in.c:7632-7694 | The 16-bit partial products give the exact product in both registers and the flags it calls for, signed and unsigned |
| `M68kLong.MullWide` | Musashi-master/m68k_in.c:7584-7624 | The 64-bit form gives the exact product and flags |
| `M68kLong.MultipliedOnce` | Musashi-master/m68k_in.c:7578-7694 | That description has one outcome, so the two forms agree |
| `M68kLong.SecondHalf` | Musashi-master/m68k_in.c:4713-4723 | The second bit loop divides exactly in 32 bits: quotient times divisor plus remainder is the dividend, remainder below the divisor |
| `M68kLong.FirstHalf` | Musashi-master/m68k_in.c:4703-4712 | The first bit loop moves the high word into the remainder |
| `M68kLong.OverflowTest` | Musashi-master/m68k_in.c:4696-4701 | The high word reaches the divisor exactly when the quotient does not fit 32 bits |
| `M68kLong.TruncDivLaw` | Musashi-master/m68k_in.c:4606-4645 | The 64-bit form's quotient leaves a remainder smaller than the divisor with the dividend's sign |
| `M68kLong.DivlPortable` | Musashi-master/m68k_in.c:4656-4790 | The portable form agrees with the 64-bit form, signed and unsigned, exactly unless a signed quad quotient is -2^31 |
| `M68kLong.ExceptionalQuotient` | Musashi-master/m68k_in.c:4676-4790 | Operands of opposite signs with 2^31 times the divisor at most the dividend in magnitude, and less than one divisor more, are exactly the divisions whose quotient is -2^31 |
| `M68kLong.ExceptionalInput` | Musashi-master/m68k_in.c:4676-4790 | -2^31 divided by 1 as a quad word is one of them |
| `M68kChain.ChainLaw` | Musashi-master/m68k_in.c:1674-1689 | n chained memory steps add or subtract n-limb integers (or 2n-digit decimals): the result has n limbs or valid digits below the base to the n, X is set exactly when the sum reaches that or the difference is below zero, Z is kept exactly when the whole result is zero, and nothing else changes |
| `M68kChain.ChainDetermined` | Musashi-master/m68k_in.c:1674-1689 | Memory, registers, X and Z after a chain are the only ones that law allows |
| `M68kChain.Cpu.AddxMm` | Musashi-master/m68k_in.c:1674-1689 | ADDX is one step of the chain, with N and V of the limb, for any two address registers and for the same one twice |
| `M68kChain.Cpu.SubxMm` | Musashi-master/m68k_in.c:10192-10207 | SUBX is one step of the chain, with N and V of the limb, likewise |
| `M68kChain.Cpu.AbcdMm` | Musashi-master/m68k_in.c:1069-1092 | ABCD on valid digits is one decimal step |
| `M68kChain.Cpu.SbcdMm` | Musashi-master/m68k_in.c:9528-9551 | SBCD on valid digits is one decimal step |
| `M68kChain.Addx` | Musashi-master/m68kcpu.h:796-797 | The carry macro's bit 31 is the carry out and the overflow macro signed overflow |
| `M68kChain.Abcd` | Musashi-master/m68k_in.c:1074-1091 | Nibble sums with two corrections give the packed decimal sum and carry |
| `M68kChain.Sbcd` | Musashi-master/m68k_in.c:9533-9550 | Nibble differences that wrap at 32 bits give the packed decimal difference and borrow |
| `M68kMovem.Cpu.MovemRePd` | Musashi-master/m68k_in.c:7117-7135 | Listed registers lie below the old An in ascending order and no other byte changes |
| `M68kMovem.Cpu.MovemErPi` | Musashi-master/m68k_in.c:7234-7251 | Listed registers are loaded in order, An ends past the block whether listed or not |
| `M68kMovem.RoundTrip` | Musashi-master/m68k_in.c:7117-7251 | Pushing and pulling with the reversed mask restores every listed register and An |
| `M68kMovem.SlotsAscend` | Musashi-master/m68k_in.c:7117-7135 | Ascending registers lie at ascending addresses without gaps |
| `M68kException.RunsRestore` | Musashi-master/m68kcpu.h:1627-1646 | In every well-nested run of any depth whose handlers leave open frames alone each RTE restores PC, status register and both stack pointers |
| `M68kException.Cancels` | Musashi-master/m68k_in.c:9283-9305 | An entry and its RTE cancel whatever happened in between, if the frame is intact |
| `M68kException.DecodeEncoded` | Musashi-master/m68kcpu.h:1583-1597 | The status word pushed decodes to the status it was taken from |
| `M68kException.Cpu.SetSFlag` | Musashi-master/m68kcpu.h:1543-1551 | Changing mode exchanges the active and the inactive stack pointer |
| `M68kException.Cpu.ExceptionTrap` | Musashi-master/m68kcpu.h:1893-1901 | A trap builds the three-word frame on the supervisor stack and goes to its vector |
| `M68kException.Cpu.ExceptionInterrupt` | Musashi-master/m68kcpu.h:2107-2176 | An interrupt raises the mask to its level, falls back to the uninitialised vector, and withdraws the request; a halted core takes none |
| `M68kException.Cpu.CheckInterrupts` | Musashi-master/m68kcpu.h:2180-2189 | NMI apart, an interrupt is taken only above the mask |
| `M68kException.Cpu.SetIrq` | Musashi-master/m68kcpu.c:1079-1090 | Only a step from a lower level to 7 requests an NMI |
| `M68kException.Cpu.SetVirq` | Musashi-master/m68kcpu.c:1092-1107 | The highest active line is requested |
| `M68kException.Cpu.Rte` | Musashi-master/m68k_in.c:9283-9305 | RTE restores the frame and at once takes what the restored mask lets through; in user mode it is a privilege violation at its own address |
| `M68kExecute.Timeslice.Execute` | Musashi-master/m68kcpu.c:979-1047 | Reset cycles come first; a pending interrupt the mask lets through is taken; a sleeping or halted core uses nothing; any other takes turns until the first one that leaves nothing of the pool, at most a sixth of it further, and the cycles used are reported |
| `M68kExecute.Timeslice.Turn` | Musashi-master/m68kcpu.c:1017-1029 | One turn fetches at PC, decodes, runs the handler and charges the opcode; flow, exceptions, status and cycles follow from registers, flags and memory, while memory operands, jump targets and data results are supplied; STOP in supervisor mode and a branch to itself use the pool up, everything else takes at least six cycles |
| `M68kExecute.TurnCost` | Musashi-master/m68kcpu.c:817-833 | Whatever opcode is met in whatever state, a turn takes at least eight cycles but for branches not taken and DBcc not expired, which take six, or leaves nothing in the pool |
| `M68kExecute.Timeslice.DecrementAndBranch` | Musashi-master/m68k_in.c:4412-4455 | DBcc counts the low word down, keeps the high word, and branches unless the condition holds or the count passes zero |
| `M68kExecute.Timeslice.StopInstruction` | Musashi-master/m68k_in.c:9596-9610 | STOP fetches and decodes its status word, sets it, takes what the new mask lets in, and leaves one instruction of the pool at most |
| `M68kExecute.Timeslice.MultiplyCycles` | Musashi-master/m68k_in.c:7478-7575 | MULU pays for the one bits of its operand and MULS for its bit changes |
| `M68kExecute.Timeslice.MovemCycles` | Musashi-master/m68k_in.c:7117-7135 | MOVEM pays for each register in its list, four cycles a word and eight a long |
| `M68kTurns.ComparedBranch` | Musashi-master/m68k_in.c:2321-2345 | After a comparison of any operand size a conditional branch is taken exactly when the unsigned or signed relation it is named for holds, to its displacement past the opcode, else to the next instruction |
| `M68kTurns.ConditionsOrder` | Musashi-master/m68kcpu.h:844-857 | On the flags the compare macros leave, each condition is the order between destination and source it is named for |
| `M68kTurns.CountedLoop` | Musashi-master/m68k_in.c:4412-4455 | However long the body of a loop is, its DBcc branches back at the first k meetings, k the low word it starts with, and goes on at the next with the count 0xffff and the high word as it was |
| `M68kTurns.DelayLoop` | Musashi-master/m68k_in.c:4412-4455 | A DBcc to itself with low word k ends after exactly k + 1 turns and 6k + 10 cycles, behind its displacement, with nothing but the count changed |
| `M68kTurns.WaitingLoop` | Musashi-master/m68k_in.c:3184-3201 | One turn of a branch to itself is all its turns at once: same machine, and the pool that plain turns leave, less eight cycles when the pool was whole instructions |
| `M68kTurns.ExceptionResumes` | Musashi-master/m68kcpu.h:1877-2060 | Every exception an instruction raises, answered by an RTE on an intact frame, resumes behind the instruction, or at it if it was refused, with status and both stack pointers as they were |
| `M68kTurns.InterruptResumes` | Musashi-master/m68kcpu.h:2107-2189 | An interrupt, answered the same way, resumes what it came upon |
| `M68kTurns.ChkReports` | Musashi-master/m68k_in.c:3528-3566 | CHK traps exactly when the signed word is below zero or above the bound; the status its handler returns to has N set exactly when it was below zero, and PC behind the instruction |
| `M68kTurns.StopResumes` | Musashi-master/m68k_in.c:9596-9610 | STOP sleeps with the status it loads; an interrupt above the new mask wakes the core, and its RTE leaves it behind the STOP with that status |

## Left out

- Debug counters, trace output, the brightness trace and generation counters: they carry no behaviour the model uses.
- ESP32 services: allocation, clocks and host time are parameters; `size_t` is 32 bits wide as on the target.
- Instruction fetch through `palm_read_instr_16`: the same resolver without device windows.
- GuestStore.LongReadsExactly: the image is taken to end before the register block; the answer where RAM lies behind ROM is left between two, since it depends on where segments end.
- PalmMemory.PalmMemory.PalmRead8: the cached class is stated for cacheable images, and for RAM of whole pages, as every size the build can configure is; other images show through the cache (`PalmMemory.LastPageAsks`).
- Displayed pixels, touch hosts, snapshots on SD cards and the .NET tools: user interface and data.
- Peripherals.Registers.Write8: the port outputs' display effect and the mask on the LCD start address are not modelled, and the digitizer's reply, the timer's compare hit and the calendar are supplied by the caller.
- Peripherals.Registers.LoadState: the register image is modelled as words and bytes, the digitizer and timer fields of a snapshot are not.
- Calendar arithmetic of the RTC and the alarm comparison: straight-line code whose outcome is a parameter.
- Timing.Clocks.AdvanceCycles: the pacing law is stated for requests and limits below 2^64; beyond, only wrap-around is modelled.
- Trigger latency between the two clocks of the timer while it changes from awake to asleep.
- Shifts by immediate count and on memory operands: the same expressions with a smaller count.
- M68kChain.Cpu.AbcdMm: N and V after decimal instructions are undefined on the 68000 and not stated; invalid digits are left open.
- M68kChain.ChainLaw: operands that overlap so that a source limb is overwritten before it is read, that wrap past address zero, or that go through one register are excluded; single steps are not limited so.
- M68kChain.Cpu.SbcdMm: the forms through A7, which step by two, are left out, as for ABCD.
- M68kLong.DivlWide: the dividend -2^63 by -1, undefined in C, counts as overflow.
- Addressing modes other than those named, bit fields, CAS, MOVES, the FPU and the MMU.
- Stack frames of later processors, trace and prefetch emulation: disabled in the build.
- M68kException.RunsRestore: frames wrapping past address zero are excluded; a single entry and its RTE (`M68kException.Cancels`) are not limited so.
- M68kExecute.Timeslice.Turn: results of data instructions, operands and targets that addressing modes with memory yield, with the state those modes leave, and whether an opcode outside the modelled list is assigned come from outside; edits of the timeslice from outside, address errors and unlisted branch forms of later processors are excluded.
