/** Exception entry, interrupts and RTE of the 68000 core, with its lazy flags, two stack
    pointers and three-word frames. */
module M68kException {
  import opened AddressMap
  import opened Arith
  import opened M68kMemory

  // ----------------------------------------------------------------- the status register

  datatype Ccr = Ccr(x: bool, n: bool, z: bool, v: bool, c: bool)

  /** The architectural status register. */
  datatype Status = Status(t: bool, s: bool, level: nat, ccr: Ccr)

  predicate Proper(st: Status) { st.level < 8 }

  function Bit(b: bool, w: nat): nat { if b then w else 0 }

  /** m68ki_get_ccr and m68ki_get_sr on the architectural bits. */
  function EncodeCcr(f: Ccr): (w: nat)
    ensures w < 0x20
  {
    Bit(f.x, 0x10) + Bit(f.n, 8) + Bit(f.z, 4) + Bit(f.v, 2) + Bit(f.c, 1)
  }

  function Encode(st: Status): (w: nat)
    requires Proper(st)
    ensures w < TWO16
  {
    Bit(st.t, 0x8000) + Bit(st.s, 0x2000) + st.level * 0x100 + EncodeCcr(st.ccr)
  }

  /** w without its bit p, which has to be the highest it may have. */
  function Without(w: nat, p: nat): nat { if w >= p then w - p else w }

  /** The interrupt mask in the three bits below 0x800. */
  function MaskLevel(w: nat): (level: nat)
    ensures level < 8
  {
    var w9 := Without(w, 0x400);
    Bit(w >= 0x400, 4) + Bit(w9 >= 0x200, 2) + Bit(Without(w9, 0x200) >= 0x100, 1)
  }

  function DecodeCcr(w: nat): Ccr {
    var w3 := Without(w, 0x10);
    var w2 := Without(w3, 8);
    var w1 := Without(w2, 4);
    Ccr(w >= 0x10, w3 >= 8, w2 >= 4, w1 >= 2, Without(w1, 2) >= 1)
  }

  /** A word as a status register; the bits the 68000 does not have are lost. */
  function Decode(w: nat): (st: Status)
    requires w < TWO16
    ensures Proper(st)
  {
    var w13 := Without(Without(w, 0x8000), 0x4000);
    var w10 := Without(Without(Without(w13, 0x2000), 0x1000), 0x800);
    var w7 := Without(Without(Without(w10, 0x400), 0x200), 0x100);
    Status(w >= 0x8000, w13 >= 0x2000, MaskLevel(w10), DecodeCcr(Without(Without(Without(w7, 0x80), 0x40), 0x20)))
  }

  lemma CcrDecoded(f: Ccr)
    ensures DecodeCcr(EncodeCcr(f)) == f
  {
    assert Without(EncodeCcr(f), 0x10) == EncodeCcr(f) - Bit(f.x, 0x10);
  }

  lemma HighBits(t: bool, s: bool, rest: nat)
    requires rest < 0x800
    ensures var w := Bit(t, 0x8000) + Bit(s, 0x2000) + rest;
            var w13 := Without(Without(w, 0x8000), 0x4000);
            && (w >= 0x8000 <==> t) && (w13 >= 0x2000 <==> s)
            && Without(Without(Without(w13, 0x2000), 0x1000), 0x800) == rest
  {}

  lemma MaskEncoded(level: nat, low: nat)
    requires level < 8 && low < 0x20
    ensures var w := level * 0x100 + low;
            && MaskLevel(w) == level && Without(Without(Without(w, 0x400), 0x200), 0x100) == low
            && Without(Without(Without(low, 0x80), 0x40), 0x20) == low && w < 0x800
  {}

  lemma PartsDecoded(w: nat, t: bool, s: bool, level: nat, low: nat)
    requires level < 8 && low < 0x20 && w == Bit(t, 0x8000) + Bit(s, 0x2000) + level * 0x100 + low
    ensures w < TWO16 && Decode(w) == Status(t, s, level, DecodeCcr(low))
  {
    HighBits(t, s, level * 0x100 + low);
    MaskEncoded(level, low);
  }

  /** The status word pushed decodes to the status it was taken from. */
  lemma DecodeEncoded(st: Status)
    requires Proper(st)
    ensures Decode(Encode(st)) == st
  {
    CcrDecoded(st.ccr);
    PartsDecoded(Encode(st), st.t, st.s, st.level, EncodeCcr(st.ccr));
  }

  // ------------------------------------------------------------------- the abstract core

  /** Memory, program counter, status, the stack pointer in use and the one set aside. */
  datatype Core = Core(mem: Memory, pc: uint32, st: Status, a7: uint32, aside: uint32)

  /** The supervisor stack pointer, in use or not. */
  function Ssp(c: Core): uint32 { if c.st.s then c.a7 else c.aside }
  function Usp(c: Core): uint32 { if c.st.s then c.aside else c.a7 }

  function Down(a: uint32, n: nat): uint32
    requires n < TWO32
  {
    At(a - n)
  }

  /** m68ki_stack_frame_3word: the program counter, then the status word. */
  function Framed(m: Memory, sp: uint32, pc: uint32, w: nat): Memory
    requires w < TWO16
  {
    Write16(Write32(m, Down(sp, 4), pc), Down(Down(sp, 4), 2), w)
  }

  /** Three words on the supervisor stack, supervisor mode, no trace, and on to the handler. */
  function Entered(c: Core, level: nat, handler: uint32): (d: Core)
    requires Proper(c.st) && level < 8
    ensures Proper(d.st) && d.st.s
  {
    Core(Framed(c.mem, Ssp(c), c.pc, Encode(c.st)), handler, c.st.(t := false, s := true, level := level),
         Down(Down(Ssp(c), 4), 2), Usp(c))
  }

  /** RTE without a pending interrupt. */
  function Returned(c: Core): (d: Core)
    ensures Proper(d.st)
  {
    var st := Decode(Read16(c.mem, c.a7));
    var sp := Up(Up(c.a7, 2), 4);
    Core(c.mem, Read32(c.mem, Up(c.a7, 2)), st, if st.s then sp else c.aside, if st.s then c.aside else sp)
  }

  predicate Intact(m: Memory, n: Memory, frame: uint32) {
    forall j :: 0 <= j < 6 ==> m[Up(frame, j)] == n[Up(frame, j)]
  }

  lemma FrameRead(m: Memory, n: Memory, frame: uint32)
    requires Intact(m, n, frame)
    ensures Read16(n, frame) == Read16(m, frame) && Read32(n, Up(frame, 2)) == Read32(m, Up(frame, 2))
  {
    assert Up(frame, 0) == frame;
    forall j | 0 <= j < 4 ensures m[Up(Up(frame, 2), j)] == n[Up(Up(frame, 2), j)] {
      assert Up(Up(frame, 2), j) == Up(frame, 2 + j);
    }
    assert Up(Up(frame, 2), 0) == Up(frame, 2);
    assert m[Up(frame, 1)] == n[Up(frame, 1)];
    ReadSame32(m, n, Up(frame, 2));
  }

  /** The words of a frame at f, the program counter at a, below sp: they do not overlap. */
  predicate Placed(sp: uint32, a: uint32, f: uint32) {
    && Up(f, 2) == a && Up(Up(f, 2), 4) == sp
    && f !in {a, Up(a, 1), Up(a, 2), Up(a, 3)} && Up(f, 1) !in {a, Up(a, 1), Up(a, 2), Up(a, 3)}
    && At(a - f) == 2 && At(Up(a, 1) - f) == 3 && At(Up(a, 2) - f) == 4 && At(Up(a, 3) - f) == 5
    && At(Up(f, 1) - f) == 1
  }

  lemma FramePlaces(sp: uint32)
    ensures Placed(sp, Down(sp, 4), Down(Down(sp, 4), 2))
  {}

  lemma FrameWritten(m: Memory, sp: uint32, a: uint32, f: uint32, pc: uint32, w: nat)
    requires w < TWO16 && Placed(sp, a, f)
    ensures var n := Write16(Write32(m, a, pc), f, w);
            && Read16(n, f) == w && Read32(n, Up(f, 2)) == pc && Up(Up(f, 2), 4) == sp
            && forall b: uint32 :: At(b - f) >= 6 ==> n[b] == m[b]
  {
    var k := Write32(m, a, pc);
    var n := Write16(k, f, w);
    ReadSame32(n, k, a);
    forall b: uint32 | At(b - f) >= 6 ensures n[b] == m[b] {
      assert At(f - f) == 0;
      assert b != f && b != Up(f, 1) && b != a && b != Up(a, 1) && b != Up(a, 2) && b != Up(a, 3);
    }
  }

  /** What a frame holds, and what it leaves alone. */
  lemma FrameHolds(m: Memory, sp: uint32, pc: uint32, w: nat)
    requires w < TWO16
    ensures var n, f := Framed(m, sp, pc, w), Down(Down(sp, 4), 2);
            && Read16(n, f) == w && Read32(n, Up(f, 2)) == pc && Up(Up(f, 2), 4) == sp
            && forall b: uint32 :: At(b - f) >= 6 ==> n[b] == m[b]
  {
    FramePlaces(sp);
    FrameWritten(m, sp, Down(sp, 4), Down(Down(sp, 4), 2), pc, w);
  }

  /** An entry and the RTE that answers it cancel, whatever the handler did in between, if it
      ends in supervisor mode on its own frame with that frame and the user stack pointer as
      they were. */
  lemma Cancels(c: Core, level: nat, handler: uint32, e: Core)
    requires Proper(c.st) && level < 8
    requires var d := Entered(c, level, handler);
             e.a7 == d.a7 && e.aside == d.aside && Intact(d.mem, e.mem, d.a7)
    ensures Returned(e) == Core(e.mem, c.pc, c.st, c.a7, c.aside)
  {
    var d := Entered(c, level, handler);
    FrameHolds(c.mem, Ssp(c), c.pc, Encode(c.st));
    FrameRead(d.mem, e.mem, d.a7);
    DecodeEncoded(c.st);
  }

  // ---------------------------------------------------------------------- nested runs

  /** What happens from some point on: steps of handlers and programs, and exceptions with the
      run of their handler up to its RTE. */
  datatype Run = Done | Work(to: Core, rest: Run) | Handle(level: nat, handler: uint32, body: Run, rest: Run)

  /** Where a run leads. */
  function End(c: Core, run: Run): (d: Core)
    requires Proper(c.st) && Wellformed(run)
    ensures Proper(d.st)
    decreases run
  {
    match run
    case Done => c
    case Work(to, rest) => End(to, rest)
    case Handle(level, handler, body, rest) => End(Returned(End(Entered(c, level, handler), body)), rest)
  }

  predicate Wellformed(run: Run) {
    match run
    case Done => true
    case Work(to, rest) => Proper(to.st) && Wellformed(rest)
    case Handle(level, _, body, rest) => level < 8 && Wellformed(body) && Wellformed(rest)
  }

  /** The bytes from the given address up, where the frames still open lie, are left alone and
      the supervisor stack stays below them. */
  predicate Respects(c: Core, to: Core, floor: nat) {
    6 <= Ssp(to) <= floor && forall b: uint32 :: floor <= b ==> to.mem[b] == c.mem[b]
  }

  /** A legal run above open frames from floor up: each step respects them and keeps room for a
      frame; each handler ends in supervisor mode on its own frame, with the user stack pointer
      as it found it. */
  predicate Legal(c: Core, run: Run, floor: nat)
    requires Proper(c.st) && Wellformed(run)
    decreases run
  {
    6 <= Ssp(c) <= floor
    && match run
       case Done => true
       case Work(to, rest) => Respects(c, to, floor) && Legal(to, rest, floor)
       case Handle(level, handler, body, rest) =>
         var d := Entered(c, level, handler);
         var e := End(d, body);
         && Legal(d, body, d.a7) && e.st.s && e.a7 == d.a7 && e.aside == d.aside
         && Legal(Returned(e), rest, floor)
  }

  /** Every exception of the run, at any depth, is undone by its RTE: program counter, status
      register and both stack pointers are back. */
  predicate Restored(c: Core, run: Run)
    requires Proper(c.st) && Wellformed(run)
    decreases run
  {
    match run
    case Done => true
    case Work(to, rest) => Restored(to, rest)
    case Handle(level, handler, body, rest) =>
      var d := Entered(c, level, handler);
      var r := Returned(End(d, body));
      (r.pc, r.st, r.a7, r.aside) == (c.pc, c.st, c.a7, c.aside) && Restored(d, body) && Restored(r, rest)
  }

  /** An undisturbed frame, and what lies above it. */
  lemma FrameKept(c: Core, level: nat, handler: uint32, m: Memory)
    requires Proper(c.st) && level < 8 && 12 <= Ssp(c)
    requires var d := Entered(c, level, handler); forall b: uint32 :: d.a7 <= b ==> m[b] == d.mem[b]
    ensures var d := Entered(c, level, handler);
            d.a7 == Ssp(c) - 6 && Intact(d.mem, m, d.a7) && forall b: uint32 :: Ssp(c) <= b ==> m[b] == c.mem[b]
  {
    var d := Entered(c, level, handler);
    assert d.a7 == Ssp(c) - 6;
    assert forall j :: 0 <= j < 6 ==> Up(d.a7, j) == d.a7 + j;
    FrameHolds(c.mem, Ssp(c), c.pc, Encode(c.st));
    forall b: uint32 | Ssp(c) <= b ensures m[b] == c.mem[b] {
      assert d.a7 <= b && At(b - d.a7) == b - Ssp(c) + 6;
    }
  }

  /** Over every legal run, of any length and depth: each exception is restored, nothing from
      the open frames up has changed, and the supervisor stack is still below them. */
  lemma {:induction false} RunsRestore(c: Core, run: Run, floor: nat)
    requires Proper(c.st) && Wellformed(run) && Legal(c, run, floor)
    ensures Restored(c, run)
    ensures forall b: uint32 :: floor <= b ==> End(c, run).mem[b] == c.mem[b]
    ensures 6 <= Ssp(End(c, run)) <= floor
    decreases run
  {
    match run
    case Done =>
    case Work(to, rest) =>
      RunsRestore(to, rest, floor);
    case Handle(level, handler, body, rest) =>
      var d := Entered(c, level, handler);
      RunsRestore(d, body, d.a7);
      var e := End(d, body);
      FrameKept(c, level, handler, e.mem);
      Cancels(c, level, handler, e);
      RunsRestore(Returned(e), rest, floor);
  }

  // ---------------------------------------------------------------------- the source

  const AUTOVECTOR := 24
  const UNINITIALIZED := 15
  const PRIVILEGE_VIOLATION := 8

  class Cpu {
    var mem: Memory
    var pc: uint32
    var ppc: uint32                  // REG_PPC, where the instruction being executed starts
    var a7: uint32
    var spUser: uint32               // REG_SP_BASE[0]
    var spInterrupt: uint32          // REG_SP_BASE[4]
    var t1: bool
    var s: bool                      // FLAG_S == SFLAG_SET; FLAG_M stays clear on a 68000
    var intMask: nat                 // FLAG_INT_MASK >> 8
    var flagX: nat                   // lazy flags: X and C in bit 8, N and V in bit 7, Z inverted
    var flagN: nat
    var flagZ: nat
    var flagV: nat
    var flagC: nat
    var intLevel: nat                // CPU_INT_LEVEL >> 8
    var nmiPending: bool
    var stopped: bool                // the two bits of CPU_STOPPED
    var halted: bool
    var virq: seq<bool>              // virq_state

    ghost predicate Valid()
      reads this
    {
      intMask < 8 && intLevel < 8 && |virq| == 8
    }

    function Flags(): Ccr
      reads this`flagX, this`flagN, this`flagZ, this`flagV, this`flagC
    {
      Ccr(flagX / 0x100 % 2 == 1, flagN / 0x80 % 2 == 1, flagZ == 0, flagV / 0x80 % 2 == 1, flagC / 0x100 % 2 == 1)
    }

    ghost function Now(): Core
      reads this`mem, this`pc, this`t1, this`s, this`intMask, this`a7, this`spUser, this`spInterrupt
      reads this`flagX, this`flagN, this`flagZ, this`flagV, this`flagC
    {
      Core(mem, pc, Status(t1, s, intMask, Flags()), a7, if s then spUser else spInterrupt)
    }

    constructor (memory: Memory)
      ensures Valid()
    {
      mem, pc, ppc, a7, spUser, spInterrupt, t1, s, intMask := memory, 0, 0, 0, 0, 0, false, true, 7;
      flagX, flagN, flagZ, flagV, flagC := 0, 0, 1, 0, 0;
      intLevel, nmiPending, stopped, halted := 0, false, false, false;
      virq := seq(8, _ => false);
    }

    function GetSr(): (w: nat)
      requires Valid()
      reads this
      ensures w < TWO16
    {
      Bit(t1, 0x8000) + Bit(s, 0x2000) + intMask * 0x100 + EncodeCcr(Flags())
    }

    /** m68ki_set_s_flag. */
    method SetSFlag(value: bool)
      modifies this`spUser, this`spInterrupt, this`a7, this`s
      ensures s == value && Now() == old(Now()).(st := old(Now()).st.(s := value),
                                               a7 := if value then Ssp(old(Now())) else Usp(old(Now())),
                                               aside := if value then Usp(old(Now())) else Ssp(old(Now())))
    {
      if s { spInterrupt := a7; } else { spUser := a7; }
      s := value;
      a7 := if s then spInterrupt else spUser;
    }

    method Push16(value: nat)
      requires value < TWO16
      modifies this`a7, this`mem
      ensures a7 == Down(old(a7), 2) && mem == Write16(old(mem), a7, value)
    {
      a7 := Down(a7, 2);
      mem := Write16(mem, a7, value);
    }

    method Push32(value: uint32)
      modifies this`a7, this`mem
      ensures a7 == Down(old(a7), 4) && mem == Write32(old(mem), a7, value)
    {
      a7 := Down(a7, 4);
      mem := Write32(mem, a7, value);
    }

    method Pull16() returns (value: nat)
      modifies this`a7
      ensures a7 == Up(old(a7), 2) && value == Read16(mem, old(a7)) < TWO16
    {
      a7 := Up(a7, 2);
      value := Read16(mem, Down(a7, 2));
    }

    method Pull32() returns (value: uint32)
      modifies this`a7
      ensures a7 == Up(old(a7), 4) && value == Read32(mem, old(a7))
    {
      a7 := Up(a7, 4);
      value := Read32(mem, Down(a7, 4));
    }

    /** m68ki_set_ccr. */
    method SetCcr(f: Ccr)
      modifies this`flagX, this`flagN, this`flagZ, this`flagV, this`flagC
      ensures Flags() == f
    {
      flagX, flagN, flagZ := Bit(f.x, 0x100), Bit(f.n, 0x80), Bit(!f.z, 1);
      flagV, flagC := Bit(f.v, 0x80), Bit(f.c, 0x100);
    }

    method InitException() returns (sr: nat)
      requires Valid()
      modifies this`t1, this`spUser, this`spInterrupt, this`a7, this`s
      ensures Valid() && sr == Encode(old(Now()).st) < TWO16 && s
      ensures Now() == old(Now()).(st := old(Now()).st.(t := false, s := true), a7 := Ssp(old(Now())),
                                   aside := Usp(old(Now())))
    {
      sr := GetSr();
      t1 := false;
      SetSFlag(true);
    }

    method StackFrame(ret: uint32, sr: nat)
      requires sr < TWO16
      modifies this`a7, this`mem
      ensures mem == Framed(old(mem), old(a7), ret, sr) && a7 == Down(Down(old(a7), 4), 2)
    {
      Push32(ret);
      Push16(sr);
    }

    /** Exception entry up to the jump: a frame with the given return address. */
    method Enter(ret: uint32)
      requires Valid()
      modifies this`t1, this`spUser, this`spInterrupt, this`a7, this`s, this`mem
      ensures Valid()
      ensures Now() == Entered(old(Now()).(pc := ret), old(intMask), pc)
    {
      var sr := InitException();
      StackFrame(ret, sr);
    }

    /** A trap: the mask stays. */
    method ExceptionTrap(vector: nat)
      requires Valid() && vector < 256
      modifies this
      ensures Valid()
      ensures var c := old(Now());
              var d := Entered(c, c.st.level, 0);
              Now() == d.(pc := Read32(d.mem, 4 * vector))
      ensures unchanged(`intLevel, `nmiPending, `stopped, `halted)
    {
      Enter(pc);
      pc := Read32(mem, 4 * vector);
    }

    /** A privilege violation returns to the instruction that caused it. */
    method PrivilegeViolation()
      requires Valid()
      modifies this
      ensures Valid()
      ensures var c := old(Now()).(pc := old(ppc));
              var d := Entered(c, c.st.level, 0);
              Now() == d.(pc := Read32(d.mem, 4 * PRIVILEGE_VIOLATION))
      ensures unchanged(`intLevel, `nmiPending, `stopped, `halted)
    {
      Enter(ppc);
      pc := Read32(mem, 4 * PRIVILEGE_VIOLATION);
    }

    /** The handler an autovectored interrupt goes to: the uninitialised-interrupt vector when
        its own is zero. */
    static function Autovector(m: Memory, level: nat): uint32
      requires level < 8
    {
      var own := Read32(m, 4 * (AUTOVECTOR + level));
      if own == 0 then Read32(m, 4 * UNINITIALIZED) else own
    }

    /** A halted core takes nothing; otherwise the mask rises to the level served and the
        request is withdrawn. */
    method ExceptionInterrupt(level: nat)
      requires Valid() && level < 8
      modifies this`stopped, this`intLevel, this`t1, this`spUser, this`spInterrupt, this`a7, this`s, this`intMask,
               this`mem, this`pc
      ensures Valid() && !stopped
      ensures halted ==> Now() == old(Now()) && intLevel == old(intLevel)
      ensures !halted ==> Now() == Entered(old(Now()), level, Autovector(old(mem), level)) && intLevel == 0
    {
      stopped := false;
      if halted { return; }
      Service(level);
    }

    /** The frame, the mask, the jump, and the request withdrawn. */
    method Service(level: nat)
      requires Valid() && level < 8
      modifies this`intLevel, this`t1, this`spUser, this`spInterrupt, this`a7, this`s, this`intMask, this`mem, this`pc
      ensures Valid() && intLevel == 0 && Now() == Entered(old(Now()), level, Autovector(old(mem), level))
    {
      var newPc := Autovector(mem, level);
      Enter(pc);
      intMask := level;
      pc := newPc;
      intLevel := 0;
    }

    /** An NMI is taken at once; any other level only when it is above the mask. */
    method CheckInterrupts()
      requires Valid()
      modifies this`nmiPending, this`stopped, this`intLevel, this`t1, this`spUser, this`spInterrupt, this`a7, this`s,
               this`intMask, this`mem, this`pc
      ensures Valid() && !nmiPending
      ensures var c := old(Now());
              Now() == if halted then c
                       else if old(nmiPending) then Entered(c, 7, Autovector(c.mem, 7))
                       else if old(intLevel) > c.st.level then
                         Entered(c, old(intLevel), Autovector(c.mem, old(intLevel)))
                       else c
    {
      if nmiPending {
        nmiPending := false;
        ExceptionInterrupt(7);
      } else if intLevel > intMask {
        ExceptionInterrupt(intLevel);
      }
    }

    /** m68k_set_irq: only the step to level 7 requests an NMI. */
    method SetIrq(level: nat)
      requires Valid() && level < 8
      modifies this`intLevel, this`nmiPending
      ensures Valid() && intLevel == level
      ensures nmiPending == (old(nmiPending) || (old(intLevel) != 7 && level == 7))
    {
      var oldLevel := intLevel;
      intLevel := level;
      if oldLevel != 7 && level == 7 {
        nmiPending := true;
      }
    }

    /** m68k_set_virq: the request is the highest line active, line 0 apart. */
    method SetVirq(level: nat, active: bool)
      requires Valid() && level < 8
      modifies this`virq, this`intLevel, this`nmiPending
      ensures Valid() && virq == old(virq)[level := active]
      ensures (intLevel > 0 ==> virq[intLevel]) && forall k :: intLevel < k < 8 ==> !virq[k]
      ensures nmiPending == (old(nmiPending) || (old(intLevel) != 7 && virq[7]))
    {
      virq := virq[level := active];
      var blevel := 7;
      while blevel > 0 && !virq[blevel]
        invariant 0 <= blevel <= 7 && forall k :: blevel < k < 8 ==> !virq[k]
      {
        blevel := blevel - 1;
      }
      SetIrq(blevel);
    }

    method SetSrNoInt(value: nat)
      requires Valid() && value < TWO16
      modifies this`t1, this`intMask, this`flagX, this`flagN, this`flagZ, this`flagV, this`flagC,
               this`spUser, this`spInterrupt, this`a7, this`s
      ensures Valid()
      ensures var c, st := old(Now()), Decode(value);
              Now() == c.(st := st, a7 := if st.s then Ssp(c) else Usp(c), aside := if st.s then Usp(c) else Ssp(c))
    {
      var st := Decode(value);
      t1, intMask := st.t, st.level;
      SetCcr(st.ccr);
      SetSFlag(st.s);
    }

    /** The frame pulled into the status register and program counter. */
    method Unstack()
      requires Valid() && s
      modifies this`a7, this`pc, this`t1, this`intMask, this`flagX, this`flagN, this`flagZ, this`flagV, this`flagC,
               this`spUser, this`spInterrupt, this`s
      ensures Valid() && Now() == Returned(old(Now()))
    {
      ghost var c := Now();
      var newSr := Pull16();
      pc := Pull32();
      ghost var d := Now();
      assert d == c.(pc := pc, a7 := Up(Up(c.a7, 2), 4)) && newSr == Read16(c.mem, c.a7);
      SetSrNoInt(newSr);
      assert Ssp(d) == Up(Up(c.a7, 2), 4) && Usp(d) == c.aside;
    }

    /** RTE: in supervisor mode status and program counter from the frame, then the interrupts
        the restored mask lets through; in user mode a privilege violation. */
    method Rte()
      requires Valid()
      modifies this
      ensures Valid() && halted == old(halted)
      ensures old(s) ==>
                var r := Returned(old(Now()));
                Now() == if old(halted) then r
                         else if old(nmiPending) then Entered(r, 7, Autovector(r.mem, 7))
                         else if old(intLevel) > r.st.level then
                           Entered(r, old(intLevel), Autovector(r.mem, old(intLevel)))
                         else r
      ensures !old(s) ==>
                var c := old(Now()).(pc := old(ppc));
                var d := Entered(c, c.st.level, 0);
                Now() == d.(pc := Read32(d.mem, 4 * PRIVILEGE_VIOLATION))
                && intLevel == old(intLevel) && nmiPending == old(nmiPending)
    {
      if s {
        Unstack();
        CheckInterrupts();
      } else {
        PrivilegeViolation();
      }
    }
  }
}
