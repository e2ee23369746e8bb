/** Laws of the 68000's loop over whole turns: loops counted by DBcc, waiting loops, branches on
    comparisons, and exceptions, interrupts and STOP up to the RTE that answers them. */
module M68kTurns {
  import opened AddressMap
  import opened Arith
  import opened M68kMemory
  import opened M68kException
  import opened M68kExecute

  /** The machine before turn j, and one turn of it. */
  lemma NextTurns(m: Machine, world: nat -> World, j: nat)
    requires Sane(Turns(m, world, j)) && Usable(world(j))
    ensures Turns(m, world, j + 1) == Turned(Turns(m, world, j), world(j))
  {
    var _ := Turned(Turns(m, world, j), world(j));
  }

  lemma NextPool(pool: int, m: Machine, world: nat -> World, j: nat)
    requires Sane(Turns(m, world, j)) && Usable(world(j))
    ensures PoolAfter(pool, m, world, j + 1)
            == Charged(PoolAfter(pool, m, world, j), Turns(m, world, j), world(j))
  {
    var _ := Charged(PoolAfter(pool, m, world, j), Turns(m, world, j), world(j));
  }

  // ------------------------------------------------------------------ counted loops

  /** DBcc on register r at the given address, leading to a target, on a condition that fails. */
  ghost predicate AtDbcc(m: Machine, a: uint32, cc: nat, r: nat, target: uint32) {
    && 1 <= cc < 16 && r < 8 && Sane(m) && m.core.pc == a
    && Read16(m.core.mem, a) == 0x50c8 + 0x100 * cc + r
    && At(Up(a, 2) + Int16(Read16(m.core.mem, Up(a, 2)))) == target
    && !Condition(cc, m.core.st.ccr)
  }

  lemma DbccDecoded(cc: nat, r: nat)
    requires 1 <= cc < 16 && r < 8
    ensures DecodeOp(0x50c8 + 0x100 * cc + r) == Dbcc(cc, r)
  {
    var ir := 0x50c8 + 0x100 * cc + r;
    assert ir / 0x1000 == 5 && ir / 0x100 == 0x50 + cc && ir % 0x40 == 8 + r;
    assert ir / 0x40 == 4 * (0x50 + cc) + 3;
  }

  /** Back to the target with the count less one, or on with the count passed. */
  function Counted(m: Machine, r: nat, target: uint32): (n: Machine)
    requires Sane(m) && r < 8
    ensures Sane(n)
  {
    var pc := if LowWord(m.d[r]) == 0 then Up(m.core.pc, 4) else target;
    m.(ppc := m.core.pc, core := m.core.(pc := pc), d := m.d[r := Decremented(m.d[r])])
  }

  lemma DbccTurn(pool: int, m: Machine, w: World, a: uint32, cc: nat, r: nat, target: uint32)
    requires AtDbcc(m, a, cc, r, target) && Usable(w)
    ensures Turned(m, w) == Counted(m, r, target)
    ensures Charged(pool, m, w) == pool - if LowWord(m.d[r]) == 0 then 10 else 6
  {
    DbccDecoded(cc, r);
    assert Up(Up(a, 2), 2) == Up(a, 4);
  }

  lemma CountDown(x: uint32)
    ensures LowWord(x) > 0 ==> LowWord(Decremented(x)) == LowWord(x) - 1
    ensures LowWord(x) == 0 ==> LowWord(Decremented(x)) == 0xffff
    ensures Decremented(x) - LowWord(Decremented(x)) == x - LowWord(x)
  {}

  ghost predicate KeepsCount(m: Machine, world: nat -> World, r: nat, from: nat, to: nat)
    requires r < 8
  {
    var f, t := Turns(m, world, from), Turns(m, world, to);
    Sane(f) && Sane(t) && f.d[r] == t.d[r]
  }

  /** The turns at which a loop meets its DBcc, its body leaving the count alone in between. */
  ghost predicate Meetings(m: Machine, world: nat -> World, a: uint32, cc: nat, r: nat, target: uint32, at: seq<nat>)
    requires r < 8
  {
    && (forall i :: 0 <= i < |at| ==> AtDbcc(Turns(m, world, at[i]), a, cc, r, target))
    && (forall i, k :: 0 <= i < k < |at| && k == i + 1 ==> KeepsCount(m, world, r, at[i] + 1, at[k]))
  }

  /** However long and whatever the body of a loop is, its DBcc branches back at the first k
      meetings, where k is the low word it starts with, and goes on at the next one: the count is
      then 0xffff, and the high word is as it was. */
  lemma {:induction false} CountedLoop(m: Machine, world: nat -> World, a: uint32, cc: nat, r: nat, target: uint32,
                                       at: seq<nat>, i: nat)
    requires r < 8 && Supplied(world) && Meetings(m, world, a, cc, r, target, at) && i < |at|
    requires i <= LowWord(Turns(m, world, at[0]).d[r])
    ensures Sane(Turns(m, world, at[i] + 1))
    ensures var k, x := LowWord(Turns(m, world, at[0]).d[r]), Turns(m, world, at[i]).d[r];
            && LowWord(x) == k - i && x - LowWord(x) == Turns(m, world, at[0]).d[r] - k
            && Turns(m, world, at[i] + 1).core.pc == (if i < k then target else Up(a, 4))
            && Turns(m, world, at[i] + 1).d[r] == if i < k then x - 1 else x + 0xffff
    decreases i
  {
    if i > 0 {
      CountedLoop(m, world, a, cc, r, target, at, i - 1);
      CountDown(Turns(m, world, at[i - 1]).d[r]);
    }
    MeetingTurn(m, world, a, cc, r, target, at[i]);
  }

  lemma MeetingTurn(m: Machine, world: nat -> World, a: uint32, cc: nat, r: nat, target: uint32, j: nat)
    requires Supplied(world) && AtDbcc(Turns(m, world, j), a, cc, r, target)
    ensures var x := Turns(m, world, j).d[r];
            && Turns(m, world, j + 1) == Counted(Turns(m, world, j), r, target)
            && Turns(m, world, j + 1).core.pc == (if LowWord(x) == 0 then Up(a, 4) else target)
            && Turns(m, world, j + 1).d[r] == if LowWord(x) == 0 then x + 0xffff else x - 1
  {
    NextTurns(m, world, j);
    DbccTurn(0, Turns(m, world, j), world(j), a, cc, r, target);
  }

  /** A DBcc to itself, j counts later. */
  function Delayed(m: Machine, r: nat, j: nat): (n: Machine)
    requires Sane(m) && r < 8 && j <= LowWord(m.d[r])
    ensures Sane(n)
  {
    m.(ppc := if j == 0 then m.ppc else m.core.pc, d := m.d[r := m.d[r] - j])
  }

  lemma DelayedStep(m: Machine, cc: nat, r: nat, j: nat)
    requires AtDbcc(m, m.core.pc, cc, r, m.core.pc) && j <= LowWord(m.d[r])
    ensures AtDbcc(Delayed(m, r, j), m.core.pc, cc, r, m.core.pc)
    ensures LowWord(Delayed(m, r, j).d[r]) == LowWord(m.d[r]) - j
    ensures j < LowWord(m.d[r]) ==> Counted(Delayed(m, r, j), r, m.core.pc) == Delayed(m, r, j + 1)
    ensures j == LowWord(m.d[r]) ==>
              Counted(Delayed(m, r, j), r, m.core.pc)
              == m.(ppc := m.core.pc, core := m.core.(pc := Up(m.core.pc, 4)), d := m.d[r := m.d[r] - j + 0xffff])
  {}

  lemma DelayTurn(pool: int, m: Machine, w: World, cc: nat, r: nat, j: nat)
    requires AtDbcc(m, m.core.pc, cc, r, m.core.pc) && j <= LowWord(m.d[r]) && Usable(w)
    ensures Turned(Delayed(m, r, j), w) == Counted(Delayed(m, r, j), r, m.core.pc)
    ensures Charged(pool, Delayed(m, r, j), w) == pool - if j == LowWord(m.d[r]) then 10 else 6
  {
    DelayedStep(m, cc, r, j);
    DbccTurn(pool, Delayed(m, r, j), w, m.core.pc, cc, r, m.core.pc);
  }

  lemma {:induction false} Delay(pool: int, m: Machine, world: nat -> World, cc: nat, r: nat, j: nat)
    requires Supplied(world) && AtDbcc(m, m.core.pc, cc, r, m.core.pc) && j <= LowWord(m.d[r])
    ensures Turns(m, world, j) == Delayed(m, r, j) && PoolAfter(pool, m, world, j) == pool - 6 * j
    decreases j
  {
    if j == 0 {
      assert m.d[r := m.d[r]] == m.d;
    } else {
      Delay(pool, m, world, cc, r, j - 1);
      OneDelay(pool, m, world, cc, r, j - 1);
      DelayedStep(m, cc, r, j - 1);
    }
  }

  lemma OneDelay(pool: int, m: Machine, world: nat -> World, cc: nat, r: nat, j: nat)
    requires Supplied(world) && AtDbcc(m, m.core.pc, cc, r, m.core.pc) && j <= LowWord(m.d[r])
    requires Turns(m, world, j) == Delayed(m, r, j)
    ensures Turns(m, world, j + 1) == Counted(Delayed(m, r, j), r, m.core.pc)
    ensures PoolAfter(pool, m, world, j + 1) == PoolAfter(pool, m, world, j) - if j == LowWord(m.d[r]) then 10 else 6
  {
    NextTurns(m, world, j);
    NextPool(pool, m, world, j);
    DelayTurn(PoolAfter(pool, m, world, j), m, world(j), cc, r, j);
  }

  /** A DBcc to itself is a delay: with low word k it is over after exactly k + 1 turns and
      6 * k + 10 cycles, behind its displacement, and nothing but the count has changed. */
  lemma DelayLoop(pool: int, m: Machine, world: nat -> World, cc: nat, r: nat)
    requires Supplied(world) && AtDbcc(m, m.core.pc, cc, r, m.core.pc)
    ensures var k := LowWord(m.d[r]);
            && Turns(m, world, k + 1)
               == m.(ppc := m.core.pc, core := m.core.(pc := Up(m.core.pc, 4)), d := m.d[r := m.d[r] - k + 0xffff])
            && PoolAfter(pool, m, world, k + 1) == pool - (6 * k + 10)
    ensures forall j :: 0 <= j <= LowWord(m.d[r]) ==> Turns(m, world, j).core.pc == m.core.pc
  {
    var k := LowWord(m.d[r]);
    forall j | 0 <= j <= k ensures Turns(m, world, j).core.pc == m.core.pc {
      Delay(pool, m, world, cc, r, j);
    }
    Delay(pool, m, world, cc, r, k);
    OneDelay(pool, m, world, cc, r, k);
    DelayedStep(m, cc, r, k);
  }

  // ------------------------------------------------------------------ waiting loops

  /** A branch or jump to its own address. */
  predicate Waits(m: Machine, w: World) {
    var f, i := Fetched(m), DecodeOp(NextWord(m));
    (i.Bra? && Branched(f, i.disp) == m.core.pc) || (i.Jmp? && w.target == m.core.pc)
  }

  /** The pool after plain turns of eight cycles that go on while something is left. */
  function Waited(pool: int): int
    decreases pool
  {
    if pool <= 0 then pool else Waited(pool - CYC_INSTRUCTION)
  }

  lemma EightLess(pool: int)
    requires pool >= CYC_INSTRUCTION
    ensures pool % CYC_INSTRUCTION == (pool - CYC_INSTRUCTION) % CYC_INSTRUCTION
  {}

  lemma {:induction false} WaitedIsRem(pool: int)
    requires pool > 0
    ensures pool % CYC_INSTRUCTION - CYC_INSTRUCTION
            == Waited(pool) - if pool % CYC_INSTRUCTION == 0 then CYC_INSTRUCTION else 0
    decreases pool
  {
    if pool > CYC_INSTRUCTION {
      WaitedIsRem(pool - CYC_INSTRUCTION);
      EightLess(pool);
    } else {
      assert Waited(pool) == pool - CYC_INSTRUCTION;
    }
  }

  /** One turn of a waiting loop is all its turns at once: the machine is where it was, the loop
      ends, and the pool is what plain turns leave, except that a pool of whole instructions is
      charged one more. */
  lemma WaitingLoop(pool: int, m: Machine, w: World)
    requires Sane(m) && Usable(w) && Waits(m, w) && pool > 0
    ensures Turned(m, w) == m.(ppc := m.core.pc)
    ensures Waits(Turned(m, w), w)
    ensures Charged(pool, m, w) <= 0
    ensures Charged(pool, m, w) == Waited(pool) - if pool % CYC_INSTRUCTION == 0 then CYC_INSTRUCTION else 0
  {
    WaitedIsRem(pool);
  }

  // --------------------------------------------------------- branches on comparisons

  /** The flags CMP leaves, by the macros on the top bits of operands and result; h is the top bit
      of the operand size. */
  function Compared(src: nat, dst: nat, h: nat, x: bool): (f: Ccr)
    requires src < 2 * h && dst < 2 * h
  {
    var res := if dst >= src then dst - src else dst - src + 2 * h;
    var s, d, r := src >= h, dst >= h, res >= h;
    Ccr(x, r, res == 0, (s != d) && (r != d), (s && r) || (!d && (s || r)))
  }

  function SignedAt(x: nat, h: nat): int { if x >= h then x - 2 * h else x }

  /** What the condition names promise about destination and source. */
  predicate Relation(cc: nat, src: nat, dst: nat, h: nat) {
    match cc
    case 2 => dst > src
    case 3 => dst <= src
    case 4 => dst >= src
    case 5 => dst < src
    case 6 => dst != src
    case 7 => dst == src
    case 12 => SignedAt(dst, h) >= SignedAt(src, h)
    case 13 => SignedAt(dst, h) < SignedAt(src, h)
    case 14 => SignedAt(dst, h) > SignedAt(src, h)
    case 15 => SignedAt(dst, h) <= SignedAt(src, h)
    case _ => false
  }

  predicate Orders(cc: nat) { 2 <= cc <= 7 || 12 <= cc <= 15 }

  lemma ConditionsOrder(cc: nat, src: nat, dst: nat, h: nat, x: bool)
    requires Orders(cc) && src < 2 * h && dst < 2 * h
    ensures Condition(cc, Compared(src, dst, h, x)) <==> Relation(cc, src, dst, h)
  {}

  lemma BccDecoded(cc: nat, disp: nat)
    requires 2 <= cc < 16 && disp < 0x100
    ensures DecodeOp(0x6000 + 0x100 * cc + disp) == Bcc(cc, disp)
  {
    var ir := 0x6000 + 0x100 * cc + disp;
    assert ir / 0x1000 == 6 && ir / 0x100 == 0x60 + cc && ir % 0x100 == disp;
  }

  lemma BccTurn(m: Machine, w: World, cc: nat, disp: nat)
    requires Sane(m) && Usable(w) && 2 <= cc < 16 && disp < 0x100 && NextWord(m) == 0x6000 + 0x100 * cc + disp
    ensures var a := Up(m.core.pc, 2);
            var distance := if disp == 0 then Int16(Read16(m.core.mem, a)) else Int8(disp);
            Turned(m, w) == m.(ppc := m.core.pc, core := m.core.(pc :=
              if Condition(cc, m.core.st.ccr) then At(a + distance) else if disp == 0 then Up(m.core.pc, 4) else a))
  {
    BccDecoded(cc, disp);
    assert Up(Up(m.core.pc, 2), 2) == Up(m.core.pc, 4);
  }

  /** After a comparison a conditional branch is taken exactly when the relation it is named for
      holds between destination and source, unsigned or signed, and goes to its displacement past
      the opcode; otherwise the next instruction follows. */
  lemma ComparedBranch(m: Machine, w: World, cc: nat, disp: nat, src: nat, dst: nat, h: nat)
    requires Sane(m) && Usable(w) && Orders(cc) && disp < 0x100 && src < 2 * h && dst < 2 * h
    requires NextWord(m) == 0x6000 + 0x100 * cc + disp && m.core.st.ccr == Compared(src, dst, h, m.core.st.ccr.x)
    ensures var a := Up(m.core.pc, 2);
            var distance := if disp == 0 then Int16(Read16(m.core.mem, a)) else Int8(disp);
            Turned(m, w) == m.(ppc := m.core.pc, core := m.core.(pc :=
              if Relation(cc, src, dst, h) then At(a + distance) else if disp == 0 then Up(m.core.pc, 4) else a))
  {
    ConditionsOrder(cc, src, dst, h, m.core.st.ccr.x);
    BccTurn(m, w, cc, disp);
  }

  // -------------------------------------------------------- exceptions and their RTE

  /** A handler has come to its RTE with the frame of d as it found it, and no interrupt waits
      that the status to be restored lets through. */
  ghost predicate AtRte(e: Machine, d: Core, level: nat) {
    && Sane(e) && NextWord(e) == 0x4e73 && e.core.st.s
    && e.core.a7 == d.a7 && e.core.aside == d.aside && Intact(d.mem, e.core.mem, d.a7)
    && !e.nmi && e.intLevel <= level
  }

  lemma RteTurn(e: Machine, v: World)
    requires Sane(e) && Usable(v) && NextWord(e) == 0x4e73 && e.core.st.s
    requires !e.nmi && e.intLevel <= Returned(e.core).st.level
    ensures Turned(e, v) == e.(ppc := e.core.pc, core := Returned(e.core))
  {
    assert DecodeOp(0x4e73) == Rte;
  }

  /** Where an instruction that raises an exception goes on afterwards: behind itself, or, if it
      was refused, at itself. */
  function Resumption(i: Instr, f: Machine, w: World): (c: Core)
    requires Sane(f) && Usable(w) && Encodable(i)
    ensures Proper(c.st)
  {
    match i
    case Chk(r, ea) =>
      var c, src := Loaded(ea, f, w).core, LowWord(f.d[r]);
      c.(st := c.st.(ccr := ChkFlags(c.st.ccr, src, OperandOf(ea, f, w))))
    case Divide(ea) => Loaded(ea, f, w).core
    case Trap(_) => f.core
    case TrapV => f.core
    case _ => f.core.(pc := f.ppc)
  }

  lemma TrappedCore(m: Machine, vector: nat, ret: uint32)
    requires Sane(m) && vector < 256
    ensures var d := Trapped(m, vector, ret).core; d == Entered(m.core.(pc := ret), m.core.st.level, d.pc)
  {}

  lemma ChkCore(m: Machine, src: nat, bound: nat)
    requires Sane(m) && ChkEffect(src, bound).Exception?
    ensures var c := m.core.(st := m.core.st.(ccr := ChkFlags(m.core.st.ccr, src, bound)));
            var d := AfterChk(m, src, bound).core;
            d == Entered(c, c.st.level, d.pc)
  {
    var n := m.(core := m.core.(st := m.core.st.(ccr := ChkFlags(m.core.st.ccr, src, bound))));
    TrappedCore(n, CHK_TRAP, n.core.pc);
  }

  lemma RefusedCore(i: Instr, f: Machine, w: World, next: Core)
    requires Encodable(i) && Sane(f) && Usable(w) && Proper(next.st) && EffectOf(i, f, w, next).Exception?
    requires SetsStatus(i) || Charges(i)
    ensures After(i, f, w, next) == Violated(f)
  {}

  lemma RaisedTrap(n: nat, f: Machine, w: World, next: Core)
    requires Encodable(Trap(n)) && Sane(f) && Usable(w) && Proper(next.st) && EffectOf(Trap(n), f, w, next).Exception?
    ensures var c, d := Resumption(Trap(n), f, w), After(Trap(n), f, w, next).core; d == Entered(c, c.st.level, d.pc)
  {
    TrappedCore(f, TRAP_BASE + n, f.core.pc);
  }

  lemma RaisedTrapV(f: Machine, w: World, next: Core)
    requires Encodable(TrapV) && Sane(f) && Usable(w) && Proper(next.st) && EffectOf(TrapV, f, w, next).Exception?
    ensures var c, d := Resumption(TrapV, f, w), After(TrapV, f, w, next).core; d == Entered(c, c.st.level, d.pc)
  {
    TrappedCore(f, TRAPV_TRAP, f.core.pc);
  }

  lemma RaisedChk(r: nat, ea: nat, f: Machine, w: World, next: Core)
    requires Encodable(Chk(r, ea)) && Sane(f) && Usable(w) && Proper(next.st)
    requires EffectOf(Chk(r, ea), f, w, next).Exception?
    ensures var c, d := Resumption(Chk(r, ea), f, w), After(Chk(r, ea), f, w, next).core;
            d == Entered(c, c.st.level, d.pc)
  {
    ChkCore(Loaded(ea, f, w), LowWord(f.d[r]), OperandOf(ea, f, w));
  }

  lemma RaisedDivide(ea: nat, f: Machine, w: World, next: Core)
    requires Encodable(Divide(ea)) && Sane(f) && Usable(w) && Proper(next.st)
    requires EffectOf(Divide(ea), f, w, next).Exception?
    ensures var c, d := Resumption(Divide(ea), f, w), After(Divide(ea), f, w, next).core;
            d == Entered(c, c.st.level, d.pc)
  {
    TrappedCore(Loaded(ea, f, w), ZERO_DIVIDE, Loaded(ea, f, w).core.pc);
  }

  lemma RaisedLine(vector: nat, f: Machine, w: World, next: Core)
    requires Encodable(Line(vector)) && Sane(f) && Usable(w) && Proper(next.st)
    requires EffectOf(Line(vector), f, w, next).Exception?
    ensures var c, d := Resumption(Line(vector), f, w), After(Line(vector), f, w, next).core;
            d == Entered(c, c.st.level, d.pc)
  {
    TrappedCore(f, vector, f.ppc);
  }

  lemma RaisedOther(f: Machine, w: World, next: Core)
    requires Encodable(Other) && Sane(f) && Usable(w) && Proper(next.st) && EffectOf(Other, f, w, next).Exception?
    ensures var c, d := Resumption(Other, f, w), After(Other, f, w, next).core; d == Entered(c, c.st.level, d.pc)
  {
    TrappedCore(f, ILLEGAL, f.ppc);
  }

  lemma RaisedMoveUsp(f: Machine, w: World, next: Core)
    requires Encodable(MoveUsp) && Sane(f) && Usable(w) && Proper(next.st) && EffectOf(MoveUsp, f, w, next).Exception?
    ensures var c, d := Resumption(MoveUsp, f, w), After(MoveUsp, f, w, next).core; d == Entered(c, c.st.level, d.pc)
  {
    TrappedCore(f, PRIVILEGE_VIOLATION, f.ppc);
  }

  lemma FlowNeverRaises(i: Instr, f: Machine, w: World, next: Core)
    requires Encodable(i) && Sane(f) && Usable(w) && EffectOf(i, f, w, next).Exception?
    ensures !Flows(i)
  {}

  lemma RaisedRefused(i: Instr, f: Machine, w: World, next: Core)
    requires Encodable(i) && Sane(f) && Usable(w) && Proper(next.st) && EffectOf(i, f, w, next).Exception?
    requires SetsStatus(i) || Charges(i)
    ensures var c, d := Resumption(i, f, w), After(i, f, w, next).core; d == Entered(c, c.st.level, d.pc)
  {
    RefusedCore(i, f, w, next);
    TrappedCore(f, PRIVILEGE_VIOLATION, f.ppc);
  }

  lemma RaisedBy(i: Instr, f: Machine, w: World, next: Core)
    requires Encodable(i) && Sane(f) && Usable(w) && Proper(next.st) && EffectOf(i, f, w, next).Exception?
    ensures var c, d := Resumption(i, f, w), After(i, f, w, next).core; d == Entered(c, c.st.level, d.pc)
  {
    FlowNeverRaises(i, f, w, next);
    if SetsStatus(i) || Charges(i) {
      RaisedRefused(i, f, w, next);
    } else if i.Trap? {
      RaisedTrap(i.n, f, w, next);
    } else if i.TrapV? {
      RaisedTrapV(f, w, next);
    } else if i.Chk? {
      RaisedChk(i.r, i.ea, f, w, next);
    } else if i.Divide? {
      RaisedDivide(i.ea, f, w, next);
    } else if i.Line? {
      RaisedLine(i.vector, f, w, next);
    } else if i.Other? {
      RaisedOther(f, w, next);
    } else {
      RaisedMoveUsp(f, w, next);
    }
  }

  lemma RaisedCore(m: Machine, w: World)
    requires Sane(m) && Usable(w)
    requires var f, i := Fetched(m), DecodeOp(NextWord(m)); EffectOf(i, f, w, NextCore(i, f, w)).Exception?
    ensures var f, i := Fetched(m), DecodeOp(NextWord(m));
            var c, d := Resumption(i, f, w), Turned(m, w).core;
            d == Entered(c, c.st.level, d.pc)
  {
    var f, i := Fetched(m), DecodeOp(NextWord(m));
    RaisedBy(i, f, w, NextCore(i, f, w));
  }

  /** Every exception an instruction raises, answered by an RTE on an intact frame, leaves program
      counter, status and both stack pointers where the instruction resumes. */
  lemma ExceptionResumes(m: Machine, w: World, e: Machine, v: World)
    requires Sane(m) && Usable(w) && Usable(v)
    requires var f, i := Fetched(m), DecodeOp(NextWord(m));
             && EffectOf(i, f, w, NextCore(i, f, w)).Exception?
             && AtRte(e, Turned(m, w).core, Resumption(i, f, w).st.level)
    ensures var c := Resumption(DecodeOp(NextWord(m)), Fetched(m), w);
            Turned(e, v) == e.(ppc := e.core.pc, core := c.(mem := e.core.mem))
  {
    var c, d := Resumption(DecodeOp(NextWord(m)), Fetched(m), w), Turned(m, w).core;
    RaisedCore(m, w);
    Cancels(c, c.st.level, d.pc, e.core);
    RteTurn(e, v);
  }

  /** The same for an interrupt, which resumes what it came upon. */
  lemma InterruptResumes(m: Machine, e: Machine, v: World)
    requires Sane(m) && Usable(v) && Lets(m) && !m.halted && AtRte(e, Checked(m).core, m.core.st.level)
    ensures Turned(e, v) == e.(ppc := e.core.pc, core := m.core.(mem := e.core.mem))
  {
    var d := Checked(m).core;
    Cancels(m.core, d.st.level, d.pc, e.core);
    RteTurn(e, v);
  }

  /** CHK traps exactly when the signed word is below zero or above the bound; the status its
      handler returns to then tells which: negative exactly below zero. */
  lemma ChkReports(m: Machine, w: World, r: nat, ea: nat)
    requires Sane(m) && Usable(w) && DecodeOp(NextWord(m)) == Chk(r, ea)
    ensures Encodable(Chk(r, ea))
    ensures var f := Fetched(m);
            var src, bound, l, t := LowWord(m.d[r]), OperandOf(ea, f, w), Loaded(ea, f, w), Turned(m, w);
            if 0 <= Int16(src) <= Int16(bound) then
              t == l.(core := l.core.(st := t.core.st)) && t.core.st == l.core.st.(ccr := t.core.st.ccr)
              && t.core.st.ccr.z == (src == 0) && t.core.st.ccr.n == l.core.st.ccr.n
            else
              var c := Returned(t.core);
              && t.core.st.s && t.core.pc == Read32(t.core.mem, 4 * CHK_TRAP)
              && c.pc == l.core.pc && c.a7 == l.core.a7 && c.aside == l.core.aside
              && c.st == l.core.st.(ccr := c.st.ccr) && (c.st.ccr.n <==> Int16(src) < 0)
              && (!c.st.ccr.n <==> Int16(src) > Int16(bound) && Int16(src) >= 0)
              && c.st.ccr.z == (src == 0) && c.st.ccr.x == l.core.st.ccr.x && !c.st.ccr.v && !c.st.ccr.c
  {
    var c := Resumption(Chk(r, ea), Fetched(m), w);
    if !(0 <= Int16(LowWord(m.d[r])) <= Int16(OperandOf(ea, Fetched(m), w))) {
      RaisedCore(m, w);
      Cancels(c, c.st.level, Turned(m, w).core.pc, Turned(m, w).core);
    }
  }

  /** STOP loads its status; an interrupt above the new mask wakes the core, and its RTE leaves it
      behind the STOP with that status. */
  lemma StopResumes(m: Machine, w: World, i: nat, e: Machine, v: World)
    requires Sane(m) && Usable(w) && Usable(v) && NextWord(m) == 0x4e72 && m.core.st.s && !m.nmi && !m.halted
    requires var st := Decode(Read16(m.core.mem, Up(m.core.pc, 2)));
             && m.intLevel <= st.level < i < 8
             && AtRte(e, Checked(Turned(m, w).(intLevel := i)).core, st.level)
    ensures var st, t := Decode(Read16(m.core.mem, Up(m.core.pc, 2))), Turned(m, w);
            && t.core == WithStatus(m.core.(pc := Up(m.core.pc, 4)), st) && !Lets(t)
            && Turned(e, v) == e.(ppc := e.core.pc, core := t.core.(mem := e.core.mem))
  {
    assert DecodeOp(0x4e72) == Stop;
    assert Up(Up(m.core.pc, 2), 2) == Up(m.core.pc, 4);
    InterruptResumes(Turned(m, w).(intLevel := i), e, v);
  }
}
