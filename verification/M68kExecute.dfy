/** The cycle pool of a timeslice: the handlers that take from it, and the loop that runs them
    until it is used up.  What an instruction takes follows from the opcode, the registers and
    the flags it meets; the results of data instructions are supplied from outside. */
module M68kExecute {
  import opened AddressMap
  import opened Arith
  import opened M68kMemory
  import opened M68kException

  const CYC_INSTRUCTION := 8       // every opcode, with cycle counting compiled out
  const CYC_BCC_NOTAKE_B := -2
  const CYC_BCC_NOTAKE_W := 2
  const CYC_DBCC_F_NOEXP := -2
  const CYC_DBCC_F_EXP := 2
  const CYC_SCC_R_TRUE := 2
  const CYC_RESET := 132
  const ZERO_DIVIDE := 5
  const CHK_TRAP := 6
  const TRAPV_TRAP := 7
  const ILLEGAL := 4
  const TRAP_BASE := 32

  /** The vectors a strict 68000 can take without a bus or address error. */
  predicate Taken(vector: nat) { 4 <= vector <= 8 || 10 <= vector <= 11 || 24 <= vector <= 47 }

  /** Their row of the exception cycle table. */
  function CycException(vector: nat): (c: nat)
    requires Taken(vector)
    ensures 34 <= c <= 44
  {
    match vector
    case 5 => 38
    case 6 => 40
    case _ => if 24 <= vector <= 31 then 44 else 34
  }

  // ------------------------------------------------------------------------ decoding

  datatype SrOp = And | Or | Eor | Move(ea: nat)

  /** The instructions that touch the pool, with the fields of their opcode. */
  datatype Instr =
    | Bcc(cc: nat, disp: nat)            // 0: a word displacement follows
    | Bra(disp: nat)
    | Dbcc(cc: nat, r: nat)
    | SccD(cc: nat, r: nat)
    | Jmp
    | Trap(n: nat)
    | TrapV
    | Chk(r: nat, ea: nat)
    | Divide(ea: nat)
    | Multiply(ea: nat, signed: bool)
    | ShiftImm(n: nat)
    | ShiftReg(r: nat)
    | Movem(long: bool)
    | Stop
    | Reset
    | Rte
    | ToSr(op: SrOp)
    | MoveUsp
    | Line(vector: nat)
    | Other

  /** Effective addresses: data operands, control addresses, and those MOVEM stores to and
      loads from. */
  predicate DataEa(ea: nat) { ea / 8 != 1 && (ea / 8 != 7 || ea % 8 <= 4) }
  predicate ControlEa(ea: nat) { ea / 8 in {2, 5, 6} || (ea / 8 == 7 && ea % 8 <= 3) }
  predicate StoreEa(ea: nat) { ea / 8 in {2, 4, 5, 6} || (ea / 8 == 7 && ea % 8 <= 1) }
  predicate LoadEa(ea: nat) { ea / 8 in {2, 3, 5, 6} || (ea / 8 == 7 && ea % 8 <= 3) }

  predicate Encodable(i: Instr) {
    match i
    case Bcc(cc, disp) => 2 <= cc < 16 && disp < 0x100
    case Bra(disp) => disp < 0x100
    case Dbcc(cc, r) => 1 <= cc < 16 && r < 8
    case SccD(cc, r) => 2 <= cc < 16 && r < 8
    case Trap(n) => n < 16
    case Chk(r, ea) => r < 8
    case ShiftImm(n) => 1 <= n <= 8
    case ShiftReg(r) => r < 8
    case Line(vector) => vector == 10 || vector == 11
    case _ => true
  }

  /** The opcode table, as far as the pool is concerned. */
  function DecodeOp(ir: nat): (i: Instr)
    requires ir < TWO16
    ensures Encodable(i)
  {
    var cc, x, opmode, ea, r := ir / 0x100 % 16, ir / 0x200 % 8, ir / 0x40 % 8, ir % 0x40, ir % 8;
    match ir / 0x1000
    case 0 => if ir == 0x027c then ToSr(And) else if ir == 0x007c then ToSr(Or)
              else if ir == 0x0a7c then ToSr(Eor) else Other
    case 4 => if opmode == 6 && DataEa(ea) then Chk(x, ea) else DecodeMisc(ir)
    case 5 => if opmode % 4 == 3 && ea / 8 == 1 && cc != 0 then Dbcc(cc, r)
              else if opmode % 4 == 3 && ea / 8 == 0 && cc >= 2 then SccD(cc, r)
              else Other
    case 6 => if cc == 0 then Bra(ir % 0x100) else if cc == 1 then Other else Bcc(cc, ir % 0x100)
    case 8 => if opmode % 4 == 3 && DataEa(ea) then Divide(ea) else Other
    case 10 => Line(10)
    case 12 => if opmode % 4 == 3 && DataEa(ea) then Multiply(ea, opmode == 7) else Other
    case 14 => if opmode % 4 == 3 then Other
               else if ir / 0x20 % 2 == 1 then ShiftReg(x) else ShiftImm(if x == 0 then 8 else x)
    case 15 => Line(11)
    case _ => Other
  }

  function DecodeMisc(ir: nat): (i: Instr)
    requires 0x4000 <= ir < 0x5000
    ensures Encodable(i)
  {
    var ea := ir % 0x40;
    if 0x46c0 <= ir < 0x4700 && DataEa(ea) then ToSr(Move(ea))
    else if 0x4880 <= ir < 0x4900 && StoreEa(ea) then Movem(ir >= 0x48c0)
    else if 0x4c80 <= ir < 0x4d00 && LoadEa(ea) then Movem(ir >= 0x4cc0)
    else if 0x4e40 <= ir < 0x4e50 then Trap(ir % 16)
    else if 0x4e60 <= ir < 0x4e70 then MoveUsp
    else if ir == 0x4e70 then Reset
    else if ir == 0x4e72 then Stop
    else if ir == 0x4e73 then Rte
    else if ir == 0x4e76 then TrapV
    else if 0x4ec0 <= ir < 0x4f00 && ControlEa(ea) then Jmp
    else Other
  }

  // --------------------------------------------------------------------- the machine

  /** Core, data registers, the address of the instruction, and what interrupts look at. */
  datatype Machine = Machine(core: Core, d: seq<uint32>, ppc: uint32, nmi: bool, intLevel: nat, halted: bool)

  predicate Sane(m: Machine) { |m.d| == 8 && Proper(m.core.st) && m.intLevel < 8 }

  /** What the rest of the machine supplies to an instruction: the word operand an addressing
      mode other than a data register yields and the state it leaves, with PC behind its
      extension words; the address it yields; whether an opcode outside the list above is
      assigned at all; and the state a data instruction leaves. */
  datatype World = World(operand: nat, loaded: Machine, target: uint32, known: bool, after: Machine)

  predicate Usable(w: World) { w.operand < TWO16 && Sane(w.loaded) && Sane(w.after) }

  ghost predicate Supplied(world: nat -> World) { forall i: nat :: Usable(world(i)) }

  predicate Condition(cc: nat, f: Ccr) {
    match cc
    case 0 => true
    case 1 => false
    case 2 => !f.c && !f.z
    case 3 => f.c || f.z
    case 4 => !f.c
    case 5 => f.c
    case 6 => !f.z
    case 7 => f.z
    case 8 => !f.v
    case 9 => f.v
    case 10 => !f.n
    case 11 => f.n
    case 12 => f.n == f.v
    case 13 => f.n != f.v
    case 14 => f.n == f.v && !f.z
    case _ => f.n != f.v || f.z
  }

  function Int8(x: nat): int { if x >= 0x80 then x - 0x100 else x }
  function Int16(x: nat): int { if x >= 0x8000 then x - TWO16 else x }

  function LowWord(x: uint32): (w: nat)
    ensures w < TWO16
  {
    x % TWO16
  }

  /** The word at PC: the opcode, and then the word after it. */
  function NextWord(m: Machine): (w: nat)
    ensures w < TWO16
  {
    Read16(m.core.mem, m.core.pc)
  }

  function OperandOf(ea: nat, m: Machine, w: World): (x: nat)
    requires Sane(m) && Usable(w)
    ensures x < TWO16
  {
    if ea < 8 then LowWord(m.d[ea]) else w.operand
  }

  function Loaded(ea: nat, m: Machine, w: World): (n: Machine)
    requires Sane(m) && Usable(w)
    ensures Sane(n)
  {
    if ea < 8 then m else w.loaded
  }

  /** Where a branch goes, by its byte or by the word that follows. */
  function Branched(m: Machine, disp: nat): uint32
    requires disp < 0x100
  {
    At(m.core.pc + if disp == 0 then Int16(NextWord(m)) else Int8(disp))
  }

  /** One bits of a word, and changes from bit to bit upwards of a sign-extended one. */
  function Ones(x: nat): (n: nat)
    ensures n <= x
  {
    if x == 0 then 0 else Ones(x / 2) + x % 2
  }

  function Changes(x: nat, last: nat): nat
    requires last < 2
  {
    if x == 0 then 0 else if x % 2 != last then 1 + Changes(x / 2, 1 - last) else Changes(x / 2, last)
  }

  function SignExtended(x: nat): uint32
    requires x < TWO16
  {
    if x >= 0x8000 then x + (TWO32 - TWO16) else x
  }

  /** A status combined with a word, bit by bit. */
  function Combined(op: SrOp, a: Status, b: Status, moved: Status): (st: Status)
    requires Proper(a) && Proper(b) && Proper(moved)
    ensures Proper(st)
  {
    if op.Move? then moved
    else Status(Bitwise(op, a.t, b.t), Bitwise(op, a.s, b.s), Levels(op, a.level, b.level),
                Ccr(Bitwise(op, a.ccr.x, b.ccr.x), Bitwise(op, a.ccr.n, b.ccr.n), Bitwise(op, a.ccr.z, b.ccr.z),
                    Bitwise(op, a.ccr.v, b.ccr.v), Bitwise(op, a.ccr.c, b.ccr.c)))
  }

  predicate Bitwise(op: SrOp, a: bool, b: bool) {
    match op
    case And => a && b
    case Or => a || b
    case Eor => a != b
    case Move(_) => b
  }

  function Levels(op: SrOp, a: nat, b: nat): (level: nat)
    requires a < 8 && b < 8
    ensures level < 8
  {
    Bit(Bitwise(op, a >= 4, b >= 4), 4) + Bit(Bitwise(op, a % 4 >= 2, b % 4 >= 2), 2)
    + Bit(Bitwise(op, a % 2 == 1, b % 2 == 1), 1)
  }

  function NewStatus(op: SrOp, m: Machine, w: World): (st: Status)
    requires Sane(m) && Usable(w)
    ensures Proper(st)
  {
    Combined(op, m.core.st, Decode(NextWord(m)), Decode(OperandOf(if op.Move? then op.ea else 8, m, w)))
  }

  /** m68ki_set_sr without the interrupts it may let in. */
  function WithStatus(c: Core, st: Status): Core {
    c.(st := st, a7 := if st.s then Ssp(c) else Usp(c), aside := if st.s then Usp(c) else Ssp(c))
  }

  /** STOP takes its status from the word that follows. */
  function StopCore(m: Machine): (c: Core)
    ensures Proper(c.st)
  {
    WithStatus(m.core.(pc := Up(m.core.pc, 2)), Decode(NextWord(m)))
  }

  /** The core once STOP, RTE or a write to SR has set the status, before interrupts are looked at. */
  function NextCore(i: Instr, m: Machine, w: World): (c: Core)
    requires Sane(m) && Usable(w)
    ensures Proper(c.st)
  {
    var past := m.core.(pc := Up(m.core.pc, 2));
    match i
    case Stop => StopCore(m)
    case ToSr(op) => WithStatus(if op.Move? then Loaded(op.ea, m, w).core else past, NewStatus(op, m, w))
    case Rte => Returned(m.core)
    case _ => m.core
  }

  /** m68ki_check_interrupts finds one to take. */
  predicate Lets(m: Machine) { m.nmi || m.intLevel > m.core.st.level }

  function Checked(m: Machine): (n: Machine)
    requires Sane(m)
    ensures Sane(n)
  {
    if m.nmi then Serviced(m.(nmi := false), 7)
    else if m.intLevel > m.core.st.level then Serviced(m, m.intLevel)
    else m
  }

  function Serviced(m: Machine, level: nat): (n: Machine)
    requires Sane(m) && level < 8
    ensures Sane(n)
  {
    if m.halted then m
    else m.(core := Entered(m.core, level, Cpu.Autovector(m.core.mem, level)), intLevel := 0)
  }

  /** Exception entry through a vector, with the given return address. */
  function Trapped(m: Machine, vector: nat, ret: uint32): (n: Machine)
    requires Sane(m) && vector < 256
    ensures Sane(n)
  {
    var c := Entered(m.core.(pc := ret), m.core.st.level, 0);
    m.(core := c.(pc := Read32(c.mem, 4 * vector)))
  }

  /** The opcode has been read. */
  function Fetched(m: Machine): (n: Machine)
    ensures Sane(m) ==> Sane(n)
  {
    m.(ppc := m.core.pc, core := m.core.(pc := Up(m.core.pc, 2)))
  }

  // ----------------------------------------------------------------- what it takes

  /** What a handler does to the pool beside the opcode's own cycles. */
  datatype Effect =
    | Plain
    | Uses(extra: nat)
    | BranchNotTaken
    | DecrementNotExpired
    | DecrementExpired
    | SetTrue
    | Exception(vector: nat)
    | Interrupted                       // the new mask lets an interrupt in
    | ToItself                          // a branch or jump to its own address
    | Stopped(interrupted: bool)

  /** The effect of an instruction, from the opcode's fields, the registers and the flags. */
  function EffectOf(i: Instr, m: Machine, w: World, next: Core): (e: Effect)
    requires Encodable(i) && Sane(m) && Usable(w)
    ensures e.Exception? ==> Taken(e.vector)
  {
    var violation := Exception(PRIVILEGE_VIOLATION);
    match i
    case Bcc(cc, disp) =>
      if Condition(cc, m.core.st.ccr) then Plain else if disp == 0 then Uses(CYC_BCC_NOTAKE_W) else BranchNotTaken
    case Bra(disp) => if Branched(m, disp) == m.ppc then ToItself else Plain
    case Jmp => if w.target == m.ppc then ToItself else Plain
    case Dbcc(cc, r) =>
      if Condition(cc, m.core.st.ccr) then Plain
      else if LowWord(m.d[r]) == 0 then DecrementExpired else DecrementNotExpired
    case SccD(cc, r) => if Condition(cc, m.core.st.ccr) then SetTrue else Plain
    case Trap(n) => Exception(TRAP_BASE + n)
    case TrapV => if m.core.st.ccr.v then Exception(TRAPV_TRAP) else Plain
    case Chk(r, ea) =>
      ChkEffect(LowWord(m.d[r]), OperandOf(ea, m, w))
    case Divide(ea) => if OperandOf(ea, m, w) == 0 then Exception(ZERO_DIVIDE) else Plain
    case Multiply(ea, signed) =>
      Uses(2 * if signed then Changes(SignExtended(OperandOf(ea, m, w)), 0) else Ones(OperandOf(ea, m, w)))
    case ShiftImm(n) => Uses(2 * n)
    case ShiftReg(r) => Uses(2 * (m.d[r] % 64))
    case Movem(long) => Uses((if long then 8 else 4) * Ones(NextWord(m)))
    case Stop => StatusEffect(true, m, next.st)
    case Reset => if m.core.st.s then Uses(CYC_RESET) else violation
    case Rte => StatusEffect(false, m, next.st)
    case ToSr(op) => StatusEffect(false, m, next.st)
    case MoveUsp => if m.core.st.s then Plain else violation
    case Line(vector) => Exception(vector)
    case Other => if w.known then Plain else Exception(ILLEGAL)
  }

  /** Setting the status needs supervisor mode, and may let an interrupt in. */
  function StatusEffect(stop: bool, m: Machine, st: Status): (e: Effect)
    ensures e.Exception? ==> Taken(e.vector)
  {
    if !m.core.st.s then Exception(PRIVILEGE_VIOLATION)
    else if stop then Stopped(TakesUnder(m, st))
    else if TakesUnder(m, st) then Interrupted
    else Plain
  }

  function StatusPool(pool: int, stop: bool, m: Machine, st: Status): int {
    var left := pool - if TakesUnder(m, st) then CYC_INTERRUPT else 0;
    if !m.core.st.s then pool - (CycException(PRIVILEGE_VIOLATION) - CYC_INSTRUCTION)
    else if stop then StoppedPool(left) else left
  }

  lemma StatusHandled(pool: int, stop: bool, m: Machine, st: Status)
    ensures Handled(pool, StatusEffect(stop, m, st)) == StatusPool(pool, stop, m, st)
    ensures StatusEffect(stop, m, st).Stopped? <==> stop && m.core.st.s
  {}

  function ChkEffect(src: nat, bound: nat): Effect {
    if 0 <= Int16(src) <= Int16(bound) then Plain else Exception(CHK_TRAP)
  }

  /** A pending interrupt is taken once this status is in force. */
  predicate TakesUnder(m: Machine, st: Status) { !m.halted && (m.nmi || m.intLevel > st.level) }

  /** C's remainder, whose sign is the dividend's. */
  function Rem(x: int): (r: int)
    ensures -CYC_INSTRUCTION < r < CYC_INSTRUCTION && (x >= 0 ==> r >= 0) && (x <= 0 ==> r <= 0)
  {
    if x >= 0 then x % CYC_INSTRUCTION else 0 - (0 - x) % CYC_INSTRUCTION
  }

  const CYC_INTERRUPT := 44

  /** The pool after a handler. */
  function Handled(pool: int, e: Effect): int
    requires e.Exception? ==> Taken(e.vector)
  {
    match e
    case Plain => pool
    case Uses(extra) => pool - extra
    case BranchNotTaken => pool - CYC_BCC_NOTAKE_B
    case DecrementNotExpired => pool - CYC_DBCC_F_NOEXP
    case DecrementExpired => pool - CYC_DBCC_F_EXP
    case SetTrue => pool - CYC_SCC_R_TRUE
    case Exception(vector) => pool - (CycException(vector) - CYC_INSTRUCTION)
    case Interrupted => pool - CYC_INTERRUPT
    case ToItself => Rem(pool)
    case Stopped(interrupted) => StoppedPool(if interrupted then pool - CYC_INTERRUPT else pool)
  }

  /** STOP leaves one instruction of the pool at most. */
  function StoppedPool(pool: int): int {
    if pool >= CYC_INSTRUCTION then CYC_INSTRUCTION else Rem(pool)
  }

  /** Whatever opcode it meets in whatever state, a turn of the loop lowers the pool by at least
      six; STOP in supervisor mode and a branch or jump to itself use it up. */
  lemma TurnCost(pool: int, i: Instr, m: Machine, w: World, next: Core)
    requires Encodable(i) && Sane(m) && Usable(w)
    ensures var e := EffectOf(i, m, w, next);
            var left := Handled(pool, e) - CYC_INSTRUCTION;
            && (left <= pool - 6 || left <= 0)
            && (pool <= 0 || e.Stopped? || e.ToItself? ==> left <= 0)
            && (left > pool - 8 ==> e.BranchNotTaken? || e.DecrementNotExpired? || left <= 0)
  {}

  // ------------------------------------------------------------------- the handlers

  predicate Flows(i: Instr) { i.Bcc? || i.Bra? || i.Jmp? || i.Dbcc? || i.SccD? }
  predicate SetsStatus(i: Instr) { i.Stop? || i.Rte? || i.ToSr? }
  predicate Charges(i: Instr) { i.Multiply? || i.ShiftImm? || i.ShiftReg? || i.Movem? || i.Reset? }

  /** The state after an instruction; data results are the world's. */
  function After(i: Instr, m: Machine, w: World, next: Core): (n: Machine)
    requires Encodable(i) && Sane(m) && Usable(w) && Proper(next.st)
    ensures Sane(n)
  {
    if Flows(i) then AfterFlow(i, m, w.target)
    else if SetsStatus(i) then (if m.core.st.s then Checked(m.(core := next)) else Violated(m))
    else if Charges(i) then (if !i.Reset? then w.after else if m.core.st.s then m else Violated(m))
    else AfterRaise(i, m, w)
  }

  function Violated(m: Machine): (n: Machine)
    requires Sane(m)
    ensures Sane(n)
  {
    Trapped(m, PRIVILEGE_VIOLATION, m.ppc)
  }

  function Moved(m: Machine, pc: uint32): (n: Machine)
    ensures Sane(m) ==> Sane(n)
  {
    m.(core := m.core.(pc := pc))
  }

  function AfterFlow(i: Instr, m: Machine, target: uint32): (n: Machine)
    requires Encodable(i) && Sane(m) && Flows(i)
    ensures Sane(n)
  {
    var f, past := m.core.st.ccr, Up(m.core.pc, 2);
    match i
    case Bcc(cc, disp) =>
      if Condition(cc, f) then Moved(m, Branched(m, disp)) else if disp == 0 then Moved(m, past) else m
    case Bra(disp) => Moved(m, Branched(m, disp))
    case Jmp => Moved(m, target)
    case Dbcc(cc, r) =>
      if Condition(cc, f) then Moved(m, past)
      else
        Moved(m.(d := m.d[r := Decremented(m.d[r])]), if LowWord(m.d[r]) == 0 then past else Branched(m, 0))
    case SccD(cc, r) => m.(d := m.d[r := m.d[r] - m.d[r] % 0x100 + if Condition(cc, f) then 0xff else 0])
  }

  function AfterRaise(i: Instr, m: Machine, w: World): (n: Machine)
    requires Encodable(i) && Sane(m) && Usable(w) && !Flows(i) && !SetsStatus(i) && !Charges(i)
    ensures Sane(n)
  {
    var pc := m.core.pc;
    match i
    case Trap(n) => Trapped(m, TRAP_BASE + n, pc)
    case TrapV => if m.core.st.ccr.v then Trapped(m, TRAPV_TRAP, pc) else m
    case Chk(r, ea) => AfterChk(Loaded(ea, m, w), LowWord(m.d[r]), OperandOf(ea, m, w))
    case Divide(ea) =>
      if OperandOf(ea, m, w) == 0 then Trapped(Loaded(ea, m, w), ZERO_DIVIDE, Loaded(ea, m, w).core.pc) else w.after
    case MoveUsp => if m.core.st.s then w.after else Violated(m)
    case Line(vector) => Trapped(m, vector, m.ppc)
    case Other => if w.known then w.after else Trapped(m, ILLEGAL, m.ppc)
  }

  /** CHK's flags, and its trap outside the bounds. */
  function AfterChk(m: Machine, src: nat, bound: nat): (n: Machine)
    requires Sane(m)
    ensures Sane(n)
  {
    var n := m.(core := m.core.(st := m.core.st.(ccr := ChkFlags(m.core.st.ccr, src, bound))));
    if 0 <= Int16(src) <= Int16(bound) then n else Trapped(n, CHK_TRAP, m.core.pc)
  }

  /** The low word less one, the high word kept. */
  function Decremented(x: uint32): uint32 {
    if LowWord(x) == 0 then x + 0xffff else x - 1
  }

  function ChkFlags(f: Ccr, src: nat, bound: nat): Ccr {
    var g := f.(z := src == 0, v := false, c := false);
    if 0 <= Int16(src) <= Int16(bound) then g else g.(n := src >= 0x8000)
  }

  // ------------------------------------------------------------------ turns of the loop

  /** What one turn leaves of the machine. */
  function Turned(m: Machine, w: World): (n: Machine)
    requires Sane(m) && Usable(w)
    ensures Sane(n)
  {
    var f, i := Fetched(m), DecodeOp(NextWord(m));
    After(i, f, w, NextCore(i, f, w))
  }

  /** What one turn leaves of the pool. */
  function Charged(pool: int, m: Machine, w: World): int
    requires Sane(m) && Usable(w)
  {
    var f, i := Fetched(m), DecodeOp(NextWord(m));
    Handled(pool, EffectOf(i, f, w, NextCore(i, f, w))) - CYC_INSTRUCTION
  }

  /** Turned and Charged as values, known only by what they are. */
  ghost predicate IsTurn(f: (Machine, World) -> Machine) {
    forall m: Machine, w: World {:trigger Turned(m, w)} :: Sane(m) && Usable(w) ==> f(m, w) == Turned(m, w)
  }

  ghost predicate IsCharge(f: (int, Machine, World) -> int) {
    forall p: int, m: Machine, w: World {:trigger Charged(p, m, w)} ::
      Sane(m) && Usable(w) ==> f(p, m, w) == Charged(p, m, w)
  }

  ghost function TheTurn(): (f: (Machine, World) -> Machine)
    ensures IsTurn(f)
  {
    assert IsTurn((m: Machine, w: World) => if Sane(m) && Usable(w) then Turned(m, w) else m);
    var f :| IsTurn(f);
    f
  }

  ghost function TheCharge(): (f: (int, Machine, World) -> int)
    ensures IsCharge(f)
  {
    assert IsCharge((p: int, m: Machine, w: World) => if Sane(m) && Usable(w) then Charged(p, m, w) else p);
    var f :| IsCharge(f);
    f
  }

  /** The machine and the pool after n turns. */
  ghost function Turns(m: Machine, world: nat -> World, n: nat): Machine {
    if n == 0 then m else TheTurn()(Turns(m, world, n - 1), world(n - 1))
  }

  ghost function PoolAfter(pool: int, m: Machine, world: nat -> World, n: nat): int {
    if n == 0 then pool else TheCharge()(PoolAfter(pool, m, world, n - 1), Turns(m, world, n - 1), world(n - 1))
  }

  /** The loop stops after the first turn, but never before one, that leaves nothing. */
  ghost predicate LastTurn(pool: int, m: Machine, world: nat -> World, n: nat) {
    n >= 1 && !Lasts(pool, m, world, n) && GoesOn(pool, m, world, n)
  }

  ghost predicate GoesOn(pool: int, m: Machine, world: nat -> World, n: nat) {
    forall j :: 1 <= j < n ==> Lasts(pool, m, world, j)
  }

  ghost predicate Lasts(pool: int, m: Machine, world: nat -> World, n: nat) { PoolAfter(pool, m, world, n) > 0 }

  /** A pending interrupt that the mask lets through is taken; then a core that is asleep or
      halted uses nothing up and leaves nothing, and any other one takes turns until the pool
      is used up, which is after at most a sixth of it. */
  ghost predicate Ran(cycles: int, m: Machine, stopped: bool, world: nat -> World, count: nat, n: Machine, left: int)
    requires Sane(m)
  {
    if m.halted || (stopped && !Lets(m)) then left == 0 && count == 0 && n == Checked(m)
    else Worked(cycles - if Lets(m) then CYC_INTERRUPT else 0, Checked(m), world, count, n, left)
  }

  ghost predicate Worked(pool: int, m: Machine, world: nat -> World, count: nat, n: Machine, left: int) {
    && LastTurn(pool, m, world, count) && left == PoolAfter(pool, m, world, count)
    && n == Turns(m, world, count).(ppc := Turns(m, world, count).core.pc)
    && (count == 1 || 6 * (count - 1) < pool)
  }

  class Timeslice {
    var m: Machine
    var stopped: bool                  // STOP_LEVEL_STOP of CPU_STOPPED
    var remaining: int
    var initial: int
    var resetCycles: nat

    constructor (machine: Machine)
      ensures m == machine && !stopped && resetCycles == 0
    {
      m, remaining, initial, resetCycles, stopped := machine, 0, 0, 0, false;
    }

    method UseCycles(n: int)
      modifies this`remaining
      ensures remaining == old(remaining) - n
    {
      remaining := remaining - n;
    }

    /** A branch or jump to itself, and STOP: the rest of the pool in whole instructions. */
    method UseAllCycles()
      modifies this`remaining
      ensures remaining == Rem(old(remaining))
    {
      remaining := Rem(remaining);
    }

    method JumpTo(pc: uint32)
      modifies this`m
      ensures m == old(m).(core := old(m).core.(pc := pc))
    {
      m := m.(core := m.core.(pc := pc));
    }

    method BranchIf(cc: nat, disp: nat, w: World)
      requires Sane(m) && Usable(w) && Encodable(Bcc(cc, disp))
      modifies this`m, this`remaining
      ensures m == AfterFlow(Bcc(cc, disp), old(m), w.target)
      ensures remaining == Handled(old(remaining), EffectOf(Bcc(cc, disp), old(m), w, old(m).core))
    {
      if Condition(cc, m.core.st.ccr) {
        JumpTo(Branched(m, disp));
        return;
      }
      if disp == 0 {
        JumpTo(Up(m.core.pc, 2));
        UseCycles(CYC_BCC_NOTAKE_W);
      } else {
        UseCycles(CYC_BCC_NOTAKE_B);
      }
    }

    /** BRA and JMP. */
    method Go(target: uint32)
      modifies this`m, this`remaining
      ensures m == old(m).(core := old(m).core.(pc := target))
      ensures remaining == if target == old(m).ppc then Rem(old(remaining)) else old(remaining)
    {
      JumpTo(target);
      if m.core.pc == m.ppc {
        UseAllCycles();
      }
    }

    method DecrementAndBranch(cc: nat, r: nat, w: World)
      requires Sane(m) && Usable(w) && Encodable(Dbcc(cc, r))
      modifies this`m, this`remaining
      ensures m == AfterFlow(Dbcc(cc, r), old(m), w.target)
      ensures remaining == Handled(old(remaining), EffectOf(Dbcc(cc, r), old(m), w, old(m).core))
    {
      if Condition(cc, m.core.st.ccr) {
        JumpTo(Up(m.core.pc, 2));
        return;
      }
      var res := if LowWord(m.d[r]) == 0 then 0xffff else LowWord(m.d[r]) - 1;   // MASK_OUT_ABOVE_16(*r_dst - 1)
      var target := Branched(m, 0);
      m := m.(d := m.d[r := m.d[r] - LowWord(m.d[r]) + res]);
      if res != 0xffff {
        JumpTo(target);
        UseCycles(CYC_DBCC_F_NOEXP);
        return;
      }
      JumpTo(Up(m.core.pc, 2));
      UseCycles(CYC_DBCC_F_EXP);
    }

    method SetByte(cc: nat, r: nat, w: World)
      requires Sane(m) && Usable(w) && Encodable(SccD(cc, r))
      modifies this`m, this`remaining
      ensures m == AfterFlow(SccD(cc, r), old(m), w.target)
      ensures remaining == Handled(old(remaining), EffectOf(SccD(cc, r), old(m), w, old(m).core))
    {
      var kept := m.d[r] - m.d[r] % 0x100;
      if Condition(cc, m.core.st.ccr) {
        m := m.(d := m.d[r := kept + 0xff]);
        UseCycles(CYC_SCC_R_TRUE);
        return;
      }
      m := m.(d := m.d[r := kept]);
    }

    /** All exceptions an instruction raises: the entry, its cycles, and the opcode's undone. */
    method TakeTrap(vector: nat, ret: uint32)
      requires Sane(m) && Taken(vector)
      modifies this`m, this`remaining
      ensures m == Trapped(old(m), vector, ret)
      ensures remaining == Handled(old(remaining), Exception(vector))
    {
      m := Trapped(m, vector, ret);
      UseCycles(CycException(vector) - CYC_INSTRUCTION);
    }

    method CheckBounds(r: nat, ea: nat, w: World)
      requires Sane(m) && Usable(w) && Encodable(Chk(r, ea))
      modifies this`m, this`remaining
      ensures m == AfterChk(Loaded(ea, old(m), w), LowWord(old(m).d[r]), OperandOf(ea, old(m), w))
      ensures remaining == Handled(old(remaining), ChkEffect(LowWord(old(m).d[r]), OperandOf(ea, old(m), w)))
    {
      var src, bound := LowWord(m.d[r]), OperandOf(ea, m, w);
      m := Loaded(ea, m, w);
      var f := m.core.st.ccr.(z := src == 0, v := false, c := false);
      if Int16(src) >= 0 && Int16(src) <= Int16(bound) {
        SetFlags(f);
        return;
      }
      SetFlags(f.(n := src >= 0x8000));
      TakeTrap(CHK_TRAP, m.core.pc);
    }

    method SetFlags(f: Ccr)
      modifies this`m
      ensures m == old(m).(core := old(m).core.(st := old(m).core.st.(ccr := f)))
    {
      m := m.(core := m.core.(st := m.core.st.(ccr := f)));
    }

    /** MULU charges for its one bits, MULS for the changes between its bits. */
    method MultiplyCycles(x: nat, signed: bool)
      requires x < TWO16
      modifies this`remaining
      ensures remaining == old(remaining) - 2 * if signed then Changes(SignExtended(x), 0) else Ones(x)
    {
      var c, y, f := 0, if signed then SignExtended(x) else x, 0;
      while y != 0
        invariant y >= 0 && 0 <= f < 2
        invariant signed ==> c + 2 * Changes(y, f) == 2 * Changes(SignExtended(x), 0)
        invariant !signed ==> c + 2 * Ones(y) == 2 * Ones(x)
        decreases y
      {
        if signed {
          if y % 2 != f {
            c, f := c + 2, 1 - f;
          }
        } else if y % 2 == 1 {
          c := c + 2;
        }
        y := y / 2;
      }
      UseCycles(c);
    }

    /** MOVEM counts the registers of its list. */
    method MovemCycles(list: nat, long: bool)
      requires list < TWO16
      modifies this`remaining
      ensures remaining == old(remaining) - (if long then 8 else 4) * Ones(list)
    {
      var count, rest: nat := 0, list;
      PowerOf16();
      for i := 0 to 16
        invariant rest < Pow2(16 - i) && count + Ones(rest) == Ones(list)
      {
        if rest % 2 == 1 {
          count := count + 1;
        }
        rest := rest / 2;
      }
      UseCycles(if long then count * 8 else count * 4);
    }

    static lemma PowerOf16()
      ensures Pow2(16) == TWO16
    {
      assert Pow2(4) == 0x10;
      assert Pow2(8) == 0x100;
      assert Pow2(12) == 0x1000;
    }

    method CheckInterrupts()
      requires Sane(m)
      modifies this`m, this`remaining, this`stopped
      ensures m == Checked(old(m))
      ensures remaining == old(remaining) - if Lets(old(m)) && !old(m).halted then CYC_INTERRUPT else 0
      ensures stopped == (old(stopped) && !Lets(old(m)))
    {
      if m.nmi {
        m := m.(nmi := false);
        ExceptionInterrupt(7);
      } else if m.intLevel > m.core.st.level {
        ExceptionInterrupt(m.intLevel);
      }
    }

    method ExceptionInterrupt(level: nat)
      requires Sane(m) && 1 <= level < 8
      modifies this`m, this`remaining, this`stopped
      ensures m == Serviced(old(m), level) && !stopped
      ensures remaining == old(remaining) - if old(m).halted then 0 else CYC_INTERRUPT
    {
      stopped := false;
      if m.halted { return; }
      m := Serviced(m, level);
      UseCycles(CycException(AUTOVECTOR + level));
    }

    /** m68ki_set_sr and RTE: the status changes, and interrupts it lets in are taken. */
    method SetSr(next: Core)
      requires Sane(m) && Proper(next.st)
      modifies this`m, this`remaining, this`stopped
      ensures m == Checked(old(m).(core := next))
      ensures remaining == old(remaining) - if TakesUnder(old(m), next.st) then CYC_INTERRUPT else 0
      ensures stopped == (old(stopped) && !(old(m).nmi || old(m).intLevel > next.st.level))
    {
      m := m.(core := next);
      CheckInterrupts();
    }

    /** The word after the opcode becomes the status. */
    method StopInstruction()
      requires Sane(m)
      modifies this`m, this`remaining, this`stopped
      ensures m == Checked(old(m).(core := StopCore(old(m))))
      ensures remaining
              == StoppedPool(old(remaining) - if TakesUnder(old(m), StopCore(old(m)).st) then CYC_INTERRUPT else 0)
      ensures stopped == !(old(m).nmi || old(m).intLevel > StopCore(old(m)).st.level)
    {
      StopWith(StopCore(m));
    }

    method StopWith(next: Core)
      requires Sane(m) && Proper(next.st)
      modifies this`m, this`remaining, this`stopped
      ensures m == Checked(old(m).(core := next))
      ensures remaining == StoppedPool(old(remaining) - if TakesUnder(old(m), next.st) then CYC_INTERRUPT else 0)
      ensures stopped == !(old(m).nmi || old(m).intLevel > next.st.level)
    {
      stopped := true;
      SetSr(next);
      Drain();
    }

    method Drain()
      modifies this`remaining
      ensures remaining == StoppedPool(old(remaining))
    {
      if remaining >= CYC_INSTRUCTION {
        remaining := CYC_INSTRUCTION;
      } else {
        UseAllCycles();
      }
    }

    /** The privileged ones that set the status. */
    method Privileged(stop: bool, next: Core)
      requires Sane(m) && Proper(next.st) && !stopped && (stop ==> next == StopCore(m))
      modifies this`m, this`remaining, this`stopped
      ensures m == if old(m).core.st.s then Checked(old(m).(core := next)) else Violated(old(m))
      ensures remaining == StatusPool(old(remaining), stop, old(m), next.st)
      ensures stopped ==> stop && old(m).core.st.s
    {
      if !m.core.st.s {
        TakeTrap(PRIVILEGE_VIOLATION, m.ppc);
      } else if stop {
        StopInstruction();
      } else {
        SetSr(next);
      }
    }

    method Status(stop: bool, next: Core)
      requires Sane(m) && Proper(next.st) && !stopped && (stop ==> next == StopCore(m))
      modifies this`m, this`remaining, this`stopped
      ensures m == if old(m).core.st.s then Checked(old(m).(core := next)) else Violated(old(m))
      ensures remaining == Handled(old(remaining), StatusEffect(stop, old(m), next.st))
      ensures stopped ==> StatusEffect(stop, old(m), next.st).Stopped?
    {
      StatusHandled(remaining, stop, m, next.st);
      Privileged(stop, next);
    }

    method DivideCheck(ea: nat, w: World)
      requires Sane(m) && Usable(w)
      modifies this`m, this`remaining
      ensures m == if OperandOf(ea, old(m), w) == 0
                   then Trapped(Loaded(ea, old(m), w), ZERO_DIVIDE, Loaded(ea, old(m), w).core.pc) else w.after
      ensures remaining
              == Handled(old(remaining), if OperandOf(ea, old(m), w) == 0 then Exception(ZERO_DIVIDE) else Plain)
    {
      var src := OperandOf(ea, m, w);
      m := Loaded(ea, m, w);
      Conditional(src == 0, ZERO_DIVIDE, m.core.pc, w.after);
    }

    /** Handlers that end in an exception or go on. */
    method Conditional(raised: bool, vector: nat, ret: uint32, after: Machine)
      requires Sane(m) && (raised ==> Taken(vector))
      modifies this`m, this`remaining
      ensures m == if raised then Trapped(old(m), vector, ret) else after
      ensures remaining == Handled(old(remaining), if raised then Exception(vector) else Plain)
    {
      if raised {
        TakeTrap(vector, ret);
      } else {
        m := after;
      }
    }

    /** Branches, jumps and conditional bytes. */
    method Flow(i: Instr, w: World, next: Core)
      requires Encodable(i) && Sane(m) && Usable(w) && Proper(next.st) && Flows(i)
      modifies this`m, this`remaining
      ensures m == AfterFlow(i, old(m), w.target)
      ensures remaining == Handled(old(remaining), EffectOf(i, old(m), w, next))
    {
      match i
      case Bcc(cc, disp) => BranchIf(cc, disp, w);
      case Bra(disp) => Go(Branched(m, disp));
      case Jmp => Go(w.target);
      case Dbcc(cc, r) => DecrementAndBranch(cc, r, w);
      case SccD(cc, r) => SetByte(cc, r, w);
    }

    /** Instructions that can raise an exception. */
    method Raise(i: Instr, w: World, next: Core)
      requires Encodable(i) && Sane(m) && Usable(w) && Proper(next.st) && !Flows(i) && !SetsStatus(i) && !Charges(i)
      modifies this`m, this`remaining
      ensures m == AfterRaise(i, old(m), w)
      ensures remaining == Handled(old(remaining), EffectOf(i, old(m), w, next))
    {
      match i
      case Trap(n) => TakeTrap(TRAP_BASE + n, m.core.pc);
      case TrapV => Conditional(m.core.st.ccr.v, TRAPV_TRAP, m.core.pc, m);
      case Chk(r, ea) => CheckBounds(r, ea, w);
      case Divide(ea) => DivideCheck(ea, w);
      case MoveUsp => Conditional(!m.core.st.s, PRIVILEGE_VIOLATION, m.ppc, w.after);
      case Line(vector) => TakeTrap(vector, m.ppc);
      case Other => Conditional(!w.known, ILLEGAL, m.ppc, w.after);
    }

    /** The handler of an opcode. */
    method Dispatch(i: Instr, w: World, next: Core)
      requires Encodable(i) && Sane(m) && Usable(w) && Proper(next.st) && !stopped && (i.Stop? ==> next == StopCore(m))
      modifies this`m, this`remaining, this`stopped
      ensures m == After(i, old(m), w, next)
      ensures remaining == Handled(old(remaining), EffectOf(i, old(m), w, next))
      ensures stopped ==> i.Stop? && EffectOf(i, old(m), w, next).Stopped?
    {
      if Flows(i) {
        Flow(i, w, next);
      } else if SetsStatus(i) {
        Status(i.Stop?, next);
      } else if Charges(i) {
        Charge(i, w, next);
      } else {
        Raise(i, w, next);
      }
    }

    /** Instructions that charge for the work they do. */
    method Charge(i: Instr, w: World, next: Core)
      requires Encodable(i) && Sane(m) && Usable(w) && Proper(next.st) && Charges(i)
      modifies this`m, this`remaining
      ensures m == if !i.Reset? then w.after else if old(m).core.st.s then old(m) else Violated(old(m))
      ensures remaining == Handled(old(remaining), EffectOf(i, old(m), w, next))
    {
      match i
      case Multiply(ea, signed) =>
        MultiplyCycles(OperandOf(ea, m, w), signed);
        m := w.after;
      case ShiftImm(n) =>
        UseCycles(2 * n);
        m := w.after;
      case ShiftReg(r) =>
        UseCycles(2 * (m.d[r] % 64));
        m := w.after;
      case Movem(long) =>
        MovemCycles(NextWord(m), long);
        m := w.after;
      case Reset =>
        if m.core.st.s {
          UseCycles(CYC_RESET);
        } else {
          TakeTrap(PRIVILEGE_VIOLATION, m.ppc);
        }
    }

    /** One turn of the loop: fetch, handler, the opcode's own cycles. */
    method Turn(w: World)
      requires Sane(m) && Usable(w) && !stopped
      modifies this`m, this`remaining, this`stopped
      ensures Sane(m)
      ensures m == Turned(old(m), w) && remaining == Charged(old(remaining), old(m), w)
      ensures remaining <= old(remaining) - 6 || remaining <= 0
      ensures stopped || old(remaining) <= 0 ==> remaining <= 0
    {
      var ir := NextWord(m);
      m := Fetched(m);
      Step(DecodeOp(ir), w, NextCore(DecodeOp(ir), m, w));
    }

    method NextTurn(w: World)
      requires Sane(m) && Usable(w) && !stopped
      modifies this`m, this`remaining, this`stopped
      ensures Sane(m) && m == TheTurn()(old(m), w) && remaining == TheCharge()(old(remaining), old(m), w)
      ensures remaining <= old(remaining) - 6 || remaining <= 0
      ensures stopped || old(remaining) <= 0 ==> remaining <= 0
    {
      Turn(w);
    }

    method Step(i: Instr, w: World, next: Core)
      requires Encodable(i) && Sane(m) && Usable(w) && Proper(next.st) && !stopped && (i.Stop? ==> next == StopCore(m))
      modifies this`m, this`remaining, this`stopped
      ensures Sane(m) && m == After(i, old(m), w, next)
      ensures remaining == Handled(old(remaining), EffectOf(i, old(m), w, next)) - CYC_INSTRUCTION
      ensures remaining <= old(remaining) - 6 || remaining <= 0
      ensures stopped || old(remaining) <= 0 ==> remaining <= 0
    {
      TurnCost(remaining, i, m, w, next);
      Dispatch(i, w, next);
      UseCycles(CYC_INSTRUCTION);
    }

    /** m68k_execute, over whatever the rest of the machine supplies turn by turn. */
    method Execute(numCycles: int, world: nat -> World) returns (used: int, count: nat)
      requires Sane(m) && Supplied(world)
      modifies this
      ensures Sane(m) && resetCycles == 0
      ensures old(resetCycles) > 0 && numCycles <= old(resetCycles) ==>
                used == old(resetCycles) && count == 0 && m == old(m)
      ensures old(resetCycles) == 0 || numCycles > old(resetCycles) ==>
                && Ran(numCycles - old(resetCycles), old(m), old(stopped), world, count, m, remaining)
                && remaining <= 0 && used == numCycles - old(resetCycles) - remaining
    {
      var cycles := numCycles;
      if resetCycles != 0 {
        var rc := resetCycles;
        resetCycles := 0;
        cycles := cycles - rc;
        if cycles <= 0 {
          return rc, 0;
        }
      }
      initial := cycles;
      count := Run(cycles, world);
      used := if cycles == initial then initial - remaining else cycles - initial;
    }

    method Run(cycles: int, world: nat -> World) returns (count: nat)
      requires Sane(m) && Supplied(world)
      modifies this`m, this`remaining, this`stopped
      ensures Sane(m) && remaining <= 0
      ensures Ran(cycles, old(m), old(stopped), world, count, m, remaining)
    {
      remaining, count := cycles, 0;
      CheckInterrupts();
      if !stopped && !m.halted {
        count := Work(world);
      } else {
        remaining := 0;
      }
    }

    method Work(world: nat -> World) returns (count: nat)
      requires Sane(m) && !stopped && Supplied(world)
      modifies this`m, this`remaining, this`stopped
      ensures Sane(m) && remaining <= 0 && Worked(old(remaining), old(m), world, count, m, remaining)
    {
      count := Loop(world);
      m := m.(ppc := m.core.pc);
    }

    /** The do-while loop. */
    method Loop(world: nat -> World) returns (count: nat)
      requires Sane(m) && !stopped && Supplied(world)
      modifies this`m, this`remaining, this`stopped
      ensures Sane(m) && m == Turns(old(m), world, count) && LastTurn(old(remaining), old(m), world, count)
      ensures remaining == PoolAfter(old(remaining), old(m), world, count) <= 0
      ensures count == 1 || 6 * (count - 1) < old(remaining)
    {
      ghost var start, pool := m, remaining;
      OneMore(world, 0, start, pool);
      count := 1;
      while remaining > 0
        invariant Sane(m) && count >= 1 && (stopped ==> remaining <= 0)
        invariant m == Turns(start, world, count) && remaining == PoolAfter(pool, start, world, count)
        invariant remaining > 0 <==> Lasts(pool, start, world, count)
        invariant GoesOn(pool, start, world, count)
        invariant count == 1 || 6 * (count - 1) < pool
        invariant remaining > 0 ==> remaining <= pool - 6 * count
        decreases remaining
      {
        OneMore(world, count, start, pool);
        count := count + 1;
      }
    }

    method OneMore(world: nat -> World, k: nat, ghost start: Machine, ghost pool: int)
      requires Sane(m) && !stopped && Supplied(world)
      requires m == Turns(start, world, k) && remaining == PoolAfter(pool, start, world, k)
      requires GoesOn(pool, start, world, k) && (k == 0 || remaining > 0)
      modifies this`m, this`remaining, this`stopped
      ensures Sane(m) && m == Turns(start, world, k + 1) && remaining == PoolAfter(pool, start, world, k + 1)
      ensures GoesOn(pool, start, world, k + 1) && (remaining > 0 <==> Lasts(pool, start, world, k + 1))
      ensures remaining <= old(remaining) - 6 || remaining <= 0
      ensures stopped || old(remaining) <= 0 ==> remaining <= 0
    {
      assert k > 0 ==> Lasts(pool, start, world, k);
      NextTurn(world(k));
    }
  }
}
