/** The register-count shift and rotate handlers of the 68000 core: one expression per
    count, against n repetitions of the one-bit operation. */
module M68kShift {
  import opened Arith
  import opened Bits

  // -------------------------------------------------- the one-bit operations, iterated

  datatype Op = ASL | ASR | LSL | LSR | ROL | ROR | ROXL | ROXR

  datatype Operand = Operand(value: Word, c: bool, x: bool, v: bool)

  /** One bit of movement.  out is the bit that leaves the operand. */
  function Step(op: Op, r: Operand): (s: Operand)
    requires r.value != []
    ensures |s.value| == |r.value|
  {
    var w := |r.value|;
    var left := op.ASL? || op.LSL? || op.ROL? || op.ROXL?;
    var out := if left then r.value[w - 1] else r.value[0];
    var enters := match op
      case ASL | LSL | LSR => false
      case ASR => r.value[w - 1]
      case ROL | ROR => out
      case ROXL | ROXR => r.x;
    var value := if left then [enters] + r.value[..w - 1] else r.value[1..] + [enters];
    var v := op.ASL? && (r.v || value[w - 1] != r.value[w - 1]);
    Operand(value, out, if op.ROL? || op.ROR? then r.x else out, v)
  }

  function Iterate(op: Op, r: Operand, n: nat): (s: Operand)
    requires r.value != []
    ensures |s.value| == |r.value|
  {
    if n == 0 then r else Step(op, Iterate(op, r, n - 1))
  }

  /** Before any step carry is clear, except that ROXL and ROXR show the extend bit. */
  function Start(op: Op, value: Word, x: bool): Operand {
    Operand(value, (op.ROXL? || op.ROXR?) && x, x, false)
  }

  // ------------------------------------------------------------- closed forms

  /** Bit k of src, with zeros below and above. */
  function BitOf(src: Word, k: int): bool { 0 <= k < |src| && src[k] }

  /** src moved left by n, and the bit last out. */
  ghost predicate MovedLeft(src: Word, r: Operand, n: nat) {
    && |r.value| == |src| && (forall i :: 0 <= i < |src| ==> r.value[i] == BitOf(src, i - n))
    && (n > 0 ==> r.c == r.x == BitOf(src, |src| - n))
  }

  lemma LeftStep(op: Op, src: Word, r: Operand, n: nat)
    requires src != [] && (op.ASL? || op.LSL?) && MovedLeft(src, r, n)
    ensures MovedLeft(src, Step(op, r), n + 1)
  {}

  lemma {:induction false} LeftShift(op: Op, src: Word, x: bool, n: nat)
    requires src != [] && (op.ASL? || op.LSL?)
    ensures MovedLeft(src, Iterate(op, Start(op, src, x), n), n)
    ensures n == 0 ==> !Iterate(op, Start(op, src, x), n).c && Iterate(op, Start(op, src, x), n).x == x
  {
    if n > 0 {
      LeftShift(op, src, x, n - 1);
      LeftStep(op, src, Iterate(op, Start(op, src, x), n - 1), n - 1);
    }
  }

  /** Some bit that passes through the sign position in n steps differs from the sign. */
  ghost predicate SignChanges(src: Word, n: nat)
    requires src != []
  {
    exists k :: |src| - 1 - n <= k < |src| - 1 && BitOf(src, k) != src[|src| - 1]
  }

  lemma SignChangesNext(src: Word, n: nat)
    requires src != [] && n > 0
    ensures SignChanges(src, n)
            <==> SignChanges(src, n - 1) || BitOf(src, |src| - 1 - n) != BitOf(src, |src| - n)
  {
    var w := |src|;
    if !SignChanges(src, n - 1) {
      assert BitOf(src, w - n) == src[w - 1] by { assert n > 1 ==> w - n < w - 1; }
    }
  }

  lemma {:induction false} LeftOverflow(src: Word, x: bool, n: nat)
    requires src != []
    ensures Iterate(ASL, Start(ASL, src, x), n).v <==> SignChanges(src, n)
    ensures !Iterate(LSL, Start(LSL, src, x), n).v
  {
    if n > 0 {
      LeftOverflow(src, x, n - 1);
      SignAfter(src, x, n - 1);
      SignAfter(src, x, n);
      SignChangesNext(src, n);
    }
  }

  lemma SignAfter(src: Word, x: bool, n: nat)
    requires src != []
    ensures Iterate(ASL, Start(ASL, src, x), n).value[|src| - 1] == BitOf(src, |src| - 1 - n)
  {
    LeftShift(ASL, src, x, n);
  }

  /** src moved right by n under copies of fill, and the bit last out. */
  ghost predicate MovedRight(src: Word, fill: bool, r: Operand, n: nat) {
    && |r.value| == |src|
    && (forall i :: 0 <= i < |src| ==> r.value[i] == if i + n < |src| then src[i + n] else fill)
    && (n > 0 ==> r.c == r.x == if n <= |src| then src[n - 1] else fill) && !r.v
  }

  lemma RightStep(op: Op, src: Word, r: Operand, n: nat)
    requires src != [] && (op.ASR? || op.LSR?)
    requires MovedRight(src, op.ASR? && src[|src| - 1], r, n)
    ensures MovedRight(src, op.ASR? && src[|src| - 1], Step(op, r), n + 1)
  {
    assert r.value[0] == if n < |src| then src[n] else op.ASR? && src[|src| - 1];
  }

  lemma {:induction false} RightShift(op: Op, src: Word, x: bool, n: nat)
    requires src != [] && (op.ASR? || op.LSR?)
    ensures MovedRight(src, op.ASR? && src[|src| - 1], Iterate(op, Start(op, src, x), n), n)
    ensures n == 0 ==> !Iterate(op, Start(op, src, x), n).c && Iterate(op, Start(op, src, x), n).x == x
  {
    if n > 0 {
      RightShift(op, src, x, n - 1);
      RightStep(op, src, Iterate(op, Start(op, src, x), n - 1), n - 1);
    }
  }

  predicate Rotates(op: Op) { op.ROL? || op.ROR? || op.ROXL? || op.ROXR? }

  /** The bits that go round: the operand, with extend on top for ROXL and ROXR. */
  function Ring(op: Op, r: Operand): Word {
    if op.ROXL? || op.ROXR? then r.value + [r.x] else r.value
  }

  /** A ring turned by n positions, n at most one full turn. */
  function Turn(op: Op, y: Word, n: nat): (t: Word)
    requires Rotates(op) && n <= |y|
    ensures |t| == |y|
    ensures forall i :: 0 <= i < |y| ==>
              t[i] == if op.ROL? || op.ROXL? then y[if i >= n then i - n else i - n + |y|]
                      else y[if i + n < |y| then i + n else i + n - |y|]
  {
    var m := |y|;
    if op.ROL? || op.ROXL? then y[m - n..] + y[..m - n] else y[n..] + y[..n]
  }

  lemma LeftOnce(y: Word, n: nat)
    requires n < |y|
    ensures var m := |y|;
            var t := y[m - n..] + y[..m - n];
            t[m - 1..] + t[..m - 1] == y[m - n - 1..] + y[..m - n - 1]
  {
    var m := |y|;
    var t := y[m - n..] + y[..m - n];
    assert t[m - 1] == y[m - n - 1];
    assert t[..m - 1] == y[m - n..] + y[..m - n - 1];
  }

  lemma RightOnce(y: Word, n: nat)
    requires n < |y|
    ensures var t := y[n..] + y[..n];
            t[1..] + t[..1] == y[n + 1..] + y[..n + 1]
  {
    var t := y[n..] + y[..n];
    assert t[0] == y[n];
    assert t[1..] == y[n + 1..] + y[..n];
  }

  lemma TurnOnce(op: Op, y: Word, n: nat)
    requires Rotates(op) && n < |y|
    ensures Turn(op, Turn(op, y, n), 1) == Turn(op, y, n + 1)
  {
    if op.ROL? || op.ROXL? {
      LeftOnce(y, n);
    } else {
      RightOnce(y, n);
    }
  }

  lemma TurnWhole(op: Op, y: Word)
    requires Rotates(op)
    ensures Turn(op, y, 0) == Turn(op, y, |y|) == y
  {}

  lemma RingStep(op: Op, r: Operand)
    requires r.value != [] && Rotates(op)
    ensures Ring(op, Step(op, r)) == Turn(op, Ring(op, r), 1)
  {}

  /** One more step turns the ring one position further. */
  lemma NextTurn(op: Op, r: Operand, s: Operand, y: Word, n: nat, next: nat)
    requires r.value != [] && Rotates(op) && s == Step(op, r)
    requires n < |y| && Ring(op, r) == Turn(op, y, n) && next == if n + 1 == |y| then 0 else n + 1
    ensures Ring(op, s) == Turn(op, y, next)
  {
    RingStep(op, r);
    TurnOnce(op, y, n);
    TurnWhole(op, y);
  }

  /** Whole turns change nothing: 8, 16, 32 steps, or 9, 17, 33 through extend. */
  lemma {:induction false} FullTurns(op: Op, r: Operand, n: nat)
    requires r.value != [] && Rotates(op)
    ensures Ring(op, Iterate(op, r, n)) == Turn(op, Ring(op, r), Fold(n, |Ring(op, r)|))
  {
    var y := Ring(op, r);
    if n == 0 {
      TurnWhole(op, y);
    } else {
      FullTurns(op, r, n - 1);
      FoldNext(n - 1, |y|);
      NextTurn(op, Iterate(op, r, n - 1), Iterate(op, r, n), y, Fold(n - 1, |y|), Fold(n, |y|));
    }
  }

  /** The bit last moved: into the other end of the operand, or into extend. */
  lemma RotateCarry(op: Op, src: Word, x: bool, n: nat)
    requires src != [] && Rotates(op)
    ensures var r := Iterate(op, Start(op, src, x), n);
            && (op.ROL? ==> r.c == (n > 0 && r.value[0]) && r.x == x)
            && (op.ROR? ==> r.c == (n > 0 && r.value[|src| - 1]) && r.x == x)
            && (op.ROXL? || op.ROXR? ==> r.c == r.x) && !r.v
  {
    if n > 0 { RotateCarry(op, src, x, n - 1); }
  }

  // ------------------------------------------------------------------ the handlers

  predicate IsWidth(w: nat) { w == 8 || w == 16 || w == 32 }

  /** m68ki_shift_8/16/32_table[k]: the k top bits of the width, all of them from k = w on. */
  function TopBits(w: nat, k: nat): (t: uint)
    requires w <= 32
    ensures forall i :: 0 <= i < 32 ==> t[i] == (w - k <= i < w)
  {
    seq(32, i => w - k <= i < w)
  }

  /** The handlers' word for the last bit out on the right: bit 8 is the bit below the count. */
  function RightCarry(w: nat, src: uint, shift: nat): (c: uint)
    requires IsWidth(w) && 0 < shift <= 32 && (w == 8 ==> shift <= 8)
    ensures c[8] == src[shift - 1]
  {
    if w == 8 then Shl(src, 9 - shift) else Shl(Shr(src, shift - 1), 8)
  }

  /** And on the left: bit 8 is bit w - shift. */
  function LeftCarry(w: nat, src: uint, shift: nat): (c: uint)
    requires IsWidth(w) && 0 < shift <= w
    ensures c[8] == src[w - shift]
  {
    if w == 8 then Shl(src, shift) else if w == 16 then Shr(Shl(src, shift), 8)
    else Shl(Shr(src, 32 - shift), 8)
  }

  /** What is left of the operand when the whole width moves out on the left, in bit 0. */
  function LastOut(w: nat, src: uint, shift: nat): (c: uint)
    requires IsWidth(w) && shift >= w
    ensures c[0] == (shift == w && src[0])
  {
    if shift == w then Below(src, 1) else Zero(32)
  }

  /** The ASL handlers' V: the top shift + 1 bits of the operand are not all equal, or
      anything at all is lost when the whole width moves out. */
  function OverflowWord(w: nat, src: uint, shift: nat): (v: uint)
    requires IsWidth(w)
  {
    var top := TopBits(w, shift + 1);
    var masked := And(src, top);
    Flag(32, 7, if shift < w then !(IsZero(masked) || masked == top) else !IsZero(src))
  }

  /** DX & 0x3f. */
  function Count(dx: uint): (n: nat)
    ensures n < 64
  {
    NumberBound(dx[..6], 64);
    Number(dx[..6])
  }

  function Widen(a: uint): (r: Word)
    ensures |r| == 64 && r[..32] == a && forall i :: 32 <= i < 64 ==> !r[i]
  {
    a + Zero(32)
  }

  /** An operand in the low bits of a clear word. */
  function Padded(value: Word): (r: uint)
    requires |value| <= 32
    ensures forall i :: 0 <= i < 32 ==> r[i] == (i < |value| && value[i])
  {
    seq(32, i requires 0 <= i < 32 => i < |value| && value[i])
  }

  /** The operand an instruction of w bits sees in a register. */
  function Low(dy: Word, w: nat): (value: Word)
    requires w <= |dy|
    ensures |value| == w && forall i :: 0 <= i < w ==> value[i] == dy[i]
  {
    seq(w, i requires 0 <= i < w => dy[i])
  }

  /** A register whose low bits are replaced. */
  function Merge(value: Word, dy: uint): (r: uint)
    requires |value| <= 32
    ensures forall i :: 0 <= i < 32 ==> r[i] == if i < |value| then value[i] else dy[i]
  {
    seq(32, i requires 0 <= i < 32 => if i < |value| then value[i] else dy[i])
  }

  /** Writing it back below the kept upper bits, and its N and Z as the handlers take them. */
  lemma PaddedFacts(value: Word, dy: uint)
    requires IsWidth(|value|)
    ensures Or(Above(dy, |value|), Padded(value)) == Merge(value, dy)
    ensures Shr(Padded(value), |value| - 8)[7] == value[|value| - 1]
    ensures Truth(Padded(value)) == Truth(value)
  {
    if IsZero(Padded(value)) {
      forall i | 0 <= i < |value| ensures !value[i] { assert !Padded(value)[i]; }
    }
  }

  /** Low bits all clear or all set. */
  lemma FilledFacts(value: Word, dy: uint, ones: bool)
    requires IsWidth(|value|) && forall i :: 0 <= i < |value| ==> value[i] == ones
    ensures (if ones then Or(dy, TopBits(|value|, |value|)) else Above(dy, |value|)) == Merge(value, dy)
    ensures Truth(value) == if ones then 1 else 0
    ensures Truth(ZFLAG_CLEAR) == 1 && Truth(CLEAR) == 0
  {
    assert ones ==> value[0];
    assert ZFLAG_CLEAR[0];
  }

  /** Count zero: the register stays. */
  lemma KeptFacts(dy: uint, w: nat)
    requires IsWidth(w)
    ensures Merge(Low(dy, w), dy) == dy && Below(dy, w) == Padded(Low(dy, w))
    ensures Shr(Below(dy, w), w - 8)[7] == dy[w - 1] && Truth(Below(dy, w)) == Truth(Low(dy, w))
  {
    assert Below(dy, w) == Padded(Low(dy, w));
    PaddedFacts(Low(dy, w), dy);
  }

  /** The table-driven comparison asks whether the sign changes on the way. */
  lemma OverflowMask(dy: uint, w: nat, shift: nat)
    requires IsWidth(w) && shift > 0
    ensures OverflowWord(w, Below(dy, w), shift)[7] <==> SignChanges(Low(dy, w), shift)
  {
    var src, sign := Below(dy, w), dy[w - 1];
    var masked, top := And(src, TopBits(w, shift + 1)), TopBits(w, shift + 1);
    if k :| w - 1 - shift <= k < w - 1 && BitOf(Low(dy, w), k) != sign {
      assert src[w - 1] == masked[w - 1] == sign && top[w - 1];
      if k >= 0 { assert masked[k] == BitOf(Low(dy, w), k) && top[k]; }
    } else {
      assert forall k :: w - 1 - shift <= k < w - 1 ==> BitOf(Low(dy, w), k) == sign;
      if shift < w {
        assert masked == if sign then top else Zero(32) by {
          forall i | 0 <= i < 32 ensures masked[i] == (sign && top[i]) {
            assert w - 1 - shift <= i < w - 1 ==> BitOf(Low(dy, w), i) == sign;
          }
        }
      } else {
        assert BitOf(Low(dy, w), -1) == sign;
        forall i | 0 <= i < 32 ensures !src[i] {
          assert i < w - 1 ==> BitOf(Low(dy, w), i) == sign;
        }
      }
    }
  }
  /** The left shifts in the handlers' words. */
  lemma LeftWord(dy: uint, w: nat, o: Operand, shift: nat)
    requires IsWidth(w) && shift > 0 && MovedLeft(Low(dy, w), o, shift)
    ensures Below(Shl(Below(dy, w), shift), w) == Padded(o.value)
    ensures forall i :: 0 <= i < w && i < shift ==> !o.value[i]
    ensures o.c == o.x == (shift <= w && Below(dy, w)[w - shift])
  {
    var moved, padded := Below(Shl(Below(dy, w), shift), w), Padded(o.value);
    forall i | 0 <= i < 32
      ensures moved[i] == padded[i]
    {
      assert i < w ==> o.value[i] == BitOf(Low(dy, w), i - shift);
    }
  }

  lemma LeftOutcome(op: Op, dy: uint, w: nat, x: bool, shift: nat)
    requires IsWidth(w) && shift > 0 && (op.ASL? || op.LSL?)
    ensures var src, o := Below(dy, w), Iterate(op, Start(op, Low(dy, w), x), shift);
            && Below(Shl(src, shift), w) == Padded(o.value)
            && (forall i :: 0 <= i < w && i < shift ==> !o.value[i])
            && o.c == o.x == (shift <= w && src[w - shift])
            && o.v == (op.ASL? && OverflowWord(w, src, shift)[7])
  {
    LeftShift(op, Low(dy, w), x, shift);
    LeftWord(dy, w, Iterate(op, Start(op, Low(dy, w), x), shift), shift);
    LeftOverflow(Low(dy, w), x, shift);
    OverflowMask(dy, w, shift);
  }

  /** The right shifts. */
  lemma RightWord(dy: uint, w: nat, o: Operand, fill: bool, shift: nat)
    requires IsWidth(w) && shift > 0 && MovedRight(Low(dy, w), fill, o, shift)
    ensures Padded(o.value)
            == if fill then Or(Shr(Below(dy, w), shift), TopBits(w, shift)) else Shr(Below(dy, w), shift)
    ensures forall i :: 0 <= i < w && i + shift >= w ==> o.value[i] == fill
    ensures o.c == o.x == if shift <= w then Below(dy, w)[shift - 1] else fill
  {
    var src := Below(dy, w);
    var moved, padded := if fill then Or(Shr(src, shift), TopBits(w, shift)) else Shr(src, shift), Padded(o.value);
    forall i | 0 <= i < 32
      ensures moved[i] == padded[i]
    {
      assert i < w ==> o.value[i] == if i + shift < w then src[i + shift] else fill;
    }
  }

  lemma RightOutcome(op: Op, dy: uint, w: nat, x: bool, shift: nat)
    requires IsWidth(w) && shift > 0 && (op.ASR? || op.LSR?)
    ensures var src, o := Below(dy, w), Iterate(op, Start(op, Low(dy, w), x), shift);
            var fill := op.ASR? && src[w - 1];
            && Padded(o.value) == (if fill then Or(Shr(src, shift), TopBits(w, shift)) else Shr(src, shift))
            && (forall i :: 0 <= i < w && i + shift >= w ==> o.value[i] == fill)
            && o.c == o.x == (if shift <= w then src[shift - 1] else fill) && !o.v
  {
    RightShift(op, Low(dy, w), x, shift);
    RightWord(dy, w, Iterate(op, Start(op, Low(dy, w), x), shift), op.ASR? && dy[w - 1], shift);
  }

  /** Rotates without extend: counts repeat with the width, and carry is the bit last moved. */
  lemma RotateOutcome(op: Op, dy: uint, w: nat, x: bool, n: nat)
    requires IsWidth(w) && (op.ROL? || op.ROR?)
    ensures var o := Iterate(op, Start(op, Low(dy, w), x), n);
            && o.value == Turn(op, Low(dy, w), Fold(n, w)) && o.x == x && !o.v
            && o.c == (n > 0 && o.value[if op.ROL? then 0 else w - 1])
  {
    FullTurns(op, Start(op, Low(dy, w), x), n);
    RotateCarry(op, Low(dy, w), x, n);
  }

  /** Rotates through extend: operand and extend turn together, and carry follows extend. */
  lemma ExtendOutcome(op: Op, dy: uint, w: nat, x: bool, n: nat)
    requires IsWidth(w) && (op.ROXL? || op.ROXR?)
    ensures var o := Iterate(op, Start(op, Low(dy, w), x), n);
            && o.value + [o.x] == Turn(op, Low(dy, w) + [x], Fold(n, w + 1))
            && o.c == o.x && !o.v
  {
    FullTurns(op, Start(op, Low(dy, w), x), n);
    RotateCarry(op, Low(dy, w), x, n);
  }

  /** ROL_8, ROL_16, and ROL_32 of a 64-bit operand. */
  function RolWord(w: nat, src: uint, s: nat): (r: uint)
    requires IsWidth(w) && s < w && src == Below(src, w)
    ensures r == Padded(Turn(ROL, Low(src, w), s))
  {
    if w < 32 then Below(Or(Shl(src, s), Shr(src, w - s)), w) else RolLong(src, s)
  }

  function RolLong(src: uint, s: nat): (r: uint)
    requires s < 32
    ensures r == Padded(Turn(ROL, Low(src, 32), s))
  {
    var a := Widen(src);
    Low(Below(Or(Shl(a, s), if 32 - s < 32 then Shr(a, 32 - s) else Zero(64)), 32), 32)
  }

  /** ROR_8, ROR_16, and ROR_32 of a 64-bit operand. */
  function RorWord(w: nat, src: uint, s: nat): (r: uint)
    requires IsWidth(w) && s < w && src == Below(src, w)
    ensures r == Padded(Turn(ROR, Low(src, w), s))
  {
    if w < 32 then Below(Or(Shr(src, s), Shl(src, w - s)), w) else RorLong(src, s)
  }

  function RorLong(src: uint, s: nat): (r: uint)
    requires s < 32
    ensures r == Padded(Turn(ROR, Low(src, 32), s))
  {
    var a := Widen(src);
    Low(Below(Or(Shr(a, s), if 32 - s < 32 then Shl(a, 32 - s) else Zero(64)), 32), 32)
  }

  /** ROL's carry word: bit 8 is the bit that entered below. */
  function RolCarry(w: nat, src: uint, s: nat): (c: uint)
    requires IsWidth(w) && s < w
    ensures c[8] == Turn(ROL, Low(src, w), s)[0]
  {
    if w == 32 then Shl(Shr(src, if s == 0 then 0 else 32 - s), 8)   // (32 - s) & 31
    else if s != 0 then LeftCarry(w, src, s)
    else Shl(Below(src, 1), 8)
  }

  /** ROR's carry word: bit 8 is the bit that entered above. */
  function RorCarry(w: nat, src: uint, s: nat): (c: uint)
    requires IsWidth(w) && s < w
    ensures c[8] == Turn(ROR, Low(src, w), s)[w - 1]
  {
    var last := if s == 0 then w - 1 else s - 1;   // (s - 1) & (w - 1)
    if w == 8 then Shl(src, 8 - last) else Shl(Shr(src, last), 8)
  }

  /** src | (XFLAG_AS_1() << w), in 64 bits for the long form. */
  function Extended(w: nat, src: uint, x: uint): (v: Word)
    requires IsWidth(w) && src == Below(src, w)
    ensures |v| == if w == 32 then 64 else 32
    ensures Low(v, w + 1) == Low(src, w) + [x[8]] && v == Below(v, w + 1)
  {
    var bit := Below(Shr(x, 8), 1);
    if w < 32 then Or(src, Shl(bit, w)) else Or(Widen(src), Shl(Widen(bit), 32))
  }

  /** ROL_9, ROL_17, ROL_33_64: what lies above the ring is left over. */
  function RolExtended(w: nat, v: Word, s: nat): (r: Word)
    requires s <= w < |v| && v == Below(v, w + 1)
    ensures |r| == |v| && Low(r, w + 1) == Turn(ROXL, Low(v, w + 1), s)
  {
    Or(Shl(v, s), Shr(v, w + 1 - s))
  }

  /** ROR_9, ROR_17, ROR_33_64. */
  function RorExtended(w: nat, v: Word, s: nat): (r: Word)
    requires s <= w < |v| && v == Below(v, w + 1)
    ensures |r| == |v| && Low(r, w + 1) == Turn(ROXR, Low(v, w + 1), s)
  {
    Or(Shr(v, s), Shl(v, w + 1 - s))
  }

  function Extend(op: Op, w: nat, dst: uint, x: uint, s: nat): (r: Word)
    requires IsWidth(w) && s <= w && (op.ROXL? || op.ROXR?)
    ensures |r| == if w == 32 then 64 else 32
    ensures Low(r, w + 1) == Turn(op, Low(dst, w) + [x[8]], s)
  {
    assert Low(Below(dst, w), w) == Low(dst, w);
    var v := Extended(w, Below(dst, w), x);
    if op.ROXL? then RolExtended(w, v, s) else RorExtended(w, v, s)
  }

  /** The carry word of a rotate through extend: bit 8 is the bit above the operand. */
  function ExtendCarry(w: nat, res: Word): (c: uint)
    requires IsWidth(w) && |res| == if w == 32 then 64 else 32
    ensures c[8] == res[w]
  {
    if w == 8 then res else if w == 16 then Shr(res, 8) else Low(Shr(res, 24), 32)
  }

  lemma ExtendedFacts(op: Op, dst: uint, w: nat, x: bool, n: nat, res: Word)
    requires IsWidth(w) && (op.ROXL? || op.ROXR?) && 32 <= |res| && w < |res|
    requires Low(res, w + 1) == Turn(op, Low(dst, w) + [x], Fold(n, w + 1))
    ensures var o := Iterate(op, Start(op, Low(dst, w), x), n);
            && o.c == o.x == res[w] && !o.v && Low(Below(res, w), 32) == Padded(o.value)
            && Or(Above(dst, w), Padded(o.value)) == Merge(o.value, dst)
            && Shr(Padded(o.value), w - 8)[7] == o.value[w - 1] && Truth(Padded(o.value)) == Truth(o.value)
  {
    ExtendOutcome(op, dst, w, x, n);
    var o := Iterate(op, Start(op, Low(dst, w), x), n);
    PaddedFacts(o.value, dst);
    RingParts(res, w, o.value, o.x);
  }

  lemma RingParts(res: Word, w: nat, value: Word, x: bool)
    requires |value| == w <= 32 <= |res| && w < |res| && Low(res, w + 1) == value + [x]
    ensures res[w] == x && Low(Below(res, w), 32) == Padded(value)
  {
    assert Low(res, w + 1)[w] == x;
    forall i | 0 <= i < w ensures res[i] == value[i] { assert Low(res, w + 1)[i] == value[i]; }
  }

  const CLEAR: uint := Zero(32)
  const NFLAG_SET: uint := Flag(32, 7, true)
  const ZFLAG_CLEAR: uint := Ones(32)   // any word but zero

  /** A register and the five lazy flags as a handler leaves them. */
  datatype Result = Result(dst: uint, x: uint, n: uint, z: uint, v: uint, c: uint)

  /** The result lies in the low bits of the register, the upper bits stay, and the lazy
      flags read as the operand says: X and C in bit 8, N and V in bit 7, Z inverted. */
  ghost predicate Shows(r: Result, o: Operand, dst: uint) {
    && 8 <= |o.value| <= 32 && r.dst == Merge(o.value, dst)
    && r.x[8] == o.x && r.c[8] == o.c && r.v[7] == o.v
    && r.n[7] == o.value[|o.value| - 1] && Truth(r.z) == Truth(o.value)
  }

  /** What n one-bit operations make of the low w bits. */
  ghost function Repeated(op: Op, w: nat, dst: uint, x: uint, n: nat): (o: Operand)
    requires IsWidth(w)
  {
    Iterate(op, Start(op, Low(dst, w), x[8]), n)
  }

  /** A moved operand, masked in below the kept upper bits, N and Z taken from it. */
  lemma MovedShows(o: Operand, dst: uint, w: nat, res: uint, x: uint, v: uint, c: uint)
    requires IsWidth(w) && |o.value| == w && res == Padded(o.value)
    requires x[8] == o.x && v[7] == o.v && c[8] == o.c
    ensures Shows(Result(Or(Above(dst, w), res), x, Shr(res, w - 8), res, v, c), o, dst)
  {
    PaddedFacts(o.value, dst);
  }

  /** Nothing moved: the register stays, N and Z describe it. */
  lemma UnmovedShows(o: Operand, dst: uint, w: nat, x: uint, c: uint)
    requires IsWidth(w) && o.value == Low(dst, w) && !o.v && x[8] == o.x && c[8] == o.c
    ensures Shows(Result(dst, x, Shr(Below(dst, w), w - 8), Below(dst, w), CLEAR, c), o, dst)
    ensures Shows(Result(dst, x, Shr(dst, w - 8), Below(dst, w), CLEAR, c), o, dst)
  {
    KeptFacts(dst, w);
  }

  /** Only copies of the sign are left. */
  lemma FilledShows(o: Operand, dst: uint, w: nat, ones: bool, c: uint)
    requires IsWidth(w) && |o.value| == w && (forall i :: 0 <= i < w ==> o.value[i] == ones)
    requires !o.v && o.x == o.c == c[8]
    ensures ones ==> Shows(Result(Or(dst, TopBits(w, w)), c, NFLAG_SET, ZFLAG_CLEAR, CLEAR, c), o, dst)
    ensures !ones ==> Shows(Result(Above(dst, w), c, CLEAR, CLEAR, CLEAR, c), o, dst)
  {
    FilledFacts(o.value, dst, ones);
  }

  method Asr(w: nat, dst: uint, x: uint, shift: nat) returns (r: Result)
    requires IsWidth(w) && shift < 64
    ensures Shows(r, Repeated(ASR, w, dst, x, shift), dst)
  {
    var src := Below(dst, w);
    var res := Shr(src, shift);
    if shift != 0 {
      RightOutcome(ASR, dst, w, x[8], shift);
      if shift < w {
        if src[w - 1] {
          res := Or(res, TopBits(w, shift));
        }
        var c := RightCarry(w, src, shift);
        MovedShows(Repeated(ASR, w, dst, x, shift), dst, w, res, c, CLEAR, c);
        return Result(Or(Above(dst, w), res), c, Shr(res, w - 8), res, CLEAR, c);
      }
      if src[w - 1] {
        var c := Flag(32, 8, true);
        FilledShows(Repeated(ASR, w, dst, x, shift), dst, w, true, c);
        return Result(Or(dst, TopBits(w, w)), c, NFLAG_SET, ZFLAG_CLEAR, CLEAR, c);
      }
      FilledShows(Repeated(ASR, w, dst, x, shift), dst, w, false, CLEAR);
      return Result(Above(dst, w), CLEAR, CLEAR, CLEAR, CLEAR, CLEAR);
    }
    UnmovedShows(Repeated(ASR, w, dst, x, 0), dst, w, x, CLEAR);
    return Result(dst, x, Shr(src, w - 8), src, CLEAR, CLEAR);
  }

  method Asl(w: nat, dst: uint, x: uint, shift: nat) returns (r: Result)
    requires IsWidth(w) && shift < 64
    ensures Shows(r, Repeated(ASL, w, dst, x, shift), dst)
  {
    var src := Below(dst, w);
    var res := Below(Shl(src, shift), w);
    if shift != 0 {
      LeftOutcome(ASL, dst, w, x[8], shift);
      if shift < w {
        var c := LeftCarry(w, src, shift);
        MovedShows(Repeated(ASL, w, dst, x, shift), dst, w, res, c, OverflowWord(w, src, shift), c);
        return Result(Or(Above(dst, w), res), c, Shr(res, w - 8), res, OverflowWord(w, src, shift), c);
      }
      FilledFacts(Repeated(ASL, w, dst, x, shift).value, dst, false);
      var c := Shl(LastOut(w, src, shift), 8);
      return Result(Above(dst, w), c, CLEAR, CLEAR, OverflowWord(w, src, shift), c);
    }
    UnmovedShows(Repeated(ASL, w, dst, x, 0), dst, w, x, CLEAR);
    return Result(dst, x, Shr(src, w - 8), src, CLEAR, CLEAR);
  }

  method Lsr(w: nat, dst: uint, x: uint, shift: nat) returns (r: Result)
    requires IsWidth(w) && shift < 64
    ensures Shows(r, Repeated(LSR, w, dst, x, shift), dst)
  {
    var src := Below(dst, w);
    var res := Shr(src, shift);
    if shift != 0 {
      RightOutcome(LSR, dst, w, x[8], shift);
      if shift <= w && shift < 32 {
        var c := RightCarry(w, src, shift);
        PaddedFacts(Repeated(LSR, w, dst, x, shift).value, dst);
        return Result(Or(Above(dst, w), res), c, CLEAR, res, CLEAR, c);
      }
      FilledFacts(Repeated(LSR, w, dst, x, shift).value, dst, false);
      var c := if w == 32 && shift == 32 then Shr(And(src, Flag(32, 31, true)), 23) else CLEAR;
      return Result(Above(dst, w), c, CLEAR, CLEAR, CLEAR, c);
    }
    UnmovedShows(Repeated(LSR, w, dst, x, 0), dst, w, x, CLEAR);
    return Result(dst, x, Shr(src, w - 8), src, CLEAR, CLEAR);
  }

  method Lsl(w: nat, dst: uint, x: uint, shift: nat) returns (r: Result)
    requires IsWidth(w) && shift < 64
    ensures Shows(r, Repeated(LSL, w, dst, x, shift), dst)
  {
    var src := Below(dst, w);
    var res := Below(Shl(src, shift), w);
    if shift != 0 {
      LeftOutcome(LSL, dst, w, x[8], shift);
      if shift <= w && shift < 32 {
        var c := LeftCarry(w, src, shift);
        MovedShows(Repeated(LSL, w, dst, x, shift), dst, w, res, c, CLEAR, c);
        return Result(Or(Above(dst, w), res), c, Shr(res, w - 8), res, CLEAR, c);
      }
      FilledFacts(Repeated(LSL, w, dst, x, shift).value, dst, false);
      var c := if w == 32 then Shl(LastOut(w, src, shift), 8) else CLEAR;
      return Result(Above(dst, w), c, CLEAR, CLEAR, CLEAR, c);
    }
    UnmovedShows(Repeated(LSL, w, dst, x, 0), dst, w, x, CLEAR);
    return Result(dst, x, Shr(src, w - 8), src, CLEAR, CLEAR);
  }

  /** ROL by a count that is not zero: word and carry word of the reduced count. */
  lemma RolFacts(w: nat, dst: uint, o: Operand, x: bool, s: nat)
    requires IsWidth(w) && s < w && |o.value| == w && o.value == Turn(ROL, Low(dst, w), s)
    requires o.x == x && !o.v && o.c == o.value[0]
    ensures RolWord(w, Below(dst, w), s) == Padded(o.value) && RolCarry(w, Below(dst, w), s)[8] == o.c
    ensures s == 0 ==> o.value == Low(dst, w)
  {
    assert Low(Below(dst, w), w) == Low(dst, w);
  }

  method Rol(w: nat, dst: uint, x: uint, count: nat) returns (r: Result)
    requires IsWidth(w) && count < 64
    ensures Shows(r, Repeated(ROL, w, dst, x, count), dst)
  {
    var shift, src := Fold(count, w), Below(dst, w);   // count & (w - 1)
    ghost var o := Repeated(ROL, w, dst, x, count);
    RotateOutcome(ROL, dst, w, x[8], count);
    if count != 0 {
      RolFacts(w, dst, o, x[8], shift);
      var c := RolCarry(w, src, shift);
      if w == 32 || shift != 0 {
        var res := RolWord(w, src, shift);
        MovedShows(o, dst, w, res, x, CLEAR, c);
        return Result(Or(Above(dst, w), res), x, Shr(res, w - 8), res, CLEAR, c);
      }
      UnmovedShows(o, dst, w, x, c);
      return Result(dst, x, Shr(src, w - 8), src, CLEAR, c);
    }
    UnmovedShows(o, dst, w, x, CLEAR);
    return Result(dst, x, Shr(src, w - 8), src, CLEAR, CLEAR);
  }

  lemma LowBelow(x: uint, w: nat)
    requires IsWidth(w)
    ensures Low(Below(x, w), w) == Low(x, w)
  {
    assert Low(Below(x, w), w) == Low(x, w);
  }

  method Ror(w: nat, dst: uint, x: uint, count: nat) returns (r: Result)
    requires IsWidth(w) && count < 64
    ensures Shows(r, Repeated(ROR, w, dst, x, count), dst)
  {
    var shift, src := Fold(count, w), Below(dst, w);   // count & (w - 1)
    ghost var o := Repeated(ROR, w, dst, x, count);
    RotateOutcome(ROR, dst, w, x[8], count);
    if count != 0 {
      var res, c := RorWord(w, src, shift), RorCarry(w, src, shift);
      LowBelow(dst, w);
      MovedShows(o, dst, w, res, x, CLEAR, c);
      return Result(Or(Above(dst, w), res), x, Shr(res, w - 8), res, CLEAR, c);
    }
    UnmovedShows(o, dst, w, x, CLEAR);
    return Result(dst, x, Shr(src, w - 8), src, CLEAR, CLEAR);
  }

  /** ROXL and ROXR, alike but for the direction. */
  method Rox(op: Op, w: nat, dst: uint, x: uint, count: nat) returns (r: Result)
    requires IsWidth(w) && count < 64 && (op.ROXL? || op.ROXR?)
    ensures Shows(r, Repeated(op, w, dst, x, count), dst)
  {
    if count != 0 {
      var res := Extend(op, w, dst, x, Fold(count, w + 1));   // count % 9, 17 or 33
      var c := ExtendCarry(w, res);
      ExtendedFacts(op, dst, w, x[8], count, res);
      res := Low(Below(res, w), 32);
      MovedShows(Repeated(op, w, dst, x, count), dst, w, res, c, CLEAR, c);
      return Result(Or(Above(dst, w), res), c, Shr(res, w - 8), res, CLEAR, c);
    }
    UnmovedShows(Repeated(op, w, dst, x, 0), dst, w, x, x);
    return Result(dst, x, Shr(dst, w - 8), Below(dst, w), CLEAR, x);
  }

  class Registers {
    const d: array<uint>
    var x: uint
    var n: uint
    var z: uint
    var v: uint
    var c: uint

    constructor ()
      ensures d.Length == 8
    {
      d := new uint[8](_ => CLEAR);
      x, n, z, v, c := CLEAR, CLEAR, CLEAR, CLEAR, CLEAR;
    }

    /** A register-count handler: Dx counts, Dy and the flags take the result. */
    method Shift(op: Op, w: nat, dx: nat, dy: nat)
      requires d.Length == 8 && dx < 8 && dy < 8 && IsWidth(w)
      modifies this, d
      ensures d[..] == old(d[..])[dy := d[dy]]
      ensures Shows(Result(d[dy], x, n, z, v, c),
                    Repeated(op, w, old(d[dy]), old(x), Count(old(d[dx]))), old(d[dy]))
    {
      var shift := Count(d[dx]);
      var r;
      match op {
        case ASL => r := Asl(w, d[dy], x, shift);
        case ASR => r := Asr(w, d[dy], x, shift);
        case LSL => r := Lsl(w, d[dy], x, shift);
        case LSR => r := Lsr(w, d[dy], x, shift);
        case ROL => r := Rol(w, d[dy], x, shift);
        case ROR => r := Ror(w, d[dy], x, shift);
        case ROXL => r := Rox(op, w, d[dy], x, shift);
        case ROXR => r := Rox(op, w, d[dy], x, shift);
      }
      d[dy] := r.dst;
      x, n, z, v, c := r.x, r.n, r.z, r.v, r.c;
    }
  }
}
