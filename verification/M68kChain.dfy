/** ADDX, SUBX, ABCD and SBCD on memory operands: each step, and chains of them as
    multi-precision binary and decimal arithmetic. */
module M68kChain {
  import opened AddressMap
  import opened Arith
  import opened M68kMemory

  datatype Kind = Long | Bcd
  datatype Op = Add | Sub

  function Size(k: Kind): nat { if k.Long? then 4 else 1 }
  /** n operands of that size. */
  function Span(k: Kind, n: nat): nat { if k.Long? then 4 * n else n }

  function Base(k: Kind): int { if k.Long? then TWO32 else 100 }

  /** A packed byte as a number, ten for each sixteen; both digits decimal; and back. */
  function Decimal(b: byte): nat { if b < 0x10 then b as nat else 10 + Decimal(b - 0x10) }

  predicate IsDecimal(b: byte) { if b < 0x10 then b < 10 else b < 0xa0 && IsDecimal(b - 0x10) }

  function Packed(v: nat): (b: byte)
    requires v < 100
    ensures Decimal(b) == v && IsDecimal(b) && 10 * b as nat <= 0x10 * v
  {
    if v < 10 then v as byte else 0x10 + Packed(v - 10)
  }

  lemma {:induction false} Nibbles(b: byte)
    ensures Decimal(b) == 10 * (b as nat / 0x10) + b as nat % 0x10
    ensures IsDecimal(b) ==> b as nat / 0x10 < 10 && b as nat % 0x10 < 10
  {
    if b >= 0x10 {
      Nibbles(b - 0x10);
      assert (b as nat - 0x10) / 0x10 == b as nat / 0x10 - 1 && (b as nat - 0x10) % 0x10 == b as nat % 0x10;
    }
  }

  lemma {:induction false} PackedNibbles(v: nat)
    requires v < 100
    ensures Packed(v) as int == 0x10 * (v / 10) + v % 10
  {
    if v >= 10 {
      PackedNibbles(v - 10);
      assert (v - 10) / 10 == v / 10 - 1 && (v - 10) % 10 == v % 10;
    }
  }

  /** The digit an instruction finds at an address, and stores there. */
  function Digit(k: Kind, m: Memory, a: uint32): nat {
    if k.Long? then Read32(m, a) else Decimal(m[a])
  }

  predicate IsDigit(k: Kind, m: Memory, a: uint32) { k.Bcd? ==> IsDecimal(m[a]) }

  function Store(k: Kind, m: Memory, a: uint32, v: nat): Memory
    requires v < Base(k)
  {
    if k.Long? then Write32(m, a, v) else m[a := Packed(v)]
  }

  // ----------------------------------------------------------------------- one step

  /** What the chain instructions read and change; carry goes with extend. */
  datatype State = State(mem: Memory, a: seq<uint32>, x: bool, z: bool)

  function Carry(x: bool): int { if x then 1 else 0 }

  function Total(op: Op, src: int, dst: int, x: bool): int {
    if op.Add? then src + dst + Carry(x) else dst - src - Carry(x)
  }

  /** Totals of invalid decimal digits are reduced arbitrarily. */
  function Reduced(k: Kind, total: int): (v: nat)
    ensures v < Base(k) && (0 <= total < Base(k) ==> v == total)
  {
    if 0 <= total < Base(k) then total else 0
  }

  /** The digit of the total; it carried or borrowed when that is not the total itself. */
  function Folded(k: Kind, total: int): (v: nat)
    ensures v < Base(k)
    ensures -Base(k) <= total < 2 * Base(k) ==>
              v == if total < 0 then total + Base(k) else if total >= Base(k) then total - Base(k) else total
  {
    if total < 0 then Reduced(k, total + Base(k)) else if total >= Base(k) then Reduced(k, total - Base(k)) else total
  }

  /** Predecrement. */
  function Down(k: Kind, a: uint32): uint32 { At(a - Size(k)) }

  /** Source before destination, also when both go through one register. */
  function Step(op: Op, k: Kind, s: State, y: nat, x: nat): (t: State)
    requires |s.a| == 8 && x < 8 && y < 8
    ensures |t.a| == 8
  {
    var ay, ax := Down(k, s.a[y]), Destination(k, s.a, y, x);
    var total := Total(op, Digit(k, s.mem, ay), Digit(k, s.mem, ax), s.x);
    var v := Folded(k, total);
    State(Store(k, s.mem, ax, v), s.a[y := ay][x := ax], total != v, s.z && v == 0)
  }

  function Destination(k: Kind, a: seq<uint32>, y: nat, x: nat): uint32
    requires |a| == 8 && x < 8 && y < 8
  {
    Down(k, a[y := Down(k, a[y])][x])
  }

  /** n steps in a row. */
  function Chain(op: Op, k: Kind, s: State, y: nat, x: nat, n: nat): (t: State)
    requires |s.a| == 8 && x < 8 && y < 8
    ensures |t.a| == 8
    decreases n
  {
    if n == 0 then s else Chain(op, k, Step(op, k, s, y, x), y, x, n - 1)
  }

  // -------------------------------------------------------------------------- chains

  /** n digits below an address, the least significant highest in memory. */
  function Num(k: Kind, m: Memory, top: uint32, n: nat): int
    requires Span(k, n) <= top
    decreases n
  {
    if n == 0 then 0
    else
      Below(k, Digit(k, m, top - Size(k)), Num(k, m, top - Size(k), n - 1))
  }

  /** The base to the n. */
  function Pow(k: Kind, n: nat): int {
    if n == 0 then 1 else Below(k, 0, Pow(k, n - 1))
  }

  predicate Digits(k: Kind, m: Memory, top: uint32, n: nat)
    requires Span(k, n) <= top
    decreases n
  {
    n == 0 || (IsDigit(k, m, top - Size(k)) && Digits(k, m, top - Size(k), n - 1))
  }

  /** The source is not overwritten before it is read: it coincides with the destination,
      lies below it, or lies wholly above it. */
  predicate Readable(k: Kind, ay: uint32, ax: uint32, n: nat) {
    n <= 1 || ax >= ay || ax + Span(k, n) <= ay
  }

  predicate Same(m: Memory, n: Memory, from: int, to: int) {
    forall b: uint32 :: from <= b < to ==> m[b] == n[b]
  }

  lemma DigitSame(k: Kind, m: Memory, n: Memory, a: uint32)
    requires a + Size(k) <= TWO32 && Same(m, n, a, a + Size(k))
    ensures Digit(k, m, a) == Digit(k, n, a) && (IsDigit(k, m, a) <==> IsDigit(k, n, a))
  {
    if k.Long? {
      assert m[a] == n[a] && m[At(a + 1)] == n[At(a + 1)];
      assert m[At(a + 2)] == n[At(a + 2)] && m[At(a + 3)] == n[At(a + 3)];
      assert At(At(a + 2) + 1) == At(a + 3);
    }
  }

  lemma NumNext(k: Kind, m: Memory, low: uint32, n: nat)
    requires low + Size(k) < TWO32 && Span(k, n + 1) <= low + Size(k)
    ensures Num(k, m, low + Size(k), n + 1) == Below(k, Digit(k, m, low), Num(k, m, low, n))
    ensures Pow(k, n + 1) == Below(k, 0, Pow(k, n))
  {}

  lemma DigitsNext(k: Kind, m: Memory, low: uint32, n: nat)
    requires low + Size(k) < TWO32 && Span(k, n + 1) <= low + Size(k)
    ensures Digits(k, m, low + Size(k), n + 1) <==> IsDigit(k, m, low) && Digits(k, m, low, n)
  {}

  lemma {:induction false} NumSame(k: Kind, m: Memory, n: Memory, top: uint32, count: nat)
    requires Span(k, count) <= top && Same(m, n, top - Span(k, count), top)
    ensures Num(k, m, top, count) == Num(k, n, top, count)
    decreases count
  {
    if count > 0 {
      NumSame(k, m, n, top - Size(k), count - 1);
      NumSameNext(k, m, n, top - Size(k), count - 1);
    }
  }

  lemma NumSameNext(k: Kind, m: Memory, n: Memory, low: uint32, count: nat)
    requires low + Size(k) < TWO32 && Span(k, count + 1) <= low + Size(k) && Same(m, n, low, low + Size(k))
    requires Num(k, m, low, count) == Num(k, n, low, count)
    ensures Num(k, m, low + Size(k), count + 1) == Num(k, n, low + Size(k), count + 1)
  {
    DigitSame(k, m, n, low);
    NumNext(k, m, low, count);
    NumNext(k, n, low, count);
  }

  lemma {:induction false} DigitsSame(k: Kind, m: Memory, n: Memory, top: uint32, count: nat)
    requires Span(k, count) <= top && Same(m, n, top - Span(k, count), top)
    ensures Digits(k, m, top, count) <==> Digits(k, n, top, count)
    decreases count
  {
    if count > 0 {
      DigitsSame(k, m, n, top - Size(k), count - 1);
      DigitSame(k, m, n, top - Size(k));
    }
  }

  /** Storing a digit: it reads back, and only its own bytes change. */
  lemma Stored(k: Kind, m: Memory, a: uint32, v: nat)
    requires v < Base(k) && a + Size(k) <= TWO32
    ensures var n := Store(k, m, a, v);
            Digit(k, n, a) == v && IsDigit(k, n, a) && Same(m, n, 0, a) && Same(m, n, a + Size(k), TWO32)
  {}

  /** Operands of n digits below ay and ax that may be chained: no address wraps, and no
      source digit is overwritten before it is read. */
  ghost predicate Chainable(k: Kind, m: Memory, ay: uint32, ax: uint32, n: nat) {
    && Span(k, n) <= ay && Span(k, n) <= ax && Readable(k, ay, ax, n)
    && Digits(k, m, ay, n) && Digits(k, m, ax, n)
  }

  /** Memory outside the n digits below ax. */
  ghost predicate Kept(k: Kind, m: Memory, r: Memory, ax: uint32, n: nat)
    requires Span(k, n) <= ax
  {
    Same(m, r, 0, ax - Span(k, n)) && Same(m, r, ax, TWO32)
  }

  lemma DigitBound(k: Kind, m: Memory, a: uint32)
    requires IsDigit(k, m, a)
    ensures 0 <= Digit(k, m, a) < Base(k)
  {
    if k.Bcd? { Nibbles(m[a]); }
  }

  /** res and the carry (or borrow) of weight p make up the total of src and dst. */
  predicate Sums(op: Op, src: int, dst: int, x: bool, res: int, c: bool, p: int) {
    Total(op, src, dst, x) == if !c then res else if op.Add? then res + p else res - p
  }

  /** One digit below numbers that sum. */
  function Below(k: Kind, digit: int, rest: int): int { digit + if k.Long? then TWO32 * rest else 100 * rest }

  lemma SumsBelow(op: Op, k: Kind, s: int, d: int, x: bool, v: int, c: bool, src: int, dst: int, res: int, e: bool,
                  p: int)
    requires Sums(op, s, d, x, v, c, Base(k)) && Sums(op, src, dst, c, res, e, p)
    ensures Sums(op, Below(k, s, src), Below(k, d, dst), x, Below(k, v, res), e, Below(k, 0, p))
  {}

  lemma FoldedTotal(op: Op, k: Kind, src: int, dst: int, x: bool)
    requires 0 <= src < Base(k) && 0 <= dst < Base(k)
    ensures var v := Folded(k, Total(op, src, dst, x));
            Sums(op, src, dst, x, v, Total(op, src, dst, x) != v, Base(k))
  {}

  /** What a step does to the digits it meets. */
  ghost predicate Stepped(op: Op, k: Kind, s: State, ly: uint32, lx: uint32, t: State) {
    var src, dst, res := Digit(k, s.mem, ly), Digit(k, s.mem, lx), Digit(k, t.mem, lx);
    && 0 <= res < Base(k) && t.z == (s.z && res == 0) && IsDigit(k, t.mem, lx)
    && Sums(op, src, dst, s.x, res, t.x, Base(k))
  }

  /** Both address registers are lower by d, the others stay. */
  predicate MovedDown(a: seq<uint32>, b: seq<uint32>, y: nat, x: nat, d: nat) {
    && |a| == |b| == 8
    && forall i :: 0 <= i < 8 ==> b[i] == if i == x || i == y then a[i] - d else a[i]
  }

  /** A step on addresses that do not wrap. */
  lemma StepParts(op: Op, k: Kind, s: State, y: nat, x: nat, ay: uint32, ax: uint32)
    requires |s.a| == 8 && x < 8 && y < 8 && x != y
    requires s.a[y] == ay + Size(k) && s.a[x] == ax + Size(k)
    ensures var t, total := Step(op, k, s, y, x), Total(op, Digit(k, s.mem, ay), Digit(k, s.mem, ax), s.x);
            var v := Folded(k, total);
            t.mem == Store(k, s.mem, ax, v) && t.x == (total != v) && t.z == (s.z && v == 0)
    ensures MovedDown(s.a, Step(op, k, s, y, x).a, y, x, Size(k))
  {
    assert Down(k, s.a[y]) == ay && Destination(k, s.a, y, x) == ax;
  }

  lemma DigitStored(op: Op, k: Kind, s: State, ly: uint32, lx: uint32, t: State)
    requires ly + Size(k) < TWO32 && lx + Size(k) < TWO32
    requires IsDigit(k, s.mem, ly) && IsDigit(k, s.mem, lx)
    requires var total := Total(op, Digit(k, s.mem, ly), Digit(k, s.mem, lx), s.x);
             var v := Folded(k, total);
             t.mem == Store(k, s.mem, lx, v) && t.x == (total != v) && t.z == (s.z && v == 0)
    ensures Stepped(op, k, s, ly, lx, t) && Kept(k, s.mem, t.mem, lx + Size(k), 1)
  {
    var src, dst := Digit(k, s.mem, ly), Digit(k, s.mem, lx);
    DigitBound(k, s.mem, ly);
    DigitBound(k, s.mem, lx);
    FoldedTotal(op, k, src, dst, s.x);
    Stored(k, s.mem, lx, Folded(k, Total(op, src, dst, s.x)));
  }

  /** Digits below an address are out of reach of a store at one that does not overlap them. */
  lemma NumKept(k: Kind, m: Memory, r: Memory, ax: uint32, top: uint32, n: nat)
    requires Span(k, n) <= top && Same(m, r, 0, ax) && Same(m, r, ax + Size(k), TWO32)
    requires n == 0 || top <= ax || ax + Size(k) <= top - Span(k, n)
    ensures Num(k, m, top, n) == Num(k, r, top, n) && (Digits(k, m, top, n) <==> Digits(k, r, top, n))
  {
    if n > 0 {
      NumSame(k, m, r, top, n);
      DigitsSame(k, m, r, top, n);
    }
  }

  /** The other digits of both operands, as numbers and as digits, after the first store. */
  ghost predicate Others(k: Kind, m: Memory, r: Memory, ay: uint32, ax: uint32, n: nat)
    requires Span(k, n) <= ay && Span(k, n) <= ax
  {
    && Num(k, r, ay, n) == Num(k, m, ay, n) && Num(k, r, ax, n) == Num(k, m, ax, n)
    && (Digits(k, r, ay, n) <==> Digits(k, m, ay, n)) && (Digits(k, r, ax, n) <==> Digits(k, m, ax, n))
  }

  /** The digits above ly and lx are the first of n + 1 in each operand. */
  predicate FirstOf(k: Kind, ly: uint32, lx: uint32, n: nat) {
    ly + Size(k) < TWO32 && lx + Size(k) < TWO32 && Span(k, n) <= ly && Span(k, n) <= lx
  }

  lemma SourceKept(k: Kind, m: Memory, r: Memory, ly: uint32, lx: uint32, n: nat)
    requires FirstOf(k, ly, lx, n) && Readable(k, ly + Size(k), lx + Size(k), n + 1)
    requires Kept(k, m, r, lx + Size(k), 1)
    ensures Num(k, r, ly, n) == Num(k, m, ly, n)
    ensures Digits(k, r, ly, n) <==> Digits(k, m, ly, n)
  {
    NumKept(k, m, r, lx, ly, n);
  }

  lemma OthersKept(k: Kind, m: Memory, r: Memory, ly: uint32, lx: uint32, n: nat)
    requires FirstOf(k, ly, lx, n) && Readable(k, ly + Size(k), lx + Size(k), n + 1)
    requires Kept(k, m, r, lx + Size(k), 1)
    ensures Others(k, m, r, ly, lx, n)
  {
    SourceKept(k, m, r, ly, lx, n);
    SourceKept(k, m, r, lx, lx, n);
  }

  lemma StillChainable(k: Kind, m: Memory, r: Memory, ly: uint32, lx: uint32, n: nat)
    requires FirstOf(k, ly, lx, n) && Chainable(k, m, ly + Size(k), lx + Size(k), n + 1)
    requires Kept(k, m, r, lx + Size(k), 1)
    ensures Others(k, m, r, ly, lx, n) && Chainable(k, r, ly, lx, n)
  {
    OthersKept(k, m, r, ly, lx, n);
  }

  /** The law of a chain: source and destination sum to a result of n digits with the carry out
      in X, and Z is kept exactly when the whole result is zero. */
  ghost predicate Law(op: Op, k: Kind, s: State, ay: uint32, ax: uint32, n: nat, t: State)
    requires Span(k, n) <= ay && Span(k, n) <= ax
  {
    var src, dst, res := Num(k, s.mem, ay, n), Num(k, s.mem, ax, n), Num(k, t.mem, ax, n);
    && Sums(op, src, dst, s.x, res, t.x, Pow(k, n)) && 0 <= res < Pow(k, n)
    && t.z == (s.z && res == 0) && Digits(k, t.mem, ax, n)
  }

  lemma BelowBound(k: Kind, v: int, rest: int, p: int)
    requires 0 <= v < Base(k) && 0 <= rest < p
    ensures 0 <= Below(k, v, rest) < Below(k, 0, p) && (Below(k, v, rest) == 0 <==> v == 0 && rest == 0)
  {}

  lemma KeptStep(k: Kind, m: Memory, r: Memory, t: Memory, lx: uint32, n: nat)
    requires FirstOf(k, lx, lx, n) && Kept(k, m, r, lx + Size(k), 1) && Kept(k, r, t, lx, n)
    ensures Kept(k, m, t, lx + Size(k), n + 1) && Digit(k, t, lx) == Digit(k, r, lx)
    ensures IsDigit(k, t, lx) <==> IsDigit(k, r, lx)
  {
    DigitSame(k, r, t, lx);
  }

  lemma LawStep(op: Op, k: Kind, s: State, ly: uint32, lx: uint32, n: nat, r: State, t: State)
    requires FirstOf(k, ly, lx, n) && Stepped(op, k, s, ly, lx, r) && Digit(k, t.mem, lx) == Digit(k, r.mem, lx)
    requires IsDigit(k, t.mem, lx)
    requires Others(k, s.mem, r.mem, ly, lx, n) && Law(op, k, r, ly, lx, n, t)
    ensures Law(op, k, s, ly + Size(k), lx + Size(k), n + 1, t)
  {
    var src, dst := Num(k, s.mem, ly, n), Num(k, s.mem, lx, n);
    var res, v, p := Num(k, t.mem, lx, n), Digit(k, r.mem, lx), Pow(k, n);
    NumNext(k, s.mem, ly, n);
    NumNext(k, s.mem, lx, n);
    NumNext(k, t.mem, lx, n);
    BelowBound(k, v, res, p);
    DigitsNext(k, t.mem, lx, n);
    SumsBelow(op, k, Digit(k, s.mem, ly), Digit(k, s.mem, lx), s.x, v, r.x, src, dst, res, t.x, p);
  }

  lemma NoStep(op: Op, k: Kind, s: State, ay: uint32, ax: uint32)
    ensures Law(op, k, s, ay, ax, 0, s) && Kept(k, s.mem, s.mem, ax, 0)
  {}

  /** The same chain, counted from its lowest digit and from its first. */
  lemma FirstDigits(op: Op, k: Kind, s: State, y: nat, x: nat, ay: uint32, ax: uint32, n: nat,
                    ly: uint32, lx: uint32, m: nat)
    requires n == m + 1 && ay == ly + Size(k) && ax == lx + Size(k) && |s.a| == 8 && x < 8 && y < 8
    requires Chainable(k, s.mem, ay, ax, n)
    ensures FirstOf(k, ly, lx, m) && Chainable(k, s.mem, ly + Size(k), lx + Size(k), m + 1)
    ensures Chain(op, k, s, y, x, n) == Chain(op, k, Step(op, k, s, y, x), y, x, m)
  {}

  lemma WholeLaw(op: Op, k: Kind, s: State, ay: uint32, ax: uint32, n: nat, t: State, ly: uint32, lx: uint32, m: nat)
    requires n == m + 1 && ay == ly + Size(k) && ax == lx + Size(k) && FirstOf(k, ly, lx, m)
    requires Law(op, k, s, ly + Size(k), lx + Size(k), m + 1, t) && Kept(k, s.mem, t.mem, lx + Size(k), m + 1)
    ensures Law(op, k, s, ay, ax, n, t) && Kept(k, s.mem, t.mem, ax, n)
  {}

  lemma {:induction false} ChainSums(op: Op, k: Kind, s: State, y: nat, x: nat, ay: uint32, ax: uint32, n: nat,
                                     t: State)
    requires |s.a| == 8 && x < 8 && y < 8 && x != y && s.a[y] == ay && s.a[x] == ax
    requires Chainable(k, s.mem, ay, ax, n) && t == Chain(op, k, s, y, x, n)
    ensures Law(op, k, s, ay, ax, n, t) && Kept(k, s.mem, t.mem, ax, n)
    decreases n, 0
  {
    if n == 0 {
      NoStep(op, k, s, ay, ax);
    } else {
      var ly, lx, m := ay - Size(k), ax - Size(k), n - 1;
      FirstDigits(op, k, s, y, x, ay, ax, n, ly, lx, m);
      ChainFrom(op, k, s, y, x, ly, lx, m, Step(op, k, s, y, x), t);
      WholeLaw(op, k, s, ay, ax, n, t, ly, lx, m);
    }
  }

  lemma {:induction false} ChainFrom(op: Op, k: Kind, s: State, y: nat, x: nat, ly: uint32, lx: uint32, n: nat,
                                     r: State,
                                     t: State)
    requires |s.a| == |r.a| == 8 && x < 8 && y < 8 && x != y && FirstOf(k, ly, lx, n)
    requires s.a[y] == ly + Size(k) && s.a[x] == lx + Size(k) && r == Step(op, k, s, y, x)
    requires Chainable(k, s.mem, ly + Size(k), lx + Size(k), n + 1) && t == Chain(op, k, r, y, x, n)
    ensures Law(op, k, s, ly + Size(k), lx + Size(k), n + 1, t) && Kept(k, s.mem, t.mem, lx + Size(k), n + 1)
    decreases n, 1
  {
    StepStored(op, k, s, y, x, ly, lx, r);
    StillChainable(k, s.mem, r.mem, ly, lx, n);
    ChainSums(op, k, r, y, x, ly, lx, n, t);
    Joined(op, k, s, ly, lx, n, r, t);
  }

  lemma Joined(op: Op, k: Kind, s: State, ly: uint32, lx: uint32, n: nat, r: State, t: State)
    requires FirstOf(k, ly, lx, n) && Stepped(op, k, s, ly, lx, r) && Others(k, s.mem, r.mem, ly, lx, n)
    requires Kept(k, s.mem, r.mem, lx + Size(k), 1)
    requires Law(op, k, r, ly, lx, n, t) && Kept(k, r.mem, t.mem, lx, n)
    ensures Law(op, k, s, ly + Size(k), lx + Size(k), n + 1, t) && Kept(k, s.mem, t.mem, lx + Size(k), n + 1)
  {
    KeptStep(k, s.mem, r.mem, t.mem, lx, n);
    LawStep(op, k, s, ly, lx, n, r, t);
  }

  /** The first step of a chain. */
  lemma StepStored(op: Op, k: Kind, s: State, y: nat, x: nat, ly: uint32, lx: uint32, r: State)
    requires ly + Size(k) < TWO32 && lx + Size(k) < TWO32 && IsDigit(k, s.mem, ly) && IsDigit(k, s.mem, lx)
    requires |s.a| == 8 && x < 8 && y < 8 && x != y && s.a[y] == ly + Size(k) && s.a[x] == lx + Size(k)
    requires r == Step(op, k, s, y, x)
    ensures |r.a| == 8 && r.a[y] == ly && r.a[x] == lx
    ensures Stepped(op, k, s, ly, lx, r) && Kept(k, s.mem, r.mem, lx + Size(k), 1)
  {
    StepParts(op, k, s, y, x, ly, lx);
    DigitStored(op, k, s, ly, lx, r);
  }

  lemma {:induction false} ChainRegisters(op: Op, k: Kind, s: State, y: nat, x: nat, n: nat)
    requires |s.a| == 8 && x < 8 && y < 8 && x != y && Span(k, n) <= s.a[y] && Span(k, n) <= s.a[x]
    ensures MovedDown(s.a, Chain(op, k, s, y, x, n).a, y, x, Span(k, n))
    decreases n
  {
    if n > 0 {
      StepParts(op, k, s, y, x, s.a[y] - Size(k), s.a[x] - Size(k));
      RegistersFrom(op, k, s.a, y, x, n, Step(op, k, s, y, x));
    }
  }

  lemma {:induction false} RegistersFrom(op: Op, k: Kind, a: seq<uint32>, y: nat, x: nat, n: nat, r: State)
    requires n > 0 && |a| == 8 && x < 8 && y < 8 && x != y && Span(k, n) <= a[y] && Span(k, n) <= a[x]
    requires MovedDown(a, r.a, y, x, Size(k))
    ensures MovedDown(a, Chain(op, k, r, y, x, n - 1).a, y, x, Span(k, n))
    decreases n, 0
  {
    ChainRegisters(op, k, r, y, x, n - 1);
    MovedTwice(a, r.a, Chain(op, k, r, y, x, n - 1).a, y, x, Size(k), Span(k, n - 1));
  }

  lemma MovedTwice(a: seq<uint32>, b: seq<uint32>, c: seq<uint32>, y: nat, x: nat, d: nat, e: nat)
    requires MovedDown(a, b, y, x, d) && MovedDown(b, c, y, x, e)
    ensures MovedDown(a, c, y, x, d + e)
  {}

  /** A result below the base to the n leaves one carry, and one result. */
  lemma OneCarry(op: Op, src: int, dst: int, x: bool, res: int, c: bool, p: int)
    requires Sums(op, src, dst, x, res, c, p) && 0 <= res < p
    ensures c <==> if op.Add? then Total(op, src, dst, x) >= p else Total(op, src, dst, x) < 0
  {}

  /** n chained ADDX, SUBX, ABCD or SBCD steps are one addition or subtraction of n digits: X is
      set exactly when it passes the base to the n or zero, every result digit is valid, and
      nothing but the destination and the two address registers changes. */
  lemma ChainLaw(op: Op, k: Kind, s: State, y: nat, x: nat, n: nat)
    requires |s.a| == 8 && x < 8 && y < 8 && x != y && Chainable(k, s.mem, s.a[y], s.a[x], n)
    ensures Law(op, k, s, s.a[y], s.a[x], n, Chain(op, k, s, y, x, n))
    ensures var total := Total(op, Num(k, s.mem, s.a[y], n), Num(k, s.mem, s.a[x], n), s.x);
            Chain(op, k, s, y, x, n).x <==> if op.Add? then total >= Pow(k, n) else total < 0
    ensures Kept(k, s.mem, Chain(op, k, s, y, x, n).mem, s.a[x], n)
    ensures MovedDown(s.a, Chain(op, k, s, y, x, n).a, y, x, Span(k, n))
  {
    var t := Chain(op, k, s, y, x, n);
    ChainSums(op, k, s, y, x, s.a[y], s.a[x], n, t);
    OneCarry(op, Num(k, s.mem, s.a[y], n), Num(k, s.mem, s.a[x], n), s.x, Num(k, t.mem, s.a[x], n), t.x, Pow(k, n));
    ChainRegisters(op, k, s, y, x, n);
  }

  // ----------------------------------------------------- the law leaves one outcome

  lemma PairDetermines(h: nat, l: nat, g: nat, k: nat, b: nat)
    requires l < b && k < b && b * h + l == b * g + k && (b == 0x100 || b == TWO16)
    ensures h == g && l == k
  {}

  lemma LongDetermines(m: Memory, r: Memory, a: uint32)
    requires a + 4 <= TWO32 && Read32(m, a) == Read32(r, a)
    ensures Same(m, r, a, a + 4)
  {
    PairDetermines(Read16(m, a), Read16(m, At(a + 2)), Read16(r, a), Read16(r, At(a + 2)), TWO16);
    PairDetermines(m[a] as nat, m[At(a + 1)] as nat, r[a] as nat, r[At(a + 1)] as nat, 0x100);
    var b := At(a + 2);
    PairDetermines(m[b] as nat, m[At(b + 1)] as nat, r[b] as nat, r[At(b + 1)] as nat, 0x100);
  }

  lemma DigitDetermines(k: Kind, m: Memory, r: Memory, a: uint32)
    requires a + Size(k) <= TWO32 && Digit(k, m, a) == Digit(k, r, a) && IsDigit(k, m, a) && IsDigit(k, r, a)
    ensures Same(m, r, a, a + Size(k))
  {
    if k.Bcd? {
      Nibbles(m[a]);
      Nibbles(r[a]);
    } else {
      LongDetermines(m, r, a);
    }
  }

  lemma BelowInjective(k: Kind, v: int, w: int, rest: int, others: int)
    requires 0 <= v < Base(k) && 0 <= w < Base(k) && Below(k, v, rest) == Below(k, w, others)
    ensures v == w && rest == others
  {}

  lemma FirstDetermines(k: Kind, m: Memory, r: Memory, low: uint32, n: nat)
    requires low + Size(k) < TWO32 && Span(k, n + 1) <= low + Size(k)
    requires Digits(k, m, low + Size(k), n + 1) && Digits(k, r, low + Size(k), n + 1)
    requires Num(k, m, low + Size(k), n + 1) == Num(k, r, low + Size(k), n + 1)
    ensures Same(m, r, low, low + Size(k)) && Num(k, m, low, n) == Num(k, r, low, n)
    ensures Digits(k, m, low, n) && Digits(k, r, low, n)
  {
    NumNext(k, m, low, n);
    NumNext(k, r, low, n);
    DigitsNext(k, m, low, n);
    DigitsNext(k, r, low, n);
    DigitBound(k, m, low);
    DigitBound(k, r, low);
    BelowInjective(k, Digit(k, m, low), Digit(k, r, low), Num(k, m, low, n), Num(k, r, low, n));
    DigitDetermines(k, m, r, low);
  }

  /** Valid digits of the same number are the same bytes. */
  lemma {:induction false} NumDetermines(k: Kind, m: Memory, r: Memory, top: uint32, n: nat)
    requires Span(k, n) <= top && Digits(k, m, top, n) && Digits(k, r, top, n) && Num(k, m, top, n) == Num(k, r, top, n)
    ensures Same(m, r, top - Span(k, n), top)
    decreases n
  {
    if n > 0 {
      FirstDetermines(k, m, r, top - Size(k), n - 1);
      NumDetermines(k, m, r, top - Size(k), n - 1);
    }
  }

  lemma OneResult(op: Op, k: Kind, s: State, ay: uint32, ax: uint32, n: nat, t: State, u: State)
    requires Span(k, n) <= ay && Span(k, n) <= ax && Law(op, k, s, ay, ax, n, t) && Law(op, k, s, ay, ax, n, u)
    ensures t.x == u.x && t.z == u.z && Num(k, t.mem, ax, n) == Num(k, u.mem, ax, n)
  {
    var src, dst := Num(k, s.mem, ay, n), Num(k, s.mem, ax, n);
    OneCarry(op, src, dst, s.x, Num(k, t.mem, ax, n), t.x, Pow(k, n));
    OneCarry(op, src, dst, s.x, Num(k, u.mem, ax, n), u.x, Pow(k, n));
  }

  lemma OneMemory(op: Op, k: Kind, s: State, ay: uint32, ax: uint32, n: nat, t: State, u: State)
    requires Span(k, n) <= ay && Span(k, n) <= ax && Law(op, k, s, ay, ax, n, t) && Law(op, k, s, ay, ax, n, u)
    requires Kept(k, s.mem, t.mem, ax, n) && Kept(k, s.mem, u.mem, ax, n)
    ensures t.mem == u.mem
  {
    OneResult(op, k, s, ay, ax, n, t, u);
    NumDetermines(k, t.mem, u.mem, ax, n);
    SameMemory(s.mem, t.mem, u.mem, ax - Span(k, n), ax);
  }

  lemma OneMove(a: seq<uint32>, b: seq<uint32>, c: seq<uint32>, y: nat, x: nat, d: nat)
    requires MovedDown(a, b, y, x, d) && MovedDown(a, c, y, x, d)
    ensures b == c
  {}

  /** Memory, registers and flags after a chain are the only ones its law allows. */
  lemma ChainDetermined(op: Op, k: Kind, s: State, y: nat, x: nat, n: nat, t: State)
    requires |s.a| == 8 && x < 8 && y < 8 && x != y && Chainable(k, s.mem, s.a[y], s.a[x], n)
    requires Law(op, k, s, s.a[y], s.a[x], n, t) && Kept(k, s.mem, t.mem, s.a[x], n)
    requires MovedDown(s.a, t.a, y, x, Span(k, n))
    ensures t == Chain(op, k, s, y, x, n)
  {
    var u := Chain(op, k, s, y, x, n);
    ChainLaw(op, k, s, y, x, n);
    OneResult(op, k, s, s.a[y], s.a[x], n, t, u);
    OneMemory(op, k, s, s.a[y], s.a[x], n, t, u);
    OneMove(s.a, t.a, u.a, y, x, Span(k, n));
  }

  lemma SameMemory(m: Memory, r: Memory, t: Memory, from: uint32, to: uint32)
    requires Same(m, r, 0, from) && Same(m, r, to, TWO32) && Same(m, t, 0, from) && Same(m, t, to, TWO32)
    requires Same(r, t, from, to)
    ensures r == t
  {}

  // ---------------------------------------------------------------------- the handlers

  class Cpu {
    var mem: Memory
    var a: seq<uint32>
    var flagX: bool                  // bit 8 of FLAG_X; FLAG_C is the same word
    var flagZ: bool                  // FLAG_Z == 0
    var flagN: bool
    var flagV: bool

    constructor (memory: Memory)
      ensures |a| == 8 && mem == memory
    {
      mem, a := memory, [0, 0, 0, 0, 0, 0, 0, 0];
      flagX, flagZ, flagN, flagV := false, true, false, false;
    }

    ghost function TheState(): State
      reads this
    {
      State(mem, a, flagX, flagZ)
    }

    /** The common end of the binary handlers. */
    method Finish(ay: uint32, y: nat, ax: uint32, x: nat, res: uint32, c: bool)
      requires |a| == 8 && x < 8 && y < 8
      modifies this`mem, this`a, this`flagX, this`flagZ
      ensures TheState() == State(Write32(old(mem), ax, res), old(a)[y := ay][x := ax], c, old(flagZ) && res == 0)
      ensures Read32(mem, a[x]) == res
    {
      flagX, flagZ := c, flagZ && res == 0;
      a, mem := a[y := ay][x := ax], Write32(mem, ax, res);
    }

    /** ADDX.L -(Ay),-(Ax). */
    method AddxMm(y: nat, x: nat)
      requires |a| == 8 && x < 8 && y < 8
      modifies this
      ensures |a| == 8
      ensures TheState() == Step(Add, Long, old(TheState()), y, x)
      ensures flagN == (Read32(mem, a[x]) >= 0x8000_0000)
      ensures flagV == Overflows(Total(Add, Signed(old(Read32(mem, Down(Long, a[y])))),
                                       Signed(old(Read32(mem, Destination(Long, a, y, x)))), old(flagX)))
    {
      var ay := Down(Long, a[y]);
      var src := Read32(mem, ay);
      var ax := Down(Long, a[y := ay][x]);
      var res, n, v, c := Addx(src, Read32(mem, ax), flagX);
      flagN, flagV := n, v;
      Finish(ay, y, ax, x, res, c);
    }

    /** SUBX.L -(Ay),-(Ax). */
    method SubxMm(y: nat, x: nat)
      requires |a| == 8 && x < 8 && y < 8
      modifies this
      ensures |a| == 8
      ensures TheState() == Step(Sub, Long, old(TheState()), y, x)
      ensures flagN == (Read32(mem, a[x]) >= 0x8000_0000)
      ensures flagV == Overflows(Total(Sub, Signed(old(Read32(mem, Down(Long, a[y])))),
                                       Signed(old(Read32(mem, Destination(Long, a, y, x)))), old(flagX)))
    {
      var ay := Down(Long, a[y]);
      var src := Read32(mem, ay);
      var ax := Down(Long, a[y := ay][x]);
      var res, n, v, c := Subx(src, Read32(mem, ax), flagX);
      flagN, flagV := n, v;
      Finish(ay, y, ax, x, res, c);
    }

    /** ABCD -(Ay),-(Ax), neither of them A7. */
    method AbcdMm(y: nat, x: nat)
      requires |a| == 8 && x < 7 && y < 7
      modifies this
      ensures |a| == 8
      ensures old(IsDecimal(mem[Down(Bcd, a[y])]) && IsDecimal(mem[Destination(Bcd, a, y, x)])) ==>
                TheState() == Step(Add, Bcd, old(TheState()), y, x)
    {
      a := a[y := Down(Bcd, a[y])];
      var src := mem[a[y]];
      a := a[x := Down(Bcd, a[x])];
      var dst, res := mem[a[x]], 0;
      res, flagX := Abcd(src, dst, flagX);
      flagN, flagZ := res >= 0x80, flagZ && res == 0;
      mem := mem[a[x] := res];
    }

    /** SBCD -(Ay),-(Ax), neither of them A7. */
    method SbcdMm(y: nat, x: nat)
      requires |a| == 8 && x < 7 && y < 7
      modifies this
      ensures |a| == 8
      ensures old(IsDecimal(mem[Down(Bcd, a[y])]) && IsDecimal(mem[Destination(Bcd, a, y, x)])) ==>
                TheState() == Step(Sub, Bcd, old(TheState()), y, x)
    {
      a := a[y := Down(Bcd, a[y])];
      var src := mem[a[y]];
      a := a[x := Down(Bcd, a[x])];
      var dst, res := mem[a[x]], 0;
      res, flagX := Sbcd(src, dst, flagX);
      flagN, flagZ := res >= 0x80, flagZ && res == 0;
      mem := mem[a[x] := res];
    }
  }

  /** src + dst + X; X is bit 31 of (S & D) | (~R & (S | D)), V of (S ^ R) & (D ^ R). */
  method Addx(src: uint32, dst: uint32, x: bool) returns (res: uint32, n: bool, v: bool, c: bool)
    ensures res == Folded(Long, Total(Add, src, dst, x)) && c == (Total(Add, src, dst, x) != res)
    ensures n == (res >= 0x8000_0000) && v == Overflows(Total(Add, Signed(src), Signed(dst), x))
  {
    res := Truncated(Total(Add, src, dst, x));
    var s, d, r := src >= 0x8000_0000, dst >= 0x8000_0000, res >= 0x8000_0000;
    n, v, c := r, s != r && d != r, (s && d) || (!r && (s || d));
  }

  /** dst - src - X; X is bit 31 of (S & R) | (~D & (S | R)), V of (S ^ D) & (R ^ D). */
  method Subx(src: uint32, dst: uint32, x: bool) returns (res: uint32, n: bool, v: bool, c: bool)
    ensures res == Folded(Long, Total(Sub, src, dst, x)) && c == (Total(Sub, src, dst, x) != res)
    ensures n == (res >= 0x8000_0000) && v == Overflows(Total(Sub, Signed(src), Signed(dst), x))
  {
    res := Truncated(Total(Sub, src, dst, x));
    var s, d, r := src >= 0x8000_0000, dst >= 0x8000_0000, res >= 0x8000_0000;
    n, v, c := r, s != d && r != d, (s && r) || (!d && (s || r));
  }

  /** Decimal digits added nibble by nibble with the two corrections. */
  method Abcd(src: byte, dst: byte, x: bool) returns (r: byte, c: bool)
    ensures IsDecimal(src) && IsDecimal(dst) ==>
              var total := Total(Add, Decimal(src), Decimal(dst), x);
              r == Packed(Folded(Bcd, total)) && c == (total != Folded(Bcd, total))
  {
    var s0, s1, d0, d1 := src as int % 0x10, src as int / 0x10, dst as int % 0x10, dst as int / 0x10;
    var res := s0 + d0 + Carry(x);
    if res > 9 {
      res := res + 6;
    }
    res := res + 0x10 * s1 + 0x10 * d1;
    c := res > 0x99;
    if c {
      res := res - 0xa0;
    }
    if IsDecimal(src) && IsDecimal(dst) {
      Nibbles(src);
      Nibbles(dst);
      DecimalSum(s0, s1, d0, d1, Carry(x), res, c);
      DecimalResult(Total(Add, Decimal(src), Decimal(dst), x), res, c);
    }
    r := LowByte(res);
  }

  function LowByte(x: int): (b: byte)
    ensures 0 <= x < 0x100 ==> b == x as byte
  {
    (x % 0x100) as byte
  }

  /** The byte whose nibbles are the digits of the folded total. */
  lemma DecimalResult(total: int, res: int, c: bool)
    requires -100 <= total < 200 && c == (total < 0 || total >= 100)
    requires var v := if total < 0 then total + 100 else if total >= 100 then total - 100 else total;
             res == v / 10 * 0x10 + v % 10
    ensures LowByte(res) == Packed(Folded(Bcd, total)) && c == (total != Folded(Bcd, total))
  {
    PackedNibbles(Folded(Bcd, total));
  }

  lemma DecimalSum(s0: int, s1: int, d0: int, d1: int, x: int, res: int, c: bool)
    requires 0 <= s0 < 10 && 0 <= s1 < 10 && 0 <= d0 < 10 && 0 <= d1 < 10 && 0 <= x <= 1
    requires var sum := s0 + d0 + x + (if s0 + d0 + x > 9 then 6 else 0) + 0x10 * s1 + 0x10 * d1;
             c == (sum > 0x99) && res == if c then sum - 0xa0 else sum
    ensures var total := 10 * s1 + s0 + (10 * d1 + d0) + x;
            var v := if c then total - 100 else total;
            c == (total >= 100) && res == v / 10 * 0x10 + v % 10
  {
    var l := s0 + d0 + x;
    var low, high := if l > 9 then l - 10 else l, s1 + d1 + if l > 9 then 1 else 0;
    var v := 10 * (if high > 9 then high - 10 else high) + low;
    assert v / 10 == (if high > 9 then high - 10 else high) && v % 10 == low;
  }

  /** The nibble differences, which wrap at 32 bits before they are compared. */
  method NibbleDifference(s0: nat, s1: nat, d0: nat, d1: nat, x: int) returns (res: uint32, c: bool)
    requires s0 < 0x10 && s1 < 0x10 && d0 < 0x10 && d1 < 0x10 && 0 <= x <= 1
    ensures s0 < 10 && s1 < 10 && d0 < 10 && d1 < 10 ==>
              var difference := d0 - s0 - x - (if d0 - s0 - x < 0 then 6 else 0) + 0x10 * d1 - 0x10 * s1;
              c == (difference < 0) && res == if c then difference + 0xa0 else difference
  {
    res := Truncated(d0 - s0 - x);
    if res > 9 {
      res := Truncated(res - 6);
    }
    res := Truncated(res + 0x10 * d1 - 0x10 * s1);
    c := res > 0x99;
    if c {
      res := Truncated(res + 0xa0);
    }
  }

  /** Decimal digits subtracted nibble by nibble with the two corrections. */
  method Sbcd(src: byte, dst: byte, x: bool) returns (r: byte, c: bool)
    ensures IsDecimal(src) && IsDecimal(dst) ==>
              var total := Total(Sub, Decimal(src), Decimal(dst), x);
              r == Packed(Folded(Bcd, total)) && c == (total != Folded(Bcd, total))
  {
    var s0, s1, d0, d1 := src as int % 0x10, src as int / 0x10, dst as int % 0x10, dst as int / 0x10;
    var res;
    res, c := NibbleDifference(s0, s1, d0, d1, Carry(x));
    if IsDecimal(src) && IsDecimal(dst) {
      Nibbles(src);
      Nibbles(dst);
      DecimalDifference(s0, s1, d0, d1, Carry(x), res, c);
      DecimalResult(Total(Sub, Decimal(src), Decimal(dst), x), res, c);
    }
    r := LowByte(res);
  }

  lemma DecimalDifference(s0: int, s1: int, d0: int, d1: int, x: int, res: int, c: bool)
    requires 0 <= s0 < 10 && 0 <= s1 < 10 && 0 <= d0 < 10 && 0 <= d1 < 10 && 0 <= x <= 1
    requires var difference := d0 - s0 - x - (if d0 - s0 - x < 0 then 6 else 0) + 0x10 * d1 - 0x10 * s1;
             c == (difference < 0) && res == if c then difference + 0xa0 else difference
    ensures var total := 10 * d1 + d0 - (10 * s1 + s0) - x;
            var v := if c then total + 100 else total;
            c == (total < 0) && res == v / 10 * 0x10 + v % 10
  {
    var l := d0 - s0 - x;
    var low, high := if l < 0 then l + 10 else l, d1 - s1 - if l < 0 then 1 else 0;
    var v := 10 * (if high < 0 then high + 10 else high) + low;
    assert v / 10 == (if high < 0 then high + 10 else high) && v % 10 == low;
  }

  /** Not a signed long. */
  predicate Overflows(x: int) { !(-0x8000_0000 <= x < 0x8000_0000) }

  /** The cast of a sum or difference to 32 bits. */
  function Truncated(x: int): (r: uint32)
    requires -TWO32 <= x < 2 * TWO32
  {
    if x < 0 then x + TWO32 else if x < TWO32 then x else x - TWO32
  }
}
