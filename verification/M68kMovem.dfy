/** MOVEM.L: a register list pushed by -(An) and pulled back by (An)+. */
module M68kMovem {
  import opened AddressMap
  import opened Arith
  import opened M68kMemory

  /** Which of D0..D7, A0..A7 a mask names, by register number. */
  type Mask = m: seq<bool> | |m| == 16 witness seq(16, _ => false)

  /** The predecrement form numbers its mask bits from A7 down. */
  function Reversed(mask: Mask): (r: Mask)
    ensures forall i :: 0 <= i < 16 ==> r[i] == mask[15 - i]
  {
    seq(16, i requires 0 <= i < 16 => mask[15 - i])
  }

  /** Registers of the list numbered from r on, and below r. */
  function From(list: Mask, r: nat): (n: nat)
    ensures r <= 16 ==> n <= 16 - r
    decreases 16 - r
  {
    if r >= 16 then 0 else From(list, r + 1) + if list[r] then 1 else 0
  }

  function Under(list: Mask, r: nat): (n: nat)
    requires r <= 16
    ensures n <= r
  {
    if r == 0 then 0 else Under(list, r - 1) + if list[r - 1] then 1 else 0
  }

  lemma {:induction false} UnderAndFrom(list: Mask, r: nat, z: nat)
    requires r <= 16 && z == 0
    ensures Under(list, r) + From(list, r) == From(list, z)
  {
    if r > 0 { UnderAndFrom(list, r - 1, z); }
  }

  /** Where register r of the list lies below top: ascending registers at ascending addresses. */
  function Slot(list: Mask, top: uint32, r: nat): uint32
    requires r <= 16
  {
    At(top - 4 * From(list, r))
  }

  /** A lower register of the list lies exactly as far below a higher one as there are listed
      registers between them. */
  lemma {:induction false} SlotsAscend(list: Mask, top: uint32, r: nat, s: nat)
    requires r < s <= 16 && list[r]
    ensures From(list, r) == From(list, s) + Under(list, s) - Under(list, r) > From(list, s)
    ensures At(Slot(list, top, s) as int - Slot(list, top, r) as int) == 4 * (Under(list, s) - Under(list, r))
  {
    UnderAndFrom(list, r, 0);
    UnderAndFrom(list, s, 0);
    UnderGrows(list, r + 1, s);
  }

  lemma {:induction false} UnderGrows(list: Mask, r: nat, s: nat)
    requires r <= s <= 16
    ensures Under(list, r) <= Under(list, s)
  {
    if r < s { UnderGrows(list, r, s - 1); }
  }

  /** The listed registers lie in their slots, and no other byte has changed. */
  ghost predicate Pushed(before: Memory, after: Memory, dar: seq<uint32>, list: Mask, top: uint32, r: nat)
    requires |dar| == 16 && r <= 16
  {
    && (forall i :: r <= i < 16 && list[i] ==> Read32(after, Slot(list, top, i)) == dar[i])
    && (forall b: uint32 :: At(b - Slot(list, top, r)) >= 4 * From(list, r) ==> after[b] == before[b])
  }

  /** What pulling leaves in register r: the next long of the block for each listed register. */
  function Pulled(m: Memory, dar: seq<uint32>, list: Mask, base: uint32, r: nat): uint32
    requires |dar| == 16 && r < 16
  {
    if list[r] then Read32(m, Up(base, 4 * Under(list, r))) else dar[r]
  }

  lemma PushOne(before: Memory, mid: Memory, dar: seq<uint32>, list: Mask, top: uint32, r: nat)
    requires |dar| == 16 && r < 16 && list[r] && Pushed(before, mid, dar, list, top, r + 1)
    ensures Pushed(before, Write32(mid, Slot(list, top, r), dar[r]), dar, list, top, r)
  {
    var after := Write32(mid, Slot(list, top, r), dar[r]);
    forall i | r < i < 16 && list[i] ensures Read32(after, Slot(list, top, i)) == dar[i] {
      SlotsClear(list, top, r, i);
      ReadOther32(mid, Slot(list, top, r), dar[r], Slot(list, top, i));
    }
  }

  /** A lower slot is clear of the long in a higher one. */
  lemma SlotsClear(list: Mask, top: uint32, r: nat, i: nat)
    requires r < i < 16 && list[r] && list[i]
    ensures Clear(Slot(list, top, r), Slot(list, top, i), 4)
  {
    SlotsAscend(list, top, r, i);
  }

  lemma PushNone(before: Memory, mid: Memory, dar: seq<uint32>, list: Mask, top: uint32, r: nat)
    requires |dar| == 16 && r < 16 && !list[r] && Pushed(before, mid, dar, list, top, r + 1)
    ensures Pushed(before, mid, dar, list, top, r) && Slot(list, top, r) == Slot(list, top, r + 1)
  {}

  class Cpu {
    const dar: array<uint32>
    var mem: Memory

    constructor (memory: Memory)
      ensures dar.Length == 16 && mem == memory
    {
      dar := new uint32[16](_ => 0);
      mem := memory;
    }

    /** One register of the list, or none, below what is pushed already. */
    method Push(listed: bool, r: nat, ea: uint32, ghost before: Memory, ghost list: Mask, ghost top: uint32)
      returns (next: uint32)
      requires dar.Length == 16 && r < 16 && listed == list[r] && ea == Slot(list, top, r + 1)
      requires Pushed(before, mem, dar[..], list, top, r + 1)
      modifies this`mem
      ensures Pushed(before, mem, dar[..], list, top, r) && next == Slot(list, top, r)
    {
      next := ea;
      if listed {
        PushOne(before, mem, dar[..], list, top, r);
        next := At(ea as int - 4);
        assert next == Slot(list, top, r);
        mem := StoreHalves(mem, next, dar[r]);
      } else {
        PushNone(before, mem, dar[..], list, top, r);
      }
    }

    /** MOVEM.L list,-(Ay). */
    method MovemRePd(mask: Mask, y: nat)
      requires dar.Length == 16 && y < 8
      modifies this`mem, dar
      ensures var list, top := Reversed(mask), old(dar[8 + y]);
              && Pushed(old(mem), mem, old(dar[..]), list, top, 0)
              && dar[..] == old(dar[..])[8 + y := Slot(list, top, 0)]
    {
      ghost var list, top := Reversed(mask), dar[8 + y];
      var ea := dar[8 + y];
      var i := 0;
      while i < 16
        invariant 0 <= i <= 16 && dar[..] == old(dar[..]) && ea == Slot(list, top, 16 - i)
        invariant Pushed(old(mem), mem, dar[..], list, top, 16 - i)
      {
        ea := Push(mask[i], 15 - i, ea, old(mem), list, top);
        i := i + 1;
      }
      dar[8 + y] := ea;
    }

    /** MOVEM.L (Ay)+,list: the address register ends past the block whether or not it was in
        the list. */
    method MovemErPi(mask: Mask, y: nat)
      requires dar.Length == 16 && y < 8
      modifies dar
      ensures dar[8 + y] == Up(old(dar[8 + y]), 4 * From(mask, 0))
      ensures forall r :: 0 <= r < 16 && r != 8 + y ==> dar[r] == Pulled(mem, old(dar[..]), mask, old(dar[8 + y]), r)
    {
      var ea := dar[8 + y];
      ghost var base := ea;
      var i := 0;
      while i < 16
        invariant 0 <= i <= 16 && ea == Up(base, 4 * Under(mask, i))
        invariant forall r :: 0 <= r < i ==> dar[r] == Pulled(mem, old(dar[..]), mask, base, r)
        invariant forall r :: i <= r < 16 ==> dar[r] == old(dar[r])
      {
        if mask[i] {
          dar[i] := Read32(mem, ea);
          ea := Up(ea, 4);
        }
        i := i + 1;
      }
      UnderAndFrom(mask, 16, 0);
      dar[8 + y] := ea;
    }
  }

  /** The low word, then the high word. */
  function StoreHalves(m: Memory, a: uint32, w: uint32): (n: Memory)
    ensures n == Write32(m, a, w)
  {
    Write16(Write16(m, At(a + 2), Rest(w, TWO16)), a, Over(w, TWO16))
  }

  lemma PlaceSum(top: uint32, all: nat, from: nat, under: nat)
    requires all == from + under && all <= 16
    ensures At(top - 4 * from) == Up(At(top - 4 * all), 4 * under) && Up(At(top - 4 * all), 4 * all) == top
  {}

  /** Slots counted down from the top are places counted up from the base, the slot z of the
      lowest register. */
  lemma SlotFromBase(list: Mask, top: uint32, r: nat, z: nat)
    requires r < 16 && list[r] && z == 0
    ensures Slot(list, top, r) == Up(Slot(list, top, z), 4 * Under(list, r))
    ensures 4 * Under(list, r) + 4 <= 4 * From(list, z) && Up(Slot(list, top, z), 4 * From(list, z)) == top
  {
    UnderAndFrom(list, r, z);
    UnderAndFrom(list, r + 1, z);
    PlaceSum(top, From(list, z), From(list, r), Under(list, r));
  }

  /** A long read inside a block that has not changed. */
  lemma BlockRead(m: Memory, n: Memory, base: uint32, at: nat, size: nat)
    requires at + 4 <= size <= 64 && forall b: uint32 :: At(b - base) < size ==> m[b] == n[b]
    ensures Read32(m, Up(base, at)) == Read32(n, Up(base, at))
  {
    var a := Up(base, at);
    forall j | 0 <= j < 4 ensures m[Up(a, j)] == n[Up(a, j)] {
      assert At(Up(a, j) - base) == at + j;
    }
    assert Up(a, 0) == a;
    ReadSame32(m, n, a);
  }

  /** Pushed with -(An) and pulled with (An)+ and the reversed mask, whatever happened to the
      registers in between, every listed register and An are back, provided An points at the
      block again and the block is intact. */
  lemma RoundTrip(before: Memory, pushed: Memory, now: Memory, saved: seq<uint32>, dar: seq<uint32>, list: Mask,
                  y: nat, r: nat)
    requires |saved| == |dar| == 16 && y < 8 && r < 16 && Pushed(before, pushed, saved, list, saved[8 + y], 0)
    requires dar[8 + y] == Slot(list, saved[8 + y], 0)
    requires forall b: uint32 :: At(b - dar[8 + y]) < 4 * From(list, 0) ==> pushed[b] == now[b]
    ensures list[r] ==> Pulled(now, dar, list, dar[8 + y], r) == saved[r]
    ensures !list[r] ==> Pulled(now, dar, list, dar[8 + y], r) == dar[r]
    ensures Up(dar[8 + y], 4 * From(list, 0)) == saved[8 + y]
  {
    var base := dar[8 + y];
    if list[r] {
      SlotFromBase(list, saved[8 + y], r, 0);
      BlockRead(pushed, now, base, 4 * Under(list, r), 4 * From(list, 0));
    }
  }
}
