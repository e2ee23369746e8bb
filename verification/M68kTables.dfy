/** The three tables the shift handlers look up their masks in, as the source spells them
    out, and what every entry means. */
module M68kTables {
  import opened Arith
  import opened Bits
  import opened M68kShift

  const SHIFT_8_TABLE: seq<nat> :=
    [0x00, 0x80, 0xc0, 0xe0, 0xf0, 0xf8, 0xfc, 0xfe, 0xff, 0xff, 0xff, 0xff, 0xff] +
    [0xff, 0xff, 0xff, 0xff, 0xff, 0xff, 0xff, 0xff, 0xff, 0xff, 0xff, 0xff, 0xff] +
    [0xff, 0xff, 0xff, 0xff, 0xff, 0xff, 0xff, 0xff, 0xff, 0xff, 0xff, 0xff, 0xff] +
    [0xff, 0xff, 0xff, 0xff, 0xff, 0xff, 0xff, 0xff, 0xff, 0xff, 0xff, 0xff, 0xff] +
    [0xff, 0xff, 0xff, 0xff, 0xff, 0xff, 0xff, 0xff, 0xff, 0xff, 0xff, 0xff, 0xff]

  const SHIFT_16_TABLE: seq<nat> :=
    [0x0000, 0x8000, 0xc000, 0xe000, 0xf000] +
    [0xf800, 0xfc00, 0xfe00, 0xff00, 0xff80] +
    [0xffc0, 0xffe0, 0xfff0, 0xfff8, 0xfffc] +
    [0xfffe, 0xffff, 0xffff, 0xffff, 0xffff] +
    [0xffff, 0xffff, 0xffff, 0xffff, 0xffff] +
    [0xffff, 0xffff, 0xffff, 0xffff, 0xffff] +
    [0xffff, 0xffff, 0xffff, 0xffff, 0xffff] +
    [0xffff, 0xffff, 0xffff, 0xffff, 0xffff] +
    [0xffff, 0xffff, 0xffff, 0xffff, 0xffff] +
    [0xffff, 0xffff, 0xffff, 0xffff, 0xffff] +
    [0xffff, 0xffff, 0xffff, 0xffff, 0xffff] +
    [0xffff, 0xffff, 0xffff, 0xffff, 0xffff] +
    [0xffff, 0xffff, 0xffff, 0xffff, 0xffff]

  const SHIFT_32_TABLE: seq<nat> :=
    [0x0000_0000, 0x8000_0000, 0xc000_0000, 0xe000_0000, 0xf000_0000] +
    [0xf800_0000, 0xfc00_0000, 0xfe00_0000, 0xff00_0000, 0xff80_0000] +
    [0xffc0_0000, 0xffe0_0000, 0xfff0_0000, 0xfff8_0000, 0xfffc_0000] +
    [0xfffe_0000, 0xffff_0000, 0xffff_8000, 0xffff_c000, 0xffff_e000] +
    [0xffff_f000, 0xffff_f800, 0xffff_fc00, 0xffff_fe00, 0xffff_ff00] +
    [0xffff_ff80, 0xffff_ffc0, 0xffff_ffe0, 0xffff_fff0, 0xffff_fff8] +
    [0xffff_fffc, 0xffff_fffe, 0xffff_ffff, 0xffff_ffff, 0xffff_ffff] +
    [0xffff_ffff, 0xffff_ffff, 0xffff_ffff, 0xffff_ffff, 0xffff_ffff] +
    [0xffff_ffff, 0xffff_ffff, 0xffff_ffff, 0xffff_ffff, 0xffff_ffff] +
    [0xffff_ffff, 0xffff_ffff, 0xffff_ffff, 0xffff_ffff, 0xffff_ffff] +
    [0xffff_ffff, 0xffff_ffff, 0xffff_ffff, 0xffff_ffff, 0xffff_ffff] +
    [0xffff_ffff, 0xffff_ffff, 0xffff_ffff, 0xffff_ffff, 0xffff_ffff] +
    [0xffff_ffff, 0xffff_ffff, 0xffff_ffff, 0xffff_ffff, 0xffff_ffff]

  function ShiftTable(w: nat): seq<nat> {
    if w == 8 then SHIFT_8_TABLE else if w == 16 then SHIFT_16_TABLE else SHIFT_32_TABLE
  }

  /** The 32 bits of a number. */
  function ToBits(n: nat, len: nat): (a: Word)
    ensures |a| == len
  {
    if len == 0 then [] else [n % 2 == 1] + ToBits(n / 2, len - 1)
  }

  /** Each entry up to the width is the one before moved down under a new top bit; all
      later ones repeat it. */
  predicate Descends(table: seq<nat>, w: nat, top: nat) {
    && |table| == 65 && w < 65 && table[0] == 0
    && (forall k :: 0 < k <= w ==> table[k] == table[k - 1] / 2 + top)
    && (forall k :: w < k < 65 ==> table[k] == table[w])
  }

  lemma Table8() ensures Descends(SHIFT_8_TABLE, 8, 0x80) {}
  lemma Table16() ensures Descends(SHIFT_16_TABLE, 16, 0x8000) {}
  lemma Table32() ensures Descends(SHIFT_32_TABLE, 32, 0x8000_0000) {}

  lemma {:induction false} EntryValue(table: seq<nat>, w: nat, k: nat)
    requires w > 0 && Descends(table, w, Pow2(w - 1)) && k <= w
    ensures table[k] == Pow2(w) - Pow2(w - k)
  {
    if k > 0 {
      EntryValue(table, w, k - 1);
      assert Pow2(w) == 2 * Pow2(w - 1) && Pow2(w - k + 1) == 2 * Pow2(w - k);
    }
  }

  /** A difference of two powers is a run of ones. */
  lemma {:induction false} RunOfOnes(lo: nat, hi: nat, len: nat, i: nat)
    requires lo <= hi <= len && i < len
    ensures Pow2(hi) >= Pow2(lo) && ToBits(Pow2(hi) - Pow2(lo), len)[i] == (lo <= i < hi)
  {
    if hi == 0 {
      Nothing(len, i);
    } else if i == 0 {
      Grows(lo, hi);
    } else {
      RunOfOnes(if lo > 0 then lo - 1 else 0, hi - 1, len - 1, i - 1);
      Grows(lo, hi);
      assert (Pow2(hi) - Pow2(lo)) / 2 == Pow2(hi - 1) - Pow2(if lo > 0 then lo - 1 else 0);
    }
  }

  lemma {:induction false} Nothing(len: nat, i: nat)
    requires i < len
    ensures !ToBits(0, len)[i]
  {
    if i > 0 {
      Nothing(len - 1, i - 1);
    }
  }

  lemma {:induction false} Grows(lo: nat, hi: nat)
    requires lo <= hi
    ensures Pow2(lo) <= Pow2(hi)
  {
    if lo < hi {
      Grows(lo, hi - 1);
    }
  }

  lemma EntryBits(table: seq<nat>, w: nat, k: nat)
    requires 0 < w <= 32 && Descends(table, w, Pow2(w - 1)) && k < 65
    ensures ToBits(table[k], 32) == TopBits(w, k)
  {
    var n := if k < w then k else w;
    EntryValue(table, w, n);
    forall i | 0 <= i < 32
      ensures ToBits(table[k], 32)[i] == TopBits(w, k)[i]
    {
      RunOfOnes(w - n, w, 32, i);
    }
  }

  /** Every entry of every table is the mask of the count's top bits. */
  lemma EntryIsMask(w: nat, k: nat)
    requires IsWidth(w) && k < 65
    ensures |ShiftTable(w)| == 65 && ToBits(ShiftTable(w)[k], 32) == TopBits(w, k)
  {
    TopPowers();
    if w == 8 {
      Table8();
      EntryBits(SHIFT_8_TABLE, w, k);
    } else if w == 16 {
      Table16();
      EntryBits(SHIFT_16_TABLE, w, k);
    } else {
      Table32();
      EntryBits(SHIFT_32_TABLE, w, k);
    }
  }

  lemma FourMore(n: nat)
    ensures Pow2(n + 4) == 16 * Pow2(n)
  {
    assert Pow2(n + 4) == 2 * Pow2(n + 3) && Pow2(n + 2) == 2 * Pow2(n + 1);
  }

  lemma TopPowers()
    ensures Pow2(7) == 0x80 && Pow2(15) == 0x8000 && Pow2(31) == 0x8000_0000
  {
    FourMore(3);
    FourMore(7);
    FourMore(11);
    FourMore(15);
    FourMore(19);
    FourMore(23);
    FourMore(27);
  }
}
