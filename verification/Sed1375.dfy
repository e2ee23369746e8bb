/** The SED1375 display controller's state: registers, the palette with its derived 16-bit
    form, the LUT port's cursor and the byte image a snapshot stores. */
module Sed1375 {
  import opened AddressMap

  const LUT_OFFSET := 0x20
  const CLUT_OFFSET := LUT_OFFSET + 4
  const VRAM_OFFSET := CLUT_OFFSET + 4 * 0x100
  const STATE_SIZE := VRAM_OFFSET + SED_VRAM_SIZE

  /** A palette entry: the bytes of its 32-bit word, most significant first. */
  datatype Argb = Argb(a: byte, r: byte, g: byte, b: byte)

  function ArgbTo565(c: Argb): (w: nat)
    ensures w < 0x10000
  {
    (c.r as nat / 8) * 0x800 + (c.g as nat / 4) * 0x20 + c.b as nat / 8
  }

  /** Byte i of an entry in memory order, and the entry with that byte replaced. */
  function Part(c: Argb, i: nat): byte {
    if i == 0 then c.a else if i == 1 then c.r else if i == 2 then c.g else c.b
  }

  function WithPart(c: Argb, i: nat, v: byte): (d: Argb)
    ensures forall j :: 0 <= j < 4 && i < 4 ==> Part(d, j) == if j == i then v else Part(c, j)
  {
    if i == 0 then c.(a := v) else if i == 1 then c.(r := v) else if i == 2 then c.(g := v) else c.(b := v)
  }

  // ---------------------------------------------------------------- the LUT port

  /** The palette's colour bytes and the cursor, as the guest meets them through the port. */
  datatype Lut = Lut(clut: seq<Argb>, entry: nat, color: nat)

  predicate Proper(l: Lut) { |l.clut| == 0x100 && l.entry < 0x100 && l.color < 3 }

  function NextPart(l: Lut): (m: Lut)
    requires Proper(l)
    ensures Proper(m)
  {
    l.(color := (l.color + 1) % 3, entry := if (l.color + 1) % 3 == 0 then (l.entry + 1) % 0x100 else l.entry)
  }

  function Expanded(value: byte): byte { value / 0x10 * 0x11 }

  function HighNibble(value: byte): byte { value / 0x10 * 0x10 }

  /** Register 0x17 written: the high nibble, doubled, into the colour under the cursor. */
  function Put(l: Lut, value: byte): (m: Lut)
    requires Proper(l)
    ensures Proper(m)
  {
    NextPart(l.(clut := l.clut[l.entry := WithPart(l.clut[l.entry], l.color + 1, Expanded(value))]))
  }

  function Get(l: Lut): byte
    requires Proper(l)
  {
    HighNibble(Part(l.clut[l.entry], l.color + 1))
  }

  function Puts(l: Lut, values: seq<byte>): (m: Lut)
    requires Proper(l)
    ensures Proper(m)
  {
    if values == [] then l else Put(Puts(l, values[..|values| - 1]), values[|values| - 1])
  }

  /** What n reads of register 0x17 return. */
  function Gets(l: Lut, n: nat): (values: seq<byte>)
    requires Proper(l)
    ensures |values| == n
  {
    if n == 0 then [] else Gets(l, n - 1) + [Get(Skip(l, n - 1))]
  }

  function Skip(l: Lut, n: nat): (m: Lut)
    requires Proper(l)
    ensures Proper(m) && m.clut == l.clut
  {
    if n == 0 then l else NextPart(Skip(l, n - 1))
  }

  /** The cursor as a place among the 768 colours. */
  function Place(entry: nat, color: nat, n: nat): nat { (3 * entry + color + n) % 768 }

  lemma {:induction false} SkipPlace(l: Lut, n: nat)
    requires Proper(l)
    ensures 3 * Skip(l, n).entry + Skip(l, n).color == Place(l.entry, l.color, n)
  {
    if n > 0 {
      SkipPlace(l, n - 1);
      NextPlace(Skip(l, n - 1));
      PlaceStep(3 * l.entry + l.color + n - 1);
    }
  }

  lemma NextPlace(l: Lut)
    requires Proper(l)
    ensures 3 * NextPart(l).entry + NextPart(l).color == (3 * l.entry + l.color + 1) % 768
  {
    var p := 3 * l.entry + l.color + 1;
    if l.color < 2 {
      assert (l.color + 1) % 3 == l.color + 1;
    } else if l.entry < 0xff {
      assert (l.entry + 1) % 0x100 == l.entry + 1;
    } else {
      assert p == 768;
    }
  }

  lemma PlaceStep(p: nat)
    ensures (p % 768 + 1) % 768 == (p + 1) % 768
  {}

  /** The cursor and the colours after some writes: each value at its place, the last 768 kept. */
  lemma {:induction false} PutsPlace(l: Lut, values: seq<byte>, e: nat, c: nat)
    requires Proper(l) && |values| <= 768 && e < 0x100 && c < 3
    ensures var m := Puts(l, values);
            && (m.entry, m.color) == (Skip(l, |values|).entry, Skip(l, |values|).color)
            && (forall i :: 0 <= i < |values| && Place(l.entry, l.color, i) == 3 * e + c ==>
                  Part(m.clut[e], c + 1) == Expanded(values[i]))
  {
    if values != [] {
      var n := |values| - 1;
      PutsPlace(l, values[..n], e, c);
      SkipPlace(l, n);
      var m := Puts(l, values[..n]);
      if e == m.entry && c == m.color {
        forall i | 0 <= i <= n && Place(l.entry, l.color, i) == 3 * e + c
          ensures Part(Puts(l, values).clut[e], c + 1) == Expanded(values[i])
        {
          assert Place(l.entry, l.color, i) == Place(l.entry, l.color, n);
          PlaceOnce(l.entry, l.color, i, n);
        }
      } else {
        forall i | 0 <= i <= n && Place(l.entry, l.color, i) == 3 * e + c
          ensures Part(Puts(l, values).clut[e], c + 1) == Expanded(values[i])
        {
          assert i != n;
          assert values[i] == values[..n][i];
        }
      }
    }
  }

  lemma PlaceOnce(entry: nat, color: nat, i: nat, j: nat)
    requires i < 768 && j < 768 && Place(entry, color, i) == Place(entry, color, j)
    ensures i == j
  {}

  /** Up to a full palette of colours written through the port from an entry on, wrapping
      past the last, reads back from that entry as the high nibble of each byte. */
  lemma {:induction false} LutRoundTrip(l: Lut, values: seq<byte>, n: nat)
    requires Proper(l) && l.color == 0 && n <= |values| <= 768
    ensures var back := Gets(Puts(l, values).(entry := l.entry, color := 0), n);
            forall i :: 0 <= i < n ==> back[i] == HighNibble(values[i])
  {
    if n > 0 {
      LutRoundTrip(l, values, n - 1);
      var m := Puts(l, values).(entry := l.entry, color := 0);
      var s := Skip(m, n - 1);
      SkipPlace(m, n - 1);
      PutsPlace(l, values, s.entry, s.color);
      NibbleKept(values[n - 1]);
    }
  }

  lemma NibbleKept(v: byte)
    ensures HighNibble(Expanded(v)) == HighNibble(v)
  {
    assert Expanded(v) == (v / 0x10) * 0x10 + v / 0x10;
  }

  // ---------------------------------------------------------------- the state image

  /** A byte as the state setter keeps it: padding stays clear, the colour phase is cut to 3. */
  function Kept(offset: nat, value: byte): byte {
    if offset == LUT_OFFSET + 1 then value % 3
    else if LUT_OFFSET + 1 < offset < CLUT_OFFSET then 0
    else value
  }

  /** An image after a block of bytes was written back into it. */
  function Overlaid(image: seq<byte>, offset: nat, src: seq<byte>): (r: seq<byte>)
    requires offset + |src| <= |image|
    ensures |r| == |image|
    ensures forall k :: 0 <= k < |image| ==>
              r[k] == if offset <= k < offset + |src| then Kept(k, src[k - offset]) else image[k]
  {
    seq(|image|, k requires 0 <= k < |image| =>
      if offset <= k < offset + |src| then Kept(k, src[k - offset]) else image[k])
  }

  /** The bytes of a saved image written back from the front, in pieces of the given sizes. */
  function Restored(image: seq<byte>, saved: seq<byte>, sizes: seq<nat>): (r: seq<byte>)
    requires |image| == |saved| && Sum(sizes) <= |saved|
    ensures |r| == |image|
  {
    if sizes == [] then image
    else
      var n := sizes[|sizes| - 1];
      var done := Sum(sizes[..|sizes| - 1]);
      Overlaid(Restored(image, saved, sizes[..|sizes| - 1]), done, saved[done..done + n])
  }

  function Sum(sizes: seq<nat>): nat {
    if sizes == [] then 0 else Sum(sizes[..|sizes| - 1]) + sizes[|sizes| - 1]
  }

  /** An image the state reader could have produced. */
  predicate Sound(image: seq<byte>) {
    |image| == STATE_SIZE && forall k :: 0 <= k < STATE_SIZE ==> image[k] == Kept(k, image[k])
  }

  /** In whatever consecutive pieces a saved image is written back, it is restored. */
  lemma {:induction false} ChunksRestore(image: seq<byte>, saved: seq<byte>, sizes: seq<nat>)
    requires Sound(image) && Sound(saved) && Sum(sizes) <= STATE_SIZE
    ensures Restored(image, saved, sizes) == saved[..Sum(sizes)] + image[Sum(sizes)..]
  {
    if sizes != [] {
      ChunksRestore(image, saved, sizes[..|sizes| - 1]);
    }
  }

  class Display {
    const regs: array<byte>
    const clut: array<Argb>
    const clut565: array<nat>
    var vram: array?<byte>
    var lutEntry: byte
    var lutColor: byte

    ghost predicate Valid()
      reads this, regs, clut, clut565
    {
      && regs.Length == SED_REG_SIZE && clut.Length == 0x100 == clut565.Length && regs != vram
      && (vram != null ==> vram.Length == SED_VRAM_SIZE)
      && lutColor < 3
      && (forall i :: 0 <= i < 0x100 ==> clut565[i] == ArgbTo565(clut[i]))
    }

    ghost function TheLut(): (l: Lut)
      requires Valid()
      reads this, regs, clut, clut565
      ensures Proper(l)
    {
      Lut(clut[..], lutEntry as nat, lutColor as nat)
    }

    constructor ()
      ensures Valid() && vram == null
    {
      regs := new byte[SED_REG_SIZE](_ => 0);
      clut := new Argb[0x100](_ => Argb(0, 0, 0, 0));
      clut565 := new nat[0x100](_ => 0);
      vram, lutEntry, lutColor := null, 0, 0;
    }

    method UpdateClut565(index: nat)
      requires clut.Length == 0x100 == clut565.Length && index < 0x100
      modifies clut565
      ensures clut565[..] == old(clut565[..])[index := ArgbTo565(clut[index])]
    {
      clut565[index] := ArgbTo565(clut[index]);
    }

    /** The video memory is taken on first use; spiram and internal say what the two
        allocations would return. */
    method EnsureAllocated(spiram: bool, internal: bool) returns (ok: bool)
      requires Valid()
      modifies this`vram
      ensures Valid() && ok == (vram != null) == (old(vram) != null || spiram || internal)
      ensures old(vram) != null ==> vram == old(vram)
      ensures old(vram) == null && vram != null ==> fresh(vram)
      ensures forall k :: 0 <= k < VRAM_OFFSET ==> StateByte(k) == old(StateByte(k))
    {
      if vram != null { return true; }
      if spiram || internal {
        vram := new byte[SED_VRAM_SIZE];
      }
      ok := vram != null;
    }

    /** What initialisation leaves in the registers. */
    static function InitialReg(i: nat): byte {
      match i
      case 0x00 => 0x24
      case 0x04 => 19
      case 0x05 => 159
      case 0x12 => 20
      case _ => 0
    }

    static function Grey(i: nat): Argb
      requires i < 0x100
    {
      Argb(0xff, i as byte, i as byte, i as byte)
    }

    method Init(spiram: bool, internal: bool) returns (ok: bool)
      requires Valid()
      modifies this, regs, clut, clut565, vram
      ensures Valid() && ok == (old(vram) != null || spiram || internal)
      ensures ok ==> vram != null && TheLut().entry == 0 == TheLut().color
      ensures ok ==> forall i :: 0 <= i < SED_VRAM_SIZE ==> vram[i] == 0
      ensures ok ==> forall i :: 0 <= i < 0x100 ==> clut[i] == Grey(i)
      ensures ok ==> forall i :: 0 <= i < SED_REG_SIZE ==> regs[i] == InitialReg(i)
      ensures !ok ==> regs[..] == old(regs[..]) && TheLut() == old(TheLut()) && vram == null
    {
      ok := EnsureAllocated(spiram, internal);
      if !ok { return; }
      ResetRegs();
      var memory := vram;
      forall i | 0 <= i < SED_VRAM_SIZE { memory[i] := 0; }
      lutEntry, lutColor := 0, 0;
      GreyRamp();
    }

    method ResetRegs()
      requires regs.Length == SED_REG_SIZE
      modifies regs
      ensures forall i :: 0 <= i < SED_REG_SIZE ==> regs[i] == InitialReg(i)
    {
      forall i | 0 <= i < SED_REG_SIZE { regs[i] := 0; }
      regs[0x00] := 0x24;
      regs[0x04] := 19;
      regs[0x05] := 159;
      regs[0x12] := 20;
    }

    method GreyRamp()
      requires clut.Length == 0x100 == clut565.Length
      modifies clut, clut565
      ensures forall i :: 0 <= i < 0x100 ==> clut[i] == Grey(i) && clut565[i] == ArgbTo565(clut[i])
    {
      var i := 0;
      while i < 0x100
        invariant i <= 0x100
        invariant forall j :: 0 <= j < i ==> clut[j] == Grey(j) && clut565[j] == ArgbTo565(clut[j])
      {
        clut[i] := Grey(i);
        UpdateClut565(i);
        i := i + 1;
      }
    }

    method ReadReg(offset: nat) returns (value: byte)
      requires Valid()
      modifies this`lutEntry, this`lutColor
      ensures Valid()
      ensures offset == 0x17 ==> value == Get(old(TheLut())) && TheLut() == NextPart(old(TheLut()))
      ensures offset != 0x17 ==> TheLut() == old(TheLut())
      ensures offset == 0x0a ==> value >= 0x80 && value % 0x80 == regs[offset] % 0x80
      ensures offset !in {0x0a, 0x17} ==> value == if offset < SED_REG_SIZE then regs[offset] else 0xff
    {
      if offset == 0x0a {
        return regs[offset] % 0x80 + 0x80;   // | 0x80
      }
      if offset == 0x17 {
        var entry := clut[lutEntry];
        if lutColor == 0 {
          value := HighNibble(entry.r);
        } else if lutColor == 1 {
          value := HighNibble(entry.g);
        } else {
          value := HighNibble(entry.b);
        }
        Advance();
        return;
      }
      value := if offset < SED_REG_SIZE then regs[offset] else 0xff;
    }

    method Advance()
      requires Valid()
      modifies this`lutEntry, this`lutColor
      ensures Valid() && TheLut() == NextPart(old(TheLut()))
    {
      lutColor := (lutColor + 1) % 3;
      if lutColor == 0 {
        lutEntry := if lutEntry == 0xff then 0 else lutEntry + 1;   // ++ on a uint8_t
      }
    }

    method WriteReg(offset: nat, value: byte)
      requires Valid()
      modifies this`lutEntry, this`lutColor, regs, clut, clut565
      ensures Valid()
      ensures regs[..] == if 0 < offset < SED_REG_SIZE then old(regs[..])[offset := value] else old(regs[..])
      ensures TheLut() == if offset == 0x15 then old(TheLut()).(entry := value as nat, color := 0)
                          else if offset == 0x17 then Put(old(TheLut()), value)
                          else old(TheLut())
    {
      if offset == 0x00 || offset >= SED_REG_SIZE { return; }
      regs[offset] := value;
      if offset == 0x15 {
        lutEntry, lutColor := value, 0;
        return;
      }
      if offset == 0x17 {
        var expanded := value / 0x10 * 0x11;
        var entry := clut[lutEntry];
        if lutColor == 0 {
          clut[lutEntry] := entry.(r := expanded);
        } else if lutColor == 1 {
          clut[lutEntry] := entry.(g := expanded);
        } else {
          clut[lutEntry] := entry.(b := expanded);
        }
        UpdateClut565(lutEntry as nat);
        Advance();
      }
    }

    /** sed1375StateByte. */
    function StateByte(offset: nat): byte
      requires Valid()
      reads this, regs, clut, clut565, vram
    {
      if offset < SED_REG_SIZE then regs[offset]
      else if offset == LUT_OFFSET then lutEntry
      else if offset == LUT_OFFSET + 1 then lutColor
      else if offset < CLUT_OFFSET then 0
      else if offset < VRAM_OFFSET then Part(clut[(offset - CLUT_OFFSET) / 4], (offset - CLUT_OFFSET) % 4)
      else if offset < STATE_SIZE && vram != null then vram[offset - VRAM_OFFSET]
      else 0
    }

    ghost function Image(): (image: seq<byte>)
      requires Valid()
      reads this, regs, clut, clut565, vram
      ensures |image| == STATE_SIZE && forall k :: 0 <= k < STATE_SIZE ==> image[k] == StateByte(k)
    {
      seq(STATE_SIZE, k requires 0 <= k && Valid() reads this, regs, clut, clut565, vram => StateByte(k))
    }

    /** An image leaves nothing out: registers, cursor, palette (so its 16-bit form) and
        video memory can all be read off it, and the state reader produces sound images. */
    lemma ImageIsState()
      requires Valid() && vram != null
      ensures Sound(Image()) && regs[..] == Image()[..SED_REG_SIZE] && vram[..] == Image()[VRAM_OFFSET..]
      ensures lutEntry == Image()[LUT_OFFSET] && lutColor == Image()[LUT_OFFSET + 1]
      ensures forall i, j :: 0 <= i < 0x100 && 0 <= j < 4 ==> Part(clut[i], j) == Image()[CLUT_OFFSET + 4 * i + j]
    {
      forall i, j | 0 <= i < 0x100 && 0 <= j < 4 ensures Part(clut[i], j) == Image()[CLUT_OFFSET + 4 * i + j] {
        assert Image()[CLUT_OFFSET + 4 * i + j] == StateByte(CLUT_OFFSET + 4 * i + j);
        assert (4 * i + j) / 4 == i && (4 * i + j) % 4 == j;
      }
    }

    /** sed1375SetStateByte. */
    method SetStateByte(offset: nat, value: byte)
      requires Valid() && offset < STATE_SIZE && vram != null
      modifies this`lutEntry, this`lutColor, regs, clut, clut565, vram
      ensures Valid() && vram == old(vram)
      ensures Image() == Overlaid(old(Image()), offset, [value])
    {
      if offset < SED_REG_SIZE {
        regs[offset] := value;
      } else if offset == LUT_OFFSET {
        lutEntry := value;
      } else if offset == LUT_OFFSET + 1 {
        lutColor := value % 3;
      } else if offset < CLUT_OFFSET {
      } else if offset < VRAM_OFFSET {
        SetClutByte(offset - CLUT_OFFSET, value);
      } else {
        var memory := vram;
        memory[offset - VRAM_OFFSET] := value;
      }
    }

    method SetClutByte(clutOffset: nat, value: byte)
      requires Valid() && clutOffset < 4 * 0x100
      modifies clut, clut565
      ensures Valid()
      ensures clut[..] == old(clut[..])[clutOffset / 4 := WithPart(old(clut[clutOffset / 4]), clutOffset % 4, value)]
    {
      clut[clutOffset / 4] := WithPart(clut[clutOffset / 4], clutOffset % 4, value);
      UpdateClut565(clutOffset / 4);
    }

    method ReadStateBytes(offset: nat, dest: array<byte>, count: nat, spiram: bool, internal: bool) returns (ok: bool)
      requires Valid() && dest != regs && dest != vram && count <= dest.Length
      modifies this`vram, dest
      ensures Valid() && ok == (offset + count <= STATE_SIZE && (old(vram) != null || spiram || internal))
      ensures ok ==> dest[..count] == Image()[offset..offset + count] && dest[count..] == old(dest[count..])
      ensures old(vram) != null ==> vram == old(vram)
    {
      if offset > STATE_SIZE || count > STATE_SIZE - offset { return false; }
      ok := EnsureAllocated(spiram, internal);
      if !ok { return; }
      ghost var image := Image();
      var i := 0;
      while i < count
        invariant i <= count && Valid() && Image() == image
        invariant dest[..i] == image[offset..offset + i] && dest[count..] == old(dest[count..])
        modifies dest
      {
        dest[i] := StateByte(offset + i);
        i := i + 1;
        assert dest[..i] == dest[..i - 1] + [dest[i - 1]];
      }
    }

    /** Over memory that is not allocated yet the block lands in fresh memory, whose other bytes
        are whatever the allocator left there. */
    method WriteStateBytes(offset: nat, src: seq<byte>, spiram: bool, internal: bool) returns (ok: bool)
      requires Valid()
      modifies this`vram, this`lutEntry, this`lutColor, regs, clut, clut565, vram
      ensures Valid() && ok == (offset + |src| <= STATE_SIZE && (old(vram) != null || spiram || internal))
      ensures old(vram) != null ==> Image() == if ok then Overlaid(old(Image()), offset, src) else old(Image())
      ensures forall k :: 0 <= k < STATE_SIZE && (k < VRAM_OFFSET || old(vram) != null) ==>
                StateByte(k) == if ok && offset <= k < offset + |src| then Kept(k, src[k - offset])
                                else old(StateByte(k))
      ensures ok ==> forall k :: offset <= k < offset + |src| ==> StateByte(k) == Kept(k, src[k - offset])
    {
      if offset > STATE_SIZE || |src| > STATE_SIZE - offset { return false; }
      ok := EnsureAllocated(spiram, internal);
      if !ok { return; }
      ghost var image := Image();
      CopyState(offset, src);
      assert forall k :: 0 <= k < STATE_SIZE ==> StateByte(k) == Overlaid(image, offset, src)[k];
    }

    /** The loop of setters. */
    method CopyState(offset: nat, src: seq<byte>)
      requires Valid() && vram != null && offset + |src| <= STATE_SIZE
      modifies this`lutEntry, this`lutColor, regs, clut, clut565, vram
      ensures Valid() && vram == old(vram) && Image() == Overlaid(old(Image()), offset, src)
    {
      ghost var image := Image();
      var i := 0;
      while i < |src|
        invariant i <= |src| && Valid()
        invariant Image() == Overlaid(image, offset, src[..i])
      {
        SetStateByte(offset + i, src[i]);
        i := i + 1;
        OverlaidNext(image, offset, src, i);
      }
      assert src[..|src|] == src;
    }
  }

  lemma OverlaidNext(image: seq<byte>, offset: nat, src: seq<byte>, i: nat)
    requires 0 < i <= |src| && offset + |src| <= |image|
    ensures Overlaid(Overlaid(image, offset, src[..i - 1]), offset + i - 1, [src[i - 1]])
            == Overlaid(image, offset, src[..i])
  {}
}
