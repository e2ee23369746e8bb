/** Plain memory as the 68000 core sees it: a byte at each of 2^32 addresses, words and longs
    big-endian, addresses wrapping. */
module M68kMemory {
  import opened AddressMap
  import opened Arith

  type Memory = m: seq<byte> | |m| == 0x1_0000_0000 witness seq(0x1_0000_0000, _ => 0)

  /** Address arithmetic on 32 bits. */
  function At(a: int): (r: uint32)
    requires -TWO32 <= a < 2 * TWO32
  {
    if a < 0 then a + TWO32 else if a < TWO32 then a else a - TWO32
  }

  function Up(a: uint32, n: nat): uint32
    requires n < TWO32
  {
    At(a + n)
  }

  /** w / d for the two divisors of a big-endian layout, away from the solver's division. */
  function Over(w: nat, d: nat): (q: nat)
    requires d == 0x100 || d == TWO16
    ensures d == 0x100 ==> 0x100 * q <= w < 0x100 * q + 0x100
    ensures d == TWO16 ==> TWO16 * q <= w < TWO16 * q + TWO16
  {
    if w < d then 0 else 1 + Over(w - d, d)
  }

  function Rest(w: nat, d: nat): (r: nat)
    requires d == 0x100 || d == TWO16
    ensures r < d
  {
    if d == 0x100 then w - 0x100 * Over(w, 0x100) else w - TWO16 * Over(w, TWO16)
  }

  function Read16(m: Memory, a: uint32): (w: nat)
    ensures w < TWO16
  {
    m[a] as nat * 0x100 + m[At(a + 1)] as nat
  }

  function Write16(m: Memory, a: uint32, w: nat): (n: Memory)
    requires w < TWO16
    ensures Read16(n, a) == w
    ensures forall b: uint32 :: b != a && b != At(a + 1) ==> n[b] == m[b]
  {
    m[a := Over(w, 0x100) as byte][At(a + 1) := Rest(w, 0x100) as byte]
  }

  function Read32(m: Memory, a: uint32): (w: uint32) {
    Read16(m, a) * TWO16 + Read16(m, At(a + 2))
  }

  function Write32(m: Memory, a: uint32, w: uint32): (n: Memory)
    ensures Read32(n, a) == w
    ensures forall b: uint32 :: b != a && b != At(a + 1) && b != At(a + 2) && b != At(a + 3) ==> n[b] == m[b]
  {
    Write16(Write16(m, a, Over(w, TWO16)), At(a + 2), Rest(w, TWO16))
  }

  /** Distance from one address up to another. */
  predicate Clear(a: uint32, b: uint32, n: nat) { At(b - a) >= n && At(a - b) >= n }

  lemma ReadOther32(m: Memory, a: uint32, w: uint32, b: uint32)
    requires Clear(a, b, 4)
    ensures Read32(Write32(m, a, w), b) == Read32(m, b)
  {}

  lemma ReadSame32(m: Memory, n: Memory, a: uint32)
    requires m[a] == n[a] && m[Up(a, 1)] == n[Up(a, 1)] && m[Up(a, 2)] == n[Up(a, 2)] && m[Up(a, 3)] == n[Up(a, 3)]
    ensures Read32(m, a) == Read32(n, a)
  {
    assert At(At(a + 2) + 1) == At(a + 3);
  }
}
