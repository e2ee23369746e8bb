/** Long multiply and divide of the 68020 family: the portable 32-bit forms and the 64-bit
    forms, each against the arithmetic they stand for. */
module M68kLong {
  import opened Arith
  import opened AddressMap

  /** The signed reading of a register, and casts back to 32 bits. */
  function Read(x: uint32, signed: bool): int { if signed then Signed(x) else x }

  function Word(x: int): (w: uint32)
    ensures 0 <= x < TWO32 ==> w == x
  {
    x % TWO32
  }

  function Negated(x: uint32): (w: uint32)
    ensures w == if x == 0 then 0 else TWO32 - x
  {
    Word(0 - x as int)
  }

  // --------------------------------------------------------------------- MULL

  /** Both result registers and the flags; C is always cleared. */
  datatype Product = Product(hi: uint32, lo: uint32, n: bool, z: bool, v: bool)

  /** The product in 64 bits, two's complement. */
  predicate IsProduct(p: int, hi: uint32, lo: uint32) {
    hi * TWO32 + lo == if p < 0 then p + TWO64 else p
  }

  /** What MULL promises: a quad result with N and Z of all 64 bits and V clear, or the low
      long with its own N and Z, and V when the product does not fit it. */
  ghost predicate Multiplied(r: Product, src: uint32, dst: uint32, signed: bool, quad: bool) {
    var p := Read(src, signed) * Read(dst, signed);
    && IsProduct(p, r.hi, r.lo)
    && (quad ==> r.n == (r.hi >= TWO31) && r.z == (p == 0) && !r.v)
    && (!quad ==> r.n == (r.lo >= TWO31) && r.z == (r.lo == 0)
                  && r.v == if signed then !(-TWO31 <= p < TWO31) else p >= TWO32)
  }

  /** Nothing else is promised by those words: they determine the outcome. */
  lemma MultipliedOnce(r: Product, s: Product, src: uint32, dst: uint32, signed: bool, quad: bool)
    requires Multiplied(r, src, dst, signed, quad) && Multiplied(s, src, dst, signed, quad)
    ensures r == s
  {
    assert r.hi * TWO32 + r.lo == s.hi * TWO32 + s.lo;
  }

  lemma ProductBounds(a: uint32, b: uint32, signed: bool)
    ensures var p := Read(a, signed) * Read(b, signed);
            if signed then -(TWO31 * TWO31) <= p <= TWO31 * TWO31 else 0 <= p <= (TWO32 - 1) * (TWO32 - 1)
  {
    var x, y := Read(a, signed), Read(b, signed);
    if signed {
      SignedBound(x, y);
    } else {
      MulMono(x, TWO32 - 1, y);
      MulMono(y, TWO32 - 1, TWO32 - 1);
    }
  }

  lemma SignedBound(x: int, y: int)
    requires -TWO31 <= x < TWO31 && -TWO31 <= y < TWO31
    ensures -(TWO31 * TWO31) <= x * y <= TWO31 * TWO31
  {
    var a: nat, b: nat := if x < 0 then -x else x, if y < 0 then -y else y;
    MulMono(a, TWO31, b);
    MulMono(b, TWO31, TWO31);
    assert x * y == if (x < 0) == (y < 0) then a * b else -(a * b);
  }

  /** The form that multiplies in 64 bits. */
  method MullWide(src: uint32, dst: uint32, signed: bool, quad: bool) returns (r: Product)
    ensures Multiplied(r, src, dst, signed, quad)
  {
    ProductBounds(src, dst, signed);
    var p := Read(src, signed) * Read(dst, signed);
    var res := if p < 0 then p + TWO64 else p;
    var hi, lo := res / TWO32, res % TWO32;
    if !quad {
      var v := if signed then p != Signed(lo) else res > 0xffff_ffff;
      return Product(hi, lo, lo >= TWO31, lo == 0, v);
    }
    return Product(hi, lo, res >= TWO31 * TWO32, lo == 0 && hi == 0, false);
  }

  /** The sixteen-bit partial products put together. */
  lemma PartialProducts(s1: nat, s2: nat, d1: nat, d2: nat)
    requires s1 < TWO16 && s2 < TWO16 && d1 < TWO16 && d2 < TWO16
    ensures (s2 * TWO16 + s1) * (d2 * TWO16 + d1)
            == s2 * d2 * TWO32 + (s1 * d2 + s2 * d1) * TWO16 + s1 * d1
    ensures s1 * d1 <= 0xfffe_0001 && s1 * d2 <= 0xfffe_0001 && s2 * d1 <= 0xfffe_0001 && s2 * d2 <= 0xfffe_0001
  {
    Partial(s1, d1);
    Partial(s1, d2);
    Partial(s2, d1);
    Partial(s2, d2);
    assert (s2 * TWO16 + s1) * (d2 * TWO16 + d1)
        == (s2 * TWO16) * (d2 * TWO16) + (s2 * TWO16) * d1 + s1 * (d2 * TWO16) + s1 * d1;
    assert (s2 * TWO16) * (d2 * TWO16) == s2 * d2 * TWO32;
  }

  lemma Partial(x: nat, y: nat)
    requires x < TWO16 && y < TWO16
    ensures x * y <= 0xfffe_0001
  {
    MulMono(x, TWO16 - 1, y);
    MulMono(y, TWO16 - 1, TWO16 - 1);
  }

  /** Their sum, carries gathered in two words. */
  lemma Gathered(r1: nat, r2: nat, r3: nat, r4: nat)
    requires r1 <= 0xfffe_0001 && r2 <= 0xfffe_0001 && r3 <= 0xfffe_0001 && r4 <= 0xfffe_0001
    ensures var lo := (r1 + r2 % TWO16 * TWO16 + r3 % TWO16 * TWO16) % TWO32;
            var hi := r4 + r2 / TWO16 + r3 / TWO16 + (r1 / TWO16 + r2 % TWO16 + r3 % TWO16) / TWO16;
            hi * TWO32 + lo == r4 * TWO32 + (r2 + r3) * TWO16 + r1
  {
    var mid := r1 / TWO16 + r2 % TWO16 + r3 % TWO16;
    var low := r1 + r2 % TWO16 * TWO16 + r3 % TWO16 * TWO16;
    assert low == mid * TWO16 + r1 % TWO16;
    assert low / TWO32 == mid / TWO16;
  }

  /** The portable form. */
  method MullPortable(src: uint32, dst: uint32, signed: bool, quad: bool) returns (r: Product)
    ensures Multiplied(r, src, dst, signed, quad)
  {
    var hi, lo := MullSigned(src, dst, signed);
    ProductBounds(src, dst, signed);
    if quad {
      return Product(hi, lo, hi >= TWO31, hi == 0 && lo == 0, false);
    }
    var v := if signed then !((lo >= TWO31 && hi == 0xffff_ffff) || (lo < TWO31 && hi == 0)) else hi != 0;
    return Product(hi, lo, lo >= TWO31, lo == 0, v);
  }

  /** Magnitudes multiplied, the sign put back on both words. */
  method MullSigned(src: uint32, dst: uint32, signed: bool) returns (hi: uint32, lo: uint32)
    ensures IsProduct(Read(src, signed) * Read(dst, signed), hi, lo)
  {
    var neg := (src >= TWO31) != (dst >= TWO31);
    var s, d := src, dst;
    if signed {
      if s >= TWO31 { s := Negated(s); }
      if d >= TWO31 { d := Negated(d); }
    }
    hi, lo := MullHalves(s, d);
    Signs(src, dst, s, d, signed);
    if signed && neg {
      NegatedPair(hi, lo);
      hi := Word(0 - hi as int - if lo != 0 then 1 else 0);
      lo := Negated(lo);
    }
  }

  /** Two's complement of a pair of words. */
  lemma NegatedPair(hi: uint32, lo: uint32)
    ensures var h, l := Word(0 - hi as int - if lo != 0 then 1 else 0), Negated(lo);
            h * TWO32 + l == if hi == 0 && lo == 0 then 0 else TWO64 - (hi * TWO32 + lo)
  {}

  lemma Signs(src: uint32, dst: uint32, s: int, d: int, signed: bool)
    requires s == if signed && src >= TWO31 then TWO32 - src else src
    requires d == if signed && dst >= TWO31 then TWO32 - dst else dst
    ensures Read(src, signed) * Read(dst, signed)
            == if signed && (src >= TWO31) != (dst >= TWO31) then -(s * d) else s * d
  {
    var x, y := Read(src, signed), Read(dst, signed);
    if x == -s && y == -d {
      assert (-s) * (-d) == s * d;
    } else if x == -s {
      assert (-s) * d == -(s * d);
    } else if y == -d {
      assert s * (-d) == -(s * d);
    }
  }

  method MullHalves(src: uint32, dst: uint32) returns (hi: uint32, lo: uint32)
    ensures hi * TWO32 + lo == src * dst
  {
    var src1, src2, dst1, dst2 := src % TWO16, src / TWO16, dst % TWO16, dst / TWO16;
    PartialProducts(src1, src2, dst1, dst2);
    var r1, r2, r3, r4 := src1 * dst1, src1 * dst2, src2 * dst1, src2 * dst2;
    Gathered(r1, r2, r3, r4);
    assert src == src2 * TWO16 + src1 && dst == dst2 * TWO16 + dst1;
    lo := Word(r1 + r2 % TWO16 * TWO16 + r3 % TWO16 * TWO16);
    var high := r4 + r2 / TWO16 + r3 / TWO16 + (r1 / TWO16 + r2 % TWO16 + r3 % TWO16) / TWO16;
    assert high * TWO32 + lo == src * dst;
    MulMono(src, TWO32 - 1, dst);
    MulMono(dst, TWO32 - 1, TWO32 - 1);
    hi := high;
  }

  // --------------------------------------------------------------------- DIVL

  datatype Quotient = ZeroDivide | Overflow | Quotient(quotient: uint32, remainder: uint32, n: bool, z: bool)

  /** x >> i. */
  function Shifted(x: nat, i: nat): (y: nat)
    ensures y <= x
  {
    if i == 0 then x else Shifted(x, i - 1) / 2
  }

  lemma {:induction false} ShiftedBound(x: nat, i: nat, n: nat)
    requires i <= n && x < Pow2(n)
    ensures Shifted(x, i) < Pow2(n - i)
  {
    if i > 0 {
      ShiftedBound(x, i - 1, n);
      assert Pow2(n - (i - 1)) == 2 * Pow2(n - i);
    }
  }

  lemma Pow32()
    ensures Pow2(32) == TWO32
  {
    assert Pow2(8) == 0x100;
    assert Pow2(16) == TWO16;
    assert Pow2(24) == 0x100_0000;
  }

  /** One turn of restoring division: the bit that comes in, and whether the divisor fits. */
  lemma DivisionTurn(value: nat, bit: nat, q: nat, r: nat, divisor: nat)
    requires value == q * divisor + r && r < divisor && bit < 2
    ensures var r2 := 2 * r + bit;
            2 * value + bit == if r2 >= divisor then (2 * q + 1) * divisor + (r2 - divisor) else 2 * q * divisor + r2
  {
    assert (2 * q + 1) * divisor == 2 * (q * divisor) + divisor && 2 * q * divisor == 2 * (q * divisor);
  }

  lemma QuotientBound(value: nat, p: nat, q: nat, r: nat, divisor: nat)
    requires value == q * divisor + r && value < divisor * p
    ensures q < p
  {
    if q >= p {
      MulMono(p, q, divisor);
    }
  }

  lemma TopWord(hi: nat, low: nat, p: nat, divisor: nat)
    requires hi < divisor && low < p
    ensures hi * p + low < divisor * p
  {
    MulMono(hi + 1, divisor, p);
    assert (hi + 1) * p == hi * p + p;
  }

  /** The first loop of the portable form: with the high word below the divisor it only
      moves that word into the remainder. */
  method FirstHalf(hi: uint32, divisor: uint32) returns (quotient: uint32, remainder: uint32)
    requires hi < divisor
    ensures quotient == 0 && remainder == hi
  {
    quotient, remainder := 0, 0;
    var i := 31;
    Pow32();
    ShiftedBound(hi, 32, 32);
    while i >= 0
      invariant -1 <= i <= 31 && quotient == 0 && remainder == Shifted(hi, i + 1)
    {
      quotient := Word(quotient * 2);
      assert Shifted(hi, i + 1) == Shifted(hi, i) / 2;
      remainder := Word(remainder * 2 + Shifted(hi, i) % 2);
      if remainder >= divisor {
        remainder, quotient := Word(remainder - divisor), Word(quotient + 1);
      }
      i := i - 1;
    }
  }

  /** One turn of the second loop on unbounded words. */
  lemma SecondTurn(hi: nat, s: nat, bit: nat, q: nat, r: nat, divisor: nat, p: nat)
    requires hi < divisor && s < p && bit < 2 && hi * p + s == q * divisor + r && r < divisor
    ensures var t := 2 * r + bit;
            var q2, r2 := if t >= divisor then 2 * q + 1 else 2 * q, if t >= divisor then t - divisor else t;
            && hi * (2 * p) + (2 * s + bit) == q2 * divisor + r2
            && r2 < divisor && q2 < 2 * p && 2 * s + bit < 2 * p
  {
    DivisionTurn(hi * p + s, bit, q, r, divisor);
    assert hi * (2 * p) == 2 * (hi * p);
    TopWord(hi, 2 * s + bit, 2 * p, divisor);
    var t := 2 * r + bit;
    QuotientBound(hi * (2 * p) + (2 * s + bit), 2 * p, if t >= divisor then 2 * q + 1 else 2 * q,
                  if t >= divisor then t - divisor else t, divisor);
  }

  /** The second loop: it keeps the carry out of the remainder, so 32 bits are enough. */
  method SecondHalf(hi: uint32, lo: uint32, divisor: uint32) returns (quotient: uint32, remainder: uint32)
    requires hi < divisor
    ensures hi * TWO32 + lo == quotient * divisor + remainder && remainder < divisor
  {
    quotient, remainder := 0, hi;
    var i := 31;
    Pow32();
    ShiftedBound(lo, 32, 32);
    ghost var p := 1;
    while i >= 0
      invariant -1 <= i <= 31 && p == Pow2(31 - i) && Shifted(lo, i + 1) < p
      invariant hi * p + Shifted(lo, i + 1) == quotient * divisor + remainder && remainder < divisor
    {
      SecondTurn(hi, Shifted(lo, i + 1), Shifted(lo, i) % 2, quotient, remainder, divisor, p);
      PowBound(32 - i);
      quotient, remainder := Shift(quotient, remainder, Shifted(lo, i) % 2, divisor);
      p := 2 * p;
      i := i - 1;
    }
  }

  /** The body of the loop, in 32 bits. */
  method Shift(q: uint32, r: uint32, bit: nat, divisor: uint32) returns (quotient: uint32, remainder: uint32)
    requires r < divisor && bit < 2 && 2 * q + (if 2 * r + bit >= divisor then 1 else 0) < TWO32
    ensures quotient == 2 * q + if 2 * r + bit >= divisor then 1 else 0
    ensures remainder == 2 * r + bit - if 2 * r + bit >= divisor then divisor else 0
  {
    quotient := Word(q * 2);
    var overflow := r >= TWO31;
    remainder := Word(r * 2 + bit);
    if remainder >= divisor || overflow {
      remainder := Word(remainder - divisor);
      quotient := Word(quotient + 1);
    }
  }

  lemma {:induction false} PowBound(n: nat)
    requires n <= 32
    ensures Pow2(n) <= TWO32
  {
    Pow32();
    var k := 32;
    while k > n
      invariant n <= k <= 32 && Pow2(k) <= TWO32
    {
      k := k - 1;
    }
  }

  /** C's division, which truncates. */
  function TruncDiv(a: int, b: int): (q: int)
    requires b != 0
  {
    var m: nat := Quot(if a < 0 then 0 - a else a, if b < 0 then 0 - b else b);
    if (a < 0) == (b < 0) then m else 0 - m
  }

  /** The remainder of the magnitudes, with the dividend's sign, is the truncated one. */
  lemma SignsBack(a: int, b: int, q: nat, r: nat)
    requires b != 0
    requires var x: nat, y: nat := if a < 0 then 0 - a else a, if b < 0 then 0 - b else b;
             q == Quot(x, y) && r == x - q * y
    ensures TruncDiv(a, b) == if (a < 0) == (b < 0) then q else 0 - q
    ensures a - TruncDiv(a, b) * b == if a < 0 then 0 - r else r
  {
    assert (0 - q) * b == 0 - q * b && q * (0 - b) == 0 - q * b;
  }

  /** It is the quotient whose remainder is smaller than the divisor and has the dividend's sign. */
  lemma TruncDivLaw(a: int, b: int)
    requires b != 0
    ensures var r := a - TruncDiv(a, b) * b;
            (if r < 0 then -r else r) < (if b < 0 then -b else b) && (a >= 0 ==> r >= 0) && (a <= 0 ==> r <= 0)
  {
    var x: nat, y: nat := if a < 0 then 0 - a else a, if b < 0 then 0 - b else b;
    var q := Quot(x, y);
    QuotBounds(x, y);
    assert y * q == q * y;
    SignsBack(a, b, q, x - q * y);
  }

  function Pair(hi: uint32, lo: uint32): nat { hi * TWO32 + lo }

  function Dividend(hi: uint32, lo: uint32, signed: bool, quad: bool): int {
    if !quad then Read(lo, signed)
    else if signed && hi >= TWO31 then Pair(hi, lo) - TWO64
    else Pair(hi, lo)
  }

  function Settled(q: int, r: int): Quotient { Quotient(Word(q), Word(r), Word(q) >= TWO31, Word(q) == 0) }

  /** The 64-bit form: the truncated quotient and its remainder, V alone when a quad dividend's
      quotient does not fit 32 bits. */
  function DivlWide(hi: uint32, lo: uint32, divisor: uint32, signed: bool, quad: bool): Quotient {
    if divisor == 0 then ZeroDivide
    else
      var a := Dividend(hi, lo, signed, quad);
      var b := Read(divisor, signed);
      var q := TruncDiv(a, b);
      if quad && q != Read(Word(q), signed) then Overflow else Settled(q, a - q * b)
  }

  function Magnitude(x: int): (m: nat) { if x < 0 then 0 - x else x }

  /** The operands of a signed quad division whose signs differ and whose magnitudes divide to
      2^31, without the pair the portable form tests for. */
  predicate Exceptional(hi: uint32, lo: uint32, divisor: uint32, signed: bool, quad: bool) {
    var a, b := Dividend(hi, lo, true, true), Signed(divisor);
    && signed && quad && divisor != 0 && !(hi == 0 && lo == TWO31 && divisor == 0xffff_ffff)
    && (a < 0) != (b < 0)
    && TWO31 * Magnitude(b) <= Magnitude(a) < (TWO31 + 1) * Magnitude(b)
  }

  /** Those are the divisions whose quotient is exactly -2^31. */
  lemma ExceptionalQuotient(hi: uint32, lo: uint32, divisor: uint32)
    requires divisor != 0 && !(hi == 0 && lo == TWO31 && divisor == 0xffff_ffff)
    ensures Exceptional(hi, lo, divisor, true, true)
            <==> TruncDiv(Dividend(hi, lo, true, true), Signed(divisor)) == -TWO31
  {
    var a, b := Dividend(hi, lo, true, true), Signed(divisor);
    QuotientIs(Magnitude(a), Magnitude(b), TWO31);
  }

  lemma QuotientIs(x: nat, d: nat, q: nat)
    requires d > 0
    ensures Quot(x, d) == q <==> q * d <= x < (q + 1) * d
  {
    assert (q + 1) * d == d * q + d && q * d == d * q;
    if d * q <= x < d * q + d {
      QuotUnique(x, d, q);
    } else {
      QuotBounds(x, d);
    }
  }

  lemma ExceptionalWide(hi: uint32, lo: uint32, divisor: uint32)
    ensures Exceptional(hi, lo, divisor, true, true) ==> DivlWide(hi, lo, divisor, true, true).Quotient?
  {
    if Exceptional(hi, lo, divisor, true, true) {
      ExceptionalQuotient(hi, lo, divisor);
      assert Word(-TWO31) == TWO31;
    }
  }

  /** -2^31 by 1: the 64-bit form gives the quotient, the portable one overflow. */
  lemma ExceptionalInput()
    ensures Exceptional(0xffff_ffff, 0x8000_0000, 1, true, true)
    ensures DivlWide(0xffff_ffff, 0x8000_0000, 1, true, true) == Quotient(0x8000_0000, 0, true, false)
  {
    QuotUnique(TWO31, 1, TWO31);
  }

  /** The loops together, for a high word below the divisor. */
  method DivideBits(hi: uint32, lo: uint32, divisor: uint32) returns (quotient: uint32, remainder: uint32)
    requires hi < divisor
    ensures quotient == Quot(Pair(hi, lo), divisor) && remainder == Pair(hi, lo) - quotient * divisor
  {
    quotient, remainder := FirstHalf(hi, divisor);
    quotient, remainder := SecondHalf(remainder, lo, divisor);
    QuotUnique(Pair(hi, lo), divisor, quotient);
  }

  /** A high word at or above the divisor means a quotient of 2^32 or more, and only then. */
  lemma OverflowTest(hi: uint32, lo: uint32, divisor: uint32)
    requires divisor > 0
    ensures hi >= divisor <==> Quot(Pair(hi, lo), divisor) >= TWO32
  {
    var q := Quot(Pair(hi, lo), divisor);
    QuotBounds(Pair(hi, lo), divisor);
    if hi >= divisor && q < TWO32 {
      MulMono(q, TWO32 - 1, divisor);
    } else if hi < divisor && q >= TWO32 {
      MulMono(TWO32, q, divisor);
    }
  }

  method DivideUnsigned(hi: uint32, lo: uint32, divisor: uint32) returns (r: Quotient)
    requires divisor > 0
    ensures r == DivlWide(hi, lo, divisor, false, true)
  {
    OverflowTest(hi, lo, divisor);
    if hi >= divisor { return Overflow; }
    var quotient, remainder := DivideBits(hi, lo, divisor);
    r := Quotient(quotient, remainder, quotient >= TWO31, quotient == 0);
  }

  /** The magnitudes of both operands, two's complement undone. */
  method Magnitudes(hi: uint32, lo: uint32, divisor: uint32) returns (h: uint32, l: uint32, d: uint32)
    ensures Pair(h, l) == Magnitude(Dividend(hi, lo, true, true)) && d == Magnitude(Signed(divisor))
  {
    h, l, d := hi, lo, divisor;
    if hi >= TWO31 {
      NegatedPair(h, l);
      h := Word(0 - h as int - if l != 0 then 1 else 0);
      l := Negated(l);
    }
    if divisor >= TWO31 {
      d := Negated(d);
    }
  }

  /** Exactly the values of a signed long survive the cast and back. */
  lemma SignedWord(t: int)
    ensures t == Signed(Word(t)) <==> -TWO31 <= t < TWO31
    ensures -TWO32 < t < 0 ==> Word(t) == t + TWO32
  {}

  /** The 64-bit form in terms of the magnitudes' quotient and remainder. */
  lemma WideByMagnitudes(hi: uint32, lo: uint32, divisor: uint32, q: nat, r: nat)
    requires divisor > 0
    requires var x, y := Magnitude(Dividend(hi, lo, true, true)), Magnitude(Signed(divisor));
             q == Quot(x, y) && r == x - q * y
    ensures var a, b := Dividend(hi, lo, true, true), Signed(divisor);
            var t := if (a < 0) == (b < 0) then q else 0 - q;
            DivlWide(hi, lo, divisor, true, true)
            == if -TWO31 <= t < TWO31 then Settled(t, if a < 0 then 0 - r else r) else Overflow
  {
    var a, b := Dividend(hi, lo, true, true), Signed(divisor);
    SignsBack(a, b, q, r);
    SignedWord(TruncDiv(a, b));
  }

  /** What a quotient of magnitudes means for the 64-bit form and for the exception. */
  lemma SignedOutcome(hi: uint32, lo: uint32, divisor: uint32, q: nat, r: nat)
    requires divisor > 0 && !(hi == 0 && lo == TWO31 && divisor == 0xffff_ffff)
    requires var x, y := Magnitude(Dividend(hi, lo, true, true)), Magnitude(Signed(divisor));
             q == Quot(x, y) && r == x - q * y
    ensures q < TWO31 ==>
              && !Exceptional(hi, lo, divisor, true, true)
              && DivlWide(hi, lo, divisor, true, true)
                 == Settled(if (hi >= TWO31) == (divisor >= TWO31) then q else 0 - q, if hi >= TWO31 then 0 - r else r)
    ensures q >= TWO31 && !Exceptional(hi, lo, divisor, true, true) ==>
              DivlWide(hi, lo, divisor, true, true) == Overflow
  {
    QuotientIs(Magnitude(Dividend(hi, lo, true, true)), Magnitude(Signed(divisor)), TWO31);
    WideByMagnitudes(hi, lo, divisor, q, r);
  }

  /** The division of the magnitudes, given up when the quotient passes 31 bits. */
  method DivideMagnitudes(h: uint32, l: uint32, d: uint32) returns (ok: bool, quotient: uint32, remainder: uint32)
    requires d > 0
    ensures ok <==> Quot(Pair(h, l), d) < TWO31
    ensures ok ==> quotient == Quot(Pair(h, l), d) && remainder == Pair(h, l) - quotient * d
  {
    OverflowTest(h, l, d);
    if h >= d { return false, 0, 0; }
    quotient, remainder := DivideBits(h, l, d);
    ok := quotient <= 0x7fff_ffff;
  }

  method DivideSigned(hi: uint32, lo: uint32, divisor: uint32) returns (r: Quotient)
    requires divisor > 0
    ensures !Exceptional(hi, lo, divisor, true, true) ==> r == DivlWide(hi, lo, divisor, true, true)
    ensures Exceptional(hi, lo, divisor, true, true) ==> r == Overflow
  {
    if hi == 0 && lo == 0x8000_0000 && divisor == 0xffff_ffff {
      QuotUnique(TWO31, 1, TWO31);
      return Quotient(0x8000_0000, 0, true, false);
    }
    var h, l, d := Magnitudes(hi, lo, divisor);
    var ok, quotient, remainder := DivideMagnitudes(h, l, d);
    RemainderIsNat(Pair(h, l), d);
    SignedOutcome(hi, lo, divisor, Quot(Pair(h, l), d), Pair(h, l) - Quot(Pair(h, l), d) * d);
    if !ok { return Overflow; }
    r := PutSigns(quotient, remainder, hi >= TWO31, divisor >= TWO31);
  }

  lemma RemainderIsNat(x: nat, d: nat)
    requires d > 0
    ensures x - Quot(x, d) * d >= 0
  {
    QuotBounds(x, d);
    assert d * Quot(x, d) == Quot(x, d) * d;
  }

  /** The signs back on: the remainder follows the dividend, the quotient both. */
  method PutSigns(q: uint32, rest: uint32, dividendNeg: bool, divisorNeg: bool) returns (r: Quotient)
    requires q < TWO31
    ensures r == Settled(if dividendNeg == divisorNeg then q else 0 - q, if dividendNeg then 0 - rest else rest)
  {
    var quotient, remainder := q, rest;
    if dividendNeg {
      remainder := Negated(remainder);
      quotient := Negated(quotient);
    }
    if divisorNeg {
      quotient := Negated(quotient);
    }
    r := Quotient(quotient, remainder, quotient >= TWO31, quotient == 0);
  }

  method DivideLong(hi: uint32, lo: uint32, divisor: uint32, signed: bool) returns (r: Quotient)
    requires divisor > 0
    ensures r == DivlWide(hi, lo, divisor, signed, false)
  {
    if signed {
      if lo == 0x8000_0000 && divisor == 0xffff_ffff {
        QuotUnique(TWO31, 1, TWO31);
        return Quotient(0x8000_0000, 0, true, false);
      }
      var a, b := Signed(lo), Signed(divisor);
      return Settled(TruncDiv(a, b), a - TruncDiv(a, b) * b);
    }
    LongDivision(lo, divisor);
    r := Settled(lo / divisor, lo % divisor);
  }

  lemma LongDivision(lo: uint32, divisor: uint32)
    requires divisor > 0
    ensures TruncDiv(lo, divisor) == lo / divisor && lo - TruncDiv(lo, divisor) * divisor == lo % divisor
  {
    QuotIsDiv(lo, divisor);
    DivBounds(lo, divisor);
  }

  /** The portable form agrees with the 64-bit form unless a signed quad quotient is exactly
      -2^31, when it reports overflow. */
  method DivlPortable(hi: uint32, lo: uint32, divisor: uint32, signed: bool, quad: bool) returns (r: Quotient)
    ensures !Exceptional(hi, lo, divisor, signed, quad) ==> r == DivlWide(hi, lo, divisor, signed, quad)
    ensures Exceptional(hi, lo, divisor, signed, quad) ==>
              r == Overflow && DivlWide(hi, lo, divisor, signed, quad).Quotient?
  {
    if divisor == 0 { return ZeroDivide; }
    if quad {
      if signed {
        ExceptionalWide(hi, lo, divisor);
        r := DivideSigned(hi, lo, divisor);
      } else {
        r := DivideUnsigned(hi, lo, divisor);
      }
      return;
    }
    r := DivideLong(hi, lo, divisor, signed);
  }

  // ------------------------------------------------------------------ the registers

  class Registers {
    const d: array<uint32>
    var n: bool
    var z: bool
    var v: bool
    var c: bool

    constructor ()
      ensures d.Length == 8
    {
      d := new uint32[8](_ => 0);
      n, z, v, c := false, false, false, false;
    }

    /** MULL Dy by Dl, in either form: the high word first, so that the low word stays when
        both go to one register. */
    method Mull(y: nat, dl: nat, dh: nat, signed: bool, quad: bool, portable: bool) returns (ghost r: Product)
      requires d.Length == 8 && y < 8 && dl < 8 && dh < 8
      modifies this, d
      ensures Multiplied(r, old(d[y]), old(d[dl]), signed, quad)
      ensures d[..] == if quad then old(d[..])[dh := r.hi][dl := r.lo] else old(d[..])[dl := r.lo]
      ensures (n, z, v, c) == (r.n, r.z, r.v, false)
    {
      var p;
      if portable {
        p := MullPortable(d[y], d[dl], signed, quad);
      } else {
        p := MullWide(d[y], d[dl], signed, quad);
      }
      if quad {
        d[dh] := p.hi;
      }
      d[dl] := p.lo;
      n, z, v, c := p.n, p.z, p.v, false;
      r := p;
    }

    /** DIVL in its portable form: remainder, then quotient; overflow sets V alone, and a zero
        divisor traps with nothing changed. */
    method Divl(y: nat, dq: nat, dr: nat, signed: bool, quad: bool) returns (trap: bool)
      requires d.Length == 8 && y < 8 && dq < 8 && dr < 8
      modifies this, d
      ensures var r := if Exceptional(old(d[dr]), old(d[dq]), old(d[y]), signed, quad) then Overflow
                       else DivlWide(old(d[dr]), old(d[dq]), old(d[y]), signed, quad);
              && trap == r.ZeroDivide?
              && (r.Quotient? ==> d[..] == old(d[..])[dr := r.remainder][dq := r.quotient]
                                  && (n, z, v, c) == (r.n, r.z, false, false))
              && (!r.Quotient? ==> d[..] == old(d[..]) && (n, z, c) == old((n, z, c)))
              && (r.Overflow? ==> v) && (r.ZeroDivide? ==> v == old(v))
    {
      var r := DivlPortable(d[dr], d[dq], d[y], signed, quad);
      match r {
        case ZeroDivide => return true;
        case Overflow => v := true;
        case Quotient(q, rest, negative, zero) =>
          d[dr] := rest;
          d[dq] := q;
          n, z, v, c := negative, zero, false, false;
      }
      trap := false;
    }
  }
}
