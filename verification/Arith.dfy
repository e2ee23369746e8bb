/** Integer arithmetic shared by the other modules. */
module Arith {
  const TWO16 := 0x1_0000
  const TWO31 := 0x8000_0000
  const TWO32 := 0x1_0000_0000
  const TWO64 := 0x1_0000_0000_0000_0000

  /** x modulo n (FoldIsMod). */
  function Fold(x: nat, n: nat): (r: nat)
    requires n > 0
    ensures r < n
  {
    if x < n then x else Fold(x - n, n)
  }

  lemma {:induction false} FoldIsMod(x: nat, n: nat)
    requires n > 0
    ensures Fold(x, n) == x % n
  {
    if x >= n {
      FoldIsMod(x - n, n);
      ModUnique(x, n, (x - n) / n + 1, (x - n) % n);
    } else {
      ModUnique(x, n, 0, x);
    }
  }

  lemma ModUnique(x: int, b: nat, q: int, r: int)
    requires b > 0 && x == b * q + r && 0 <= r < b
    ensures x % b == r
  {
    MulAtLeast(b, q - x / b);
    assert b * (q - x / b) == x % b - r;
  }

  lemma MulAtLeast(b: nat, k: int)
    ensures k >= 1 ==> b * k >= b
    ensures k <= -1 ==> b * k <= -(b as int)
  {}

  lemma {:induction false} FoldStep(x: nat, j: nat, n: nat)
    requires n > 0 && Fold(x, n) + j < n
    ensures Fold(x + j, n) == Fold(x, n) + j
  {
    if x >= n {
      FoldStep(x - n, j, n);
    }
  }

  lemma {:induction false} FoldNext(x: nat, n: nat)
    requires n > 0
    ensures Fold(x + 1, n) == if Fold(x, n) + 1 == n then 0 else Fold(x, n) + 1
  {
    if x >= n {
      FoldNext(x - n, n);
    } else if x + 1 == n {
      assert Fold(0, n) == 0;
    }
  }

  lemma DivBounds(x: nat, d: nat)
    requires d > 0
    ensures d * (x / d) <= x < d * (x / d) + d && x % d == x - d * (x / d)
  {}

  lemma DivUnique(x: nat, d: nat, q: int)
    requires d > 0 && d * q <= x < d * q + d
    ensures x / d == q && x % d == x - d * q
  {
    DivBounds(x, d);
    MulAtLeast(d, q - x / d);
    assert d * (q - x / d) == d * q - d * (x / d);
  }

  lemma MulMono(a: nat, b: nat, c: nat)
    requires a <= b
    ensures a * c <= b * c && c * a <= c * b
  {}

  lemma DivMono(x: nat, y: nat, d: nat)
    requires d > 0 && x <= y
    ensures x / d <= y / d
  {
    DivBounds(x, d);
    DivBounds(y, d);
    MulAtLeast(d, x / d - y / d);
    assert d * (x / d - y / d) == d * (x / d) - d * (y / d);
  }

  /** x / d (QuotIsDiv), kept away from the solver's division. */
  function Quot(x: nat, d: nat): (q: nat)
    requires d > 0
  {
    if x < d then 0 else 1 + Quot(x - d, d)
  }

  lemma {:induction false} QuotBounds(x: nat, d: nat)
    requires d > 0
    ensures d * Quot(x, d) <= x < d * Quot(x, d) + d
  {
    if x >= d {
      QuotBounds(x - d, d);
      assert d * (1 + Quot(x - d, d)) == d + d * Quot(x - d, d);
    }
  }

  lemma QuotIsDiv(x: nat, d: nat)
    requires d > 0
    ensures Quot(x, d) == x / d
  {
    QuotBounds(x, d);
    DivUnique(x, d, Quot(x, d));
  }

  lemma QuotUnique(x: nat, d: nat, q: nat)
    requires d > 0 && d * q <= x < d * q + d
    ensures Quot(x, d) == q
  {
    DivUnique(x, d, q);
    QuotIsDiv(x, d);
  }

  /** A 32-bit word as a signed number. */
  function Signed(x: nat): int { if x >= TWO31 then x - TWO32 else x }

  function Pow2(n: nat): (p: nat)
    ensures p > 0
  {
    if n == 0 then 1 else 2 * Pow2(n - 1)
  }
}
