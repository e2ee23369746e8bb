/** Machine words as sequences of bits, least significant first, with C's operators. */
module Bits {
  type Word = seq<bool>
  type uint = w: Word | |w| == 32 witness seq(32, _ => false)

  function Zero(n: nat): (r: Word)
    ensures |r| == n && forall i :: 0 <= i < n ==> !r[i]
  {
    seq(n, _ => false)
  }

  function Ones(n: nat): (r: Word)
    ensures |r| == n && forall i :: 0 <= i < n ==> r[i]
  {
    seq(n, _ => true)
  }

  function Shl(a: Word, n: nat): (r: Word)
    ensures |r| == |a| && forall i :: 0 <= i < |a| ==> r[i] == (i >= n && a[i - n])
  {
    seq(|a|, i requires 0 <= i < |a| => i >= n && a[i - n])
  }

  function Shr(a: Word, n: nat): (r: Word)
    ensures |r| == |a| && forall i :: 0 <= i < |a| ==> r[i] == (i + n < |a| && a[i + n])
  {
    seq(|a|, i requires 0 <= i < |a| => i + n < |a| && a[i + n])
  }

  function And(a: Word, b: Word): (r: Word)
    requires |a| == |b|
    ensures |r| == |a| && forall i :: 0 <= i < |a| ==> r[i] == (a[i] && b[i])
  {
    seq(|a|, i requires 0 <= i < |a| => a[i] && b[i])
  }

  function Or(a: Word, b: Word): (r: Word)
    requires |a| == |b|
    ensures |r| == |a| && forall i :: 0 <= i < |a| ==> r[i] == (a[i] || b[i])
  {
    seq(|a|, i requires 0 <= i < |a| => a[i] || b[i])
  }

  /** a & ((1 << n) - 1), the source's MASK_OUT_ABOVE. */
  function Below(a: Word, n: nat): (r: Word)
    ensures |r| == |a| && forall i :: 0 <= i < |a| ==> r[i] == (i < n && a[i])
  {
    seq(|a|, i requires 0 <= i < |a| => i < n && a[i])
  }

  /** a & ~((1 << n) - 1), the source's MASK_OUT_BELOW. */
  function Above(a: Word, n: nat): (r: Word)
    ensures |r| == |a| && forall i :: 0 <= i < |a| ==> r[i] == (i >= n && a[i])
  {
    seq(|a|, i requires 0 <= i < |a| => i >= n && a[i])
  }

  /** A word of n bits with bit k equal to b and the others clear. */
  function Flag(n: nat, k: nat, b: bool): (r: Word)
    ensures |r| == n && forall i :: 0 <= i < n ==> r[i] == (i == k && b)
  {
    seq(n, i => i == k && b)
  }

  predicate IsZero(a: Word) {
    forall i :: 0 <= i < |a| ==> !a[i]
  }

  /** C's !!a. */
  function Truth(a: Word): (t: nat) { if IsZero(a) then 0 else 1 }

  function Number(a: Word): (n: nat) {
    if a == [] then 0 else (if a[0] then 1 else 0) + 2 * Number(a[1..])
  }

  lemma {:induction false} NumberBound(a: Word, b: nat)
    requires |a| <= 6 && (|a| == 6 ==> b == 64) && (|a| == 5 ==> b == 32) && (|a| == 4 ==> b == 16)
    requires (|a| == 3 ==> b == 8) && (|a| == 2 ==> b == 4) && (|a| == 1 ==> b == 2) && (|a| == 0 ==> b == 1)
    ensures Number(a) < b
  {
    if a != [] { NumberBound(a[1..], b / 2); }
  }
}
