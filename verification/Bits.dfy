/** Shifts and powers of two on natural numbers. */
module Bits {
  import opened Wrappers

  function Pow2(n: nat): (p: nat)
    ensures p >= 1
  {
    if n == 0 then 1 else 2 * Pow2(n - 1)
  }

  /** `v >> k` */
  function Shr(v: nat, k: nat): nat {
    if k == 0 then v else Shr(v, k - 1) / 2
  }

  /** The bit that leaves a `w`-bit shift register `i`-th, most significant first. */
  function MsbBit(v: nat, w: nat, i: nat): Bit
    requires i < w
  {
    Shr(v, w - 1 - i) % 2
  }

  lemma Pow2Monotone(m: nat, n: nat)
    requires m <= n
    ensures Pow2(m) <= Pow2(n)
    decreases n
  {
    if m < n { Pow2Monotone(m, n - 1); }
  }

  lemma Pow2Small()
    ensures Pow2(7) == 128 && Pow2(8) == 256
  {
    assert Pow2(4) == 16;
    assert Pow2(6) == 64;
  }

  /** A `w`-bit number shifted right by `k` has `w - k` bits. */
  lemma {:induction false} ShrBound(v: nat, w: nat, k: nat)
    requires v < Pow2(w) && k <= w
    ensures Shr(v, k) < Pow2(w - k)
  {
    if k > 0 { ShrBound(v, w, k - 1); }
  }

  /** The first `i + 1` bits are the first `i` bits and the next one. */
  lemma NextBit(v: nat, w: nat, i: nat)
    requires i < w
    ensures Shr(v, w - 1 - i) == 2 * Shr(v, w - i) + MsbBit(v, w, i)
  {
  }

  lemma ShrZero(v: nat)
    ensures Shr(v, 0) == v
  {
  }

  /** Shifting a `w`-bit number out leaves nothing. */
  lemma ShrAll(v: nat, w: nat)
    requires v < Pow2(w)
    ensures Shr(v, w) == 0
  {
    ShrBound(v, w, w);
  }
}
