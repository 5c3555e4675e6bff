/** Python's `&`, `|`, `& ~` and shifts on natural numbers, and what they do bit by bit. */
module Bitwise {
  import opened Bits

  function And(a: nat, b: nat): nat {
    if a == 0 || b == 0 then 0 else 2 * And(a / 2, b / 2) + (if a % 2 == 1 && b % 2 == 1 then 1 else 0)
  }

  function Or(a: nat, b: nat): nat
    decreases a + b
  {
    if a == 0 && b == 0 then 0 else 2 * Or(a / 2, b / 2) + (if a % 2 == 1 || b % 2 == 1 then 1 else 0)
  }

  /** `a & ~b` */
  function AndNot(a: nat, b: nat): nat {
    if a == 0 then 0 else 2 * AndNot(a / 2, b / 2) + (if a % 2 == 1 && b % 2 == 0 then 1 else 0)
  }

  /** `n << k` */
  function Shl(n: nat, k: nat): nat {
    if k == 0 then n else 2 * Shl(n, k - 1)
  }

  /** Bit `k` of `n`. */
  predicate Test(n: nat, k: nat) {
    if k == 0 then n % 2 == 1 else Test(n / 2, k - 1)
  }

  lemma {:induction false} ZeroBits(k: nat)
    ensures !Test(0, k)
  {
    if k > 0 { ZeroBits(k - 1); }
  }

  lemma {:induction false} AndBits(a: nat, b: nat, k: nat)
    ensures Test(And(a, b), k) <==> Test(a, k) && Test(b, k)
    decreases k
  {
    ZeroBits(k);
    if a != 0 && b != 0 && k > 0 { AndBits(a / 2, b / 2, k - 1); }
  }

  lemma {:induction false} OrBits(a: nat, b: nat, k: nat)
    ensures Test(Or(a, b), k) <==> Test(a, k) || Test(b, k)
    decreases k
  {
    ZeroBits(k);
    if (a != 0 || b != 0) && k > 0 { OrBits(a / 2, b / 2, k - 1); }
  }

  lemma {:induction false} AndNotBits(a: nat, b: nat, k: nat)
    ensures Test(AndNot(a, b), k) <==> Test(a, k) && !Test(b, k)
    decreases k
  {
    ZeroBits(k);
    if a != 0 && k > 0 { AndNotBits(a / 2, b / 2, k - 1); }
  }

  lemma {:induction false} ShlBits(n: nat, s: nat, k: nat)
    ensures Test(Shl(n, s), k) <==> k >= s && Test(n, k - s)
    decreases s
  {
    if s > 0 && k > 0 { ShlBits(n, s - 1, k - 1); }
  }

  lemma {:induction false} ShrBits(n: nat, s: nat, k: nat)
    ensures Test(Shr(n, s), k) <==> Test(n, k + s)
    decreases s
  {
    if s > 0 {
      ShrBits(n, s - 1, k + 1);
      assert Test(Shr(n, s), k) == Test(Shr(n, s - 1), k + 1);
    }
  }

  /** A number is its bits. */
  lemma {:induction false} SameBits(a: nat, b: nat)
    requires forall k: nat :: Test(a, k) <==> Test(b, k)
    ensures a == b
    decreases a + b
  {
    if a != 0 || b != 0 {
      forall k: nat ensures Test(a / 2, k) <==> Test(b / 2, k) {
        assert Test(a, k + 1) <==> Test(b, k + 1);
      }
      SameBits(a / 2, b / 2);
      assert Test(a, 0) <==> Test(b, 0);
    }
  }

  lemma {:induction false} NoHighBits(n: nat, w: nat, k: nat)
    requires n < Pow2(w) && k >= w
    ensures !Test(n, k)
    decreases w
  {
    if w == 0 { ZeroBits(k); } else { NoHighBits(n / 2, w - 1, k - 1); }
  }

  /** A number of at least `2^w` has a bit from `w` on. */
  lemma {:induction false} SomeHighBit(n: nat, w: nat) returns (k: nat)
    requires n >= Pow2(w)
    ensures k >= w && Test(n, k)
    decreases n + w
  {
    if w > 0 {
      k := SomeHighBit(n / 2, w - 1);
      k := k + 1;
    } else if n == 1 {
      k := 0;
    } else {
      k := SomeHighBit(n / 2, 0);
      k := k + 1;
    }
  }

  /** `(1 << n) - 1` has exactly the bits below `n`. */
  lemma {:induction false} OnesBits(n: nat, k: nat)
    ensures Test(Pow2(n) - 1, k) <==> k < n
    decreases n
  {
    if n == 0 {
      ZeroBits(k);
    } else if k > 0 {
      OnesBits(n - 1, k - 1);
      assert (Pow2(n) - 1) / 2 == Pow2(n - 1) - 1;
    }
  }

  lemma {:induction false} ShlIsTimes(n: nat, k: nat)
    ensures Shl(n, k) == n * Pow2(k)
  {
    if k > 0 { ShlIsTimes(n, k - 1); }
  }

  lemma {:induction false} OnesMinusOnes(m: nat, l: nat)
    requires l <= m
    ensures AndNot(Pow2(m) - 1, Pow2(l) - 1) == Pow2(m) - Pow2(l)
  {
    if l == 0 {
      AndNotZero(Pow2(m) - 1);
    } else {
      OnesMinusOnes(m - 1, l - 1);
      assert (Pow2(m) - 1) / 2 == Pow2(m - 1) - 1 && (Pow2(l) - 1) / 2 == Pow2(l - 1) - 1;
    }
  }

  lemma {:induction false} AndNotZero(a: nat)
    ensures AndNot(a, 0) == a
  {
    if a != 0 { AndNotZero(a / 2); }
  }

  /** Numbers without a common bit: `|` is `+`. */
  lemma {:induction false} OrIsPlus(a: nat, w: nat, b: nat)
    requires a < Pow2(w)
    ensures Or(a, Shl(b, w)) == a + Shl(b, w)
    decreases w
  {
    if w == 0 {
      OrZero(b);
    } else {
      OrIsPlus(a / 2, w - 1, b);
    }
  }

  lemma {:induction false} OrZero(b: nat)
    ensures Or(0, b) == b
  {
    if b != 0 { OrZero(b / 2); }
  }

  lemma {:induction false} ShrOfSum(a: nat, b: nat, w: nat)
    requires a < Pow2(w)
    ensures Shr(a + Shl(b, w), w) == b
    decreases w
  {
    if w > 0 {
      ShrInside(a + Shl(b, w), w);
      assert (a + Shl(b, w)) / 2 == a / 2 + Shl(b, w - 1);
      ShrOfSum(a / 2, b, w - 1);
    }
  }

  lemma {:induction false} ShrInside(v: nat, k: nat)
    requires k > 0
    ensures Shr(v, k) == Shr(v / 2, k - 1)
  {
    if k > 1 { ShrInside(v, k - 1); }
  }

  lemma {:induction false} Pow2Plus(m: nat, n: nat)
    ensures Pow2(m + n) == Pow2(m) * Pow2(n)
  {
    if n > 0 { Pow2Plus(m, n - 1); }
  }
}
