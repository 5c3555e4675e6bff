/**
  CRC-8 with polynomial x^8 + x^2 + x + 1, initial value zero, not reflected and
  without a final XOR: the packet error code (PEC) of recovery frames.
 */
module Crc8 {
  import opened Wrappers
  import opened Bits

  /** The eight register bits, most significant first. */
  datatype Reg = Reg(b7: bool, b6: bool, b5: bool, b4: bool, b3: bool, b2: bool, b1: bool, b0: bool)

  const ZERO := Reg(false, false, false, false, false, false, false, false)

  function RegXor(r: Reg, s: Reg): Reg {
    Reg(r.b7 != s.b7, r.b6 != s.b6, r.b5 != s.b5, r.b4 != s.b4,
        r.b3 != s.b3, r.b2 != s.b2, r.b1 != s.b1, r.b0 != s.b0)
  }

  /** Shifts one message bit in; the polynomial is subtracted when a one falls out. */
  function BitStep(r: Reg, bit: bool): Reg {
    var out := r.b7 != bit;
    Reg(r.b6, r.b5, r.b4, r.b3, r.b2, r.b1 != out, r.b0 != out, out)
  }

  function CrcBits(r: Reg, bits: seq<bool>): Reg
    decreases bits
  {
    if bits == [] then r else CrcBits(BitStep(r, bits[0]), bits[1..])
  }

  function ByteBits(v: Byte): (bits: seq<bool>)
    ensures |bits| == 8
  {
    seq(8, i requires 0 <= i < 8 => MsbBit(v, 8, i) == 1)
  }

  /** The bits of a message, most significant bit of the first byte first. */
  function MessageBits(m: seq<Byte>): (bits: seq<bool>)
    ensures |bits| == 8 * |m|
  {
    if m == [] then [] else ByteBits(m[0]) + MessageBits(m[1..])
  }

  function Digit(b: bool): Bit { if b then 1 else 0 }

  /** Four binary digits. */
  function Nibble(b3: bool, b2: bool, b1: bool, b0: bool): (v: nat)
    ensures v < 16
  {
    8 * Digit(b3) + 4 * Digit(b2) + 2 * Digit(b1) + Digit(b0)
  }

  function Value(r: Reg): (v: Byte) {
    16 * Nibble(r.b7, r.b6, r.b5, r.b4) + Nibble(r.b3, r.b2, r.b1, r.b0)
  }

  function RegBits(r: Reg): seq<bool> {
    [r.b7, r.b6, r.b5, r.b4, r.b3, r.b2, r.b1, r.b0]
  }

  /** The checksum of a message. */
  function Pec(m: seq<Byte>): Byte {
    Value(CrcBits(ZERO, MessageBits(m)))
  }

  /** The same checksum byte by byte, as a loop computes it. */
  method Checksum(m: seq<Byte>) returns (pec: Byte)
    ensures pec == Pec(m)
  {
    var r, i := ZERO, 0;
    while i < |m|
      invariant 0 <= i <= |m|
      invariant CrcBits(r, MessageBits(m[i..])) == CrcBits(ZERO, MessageBits(m))
    {
      var bits := ByteBits(m[i]);
      assert m[i..][1..] == m[i + 1..];
      CrcBitsAppend(r, bits, MessageBits(m[i + 1..]));
      ghost var r0 := r;
      var j := 0;
      while j < 8
        invariant 0 <= j <= 8
        invariant CrcBits(r, bits[j..]) == CrcBits(r0, bits)
      {
        assert bits[j..][1..] == bits[j + 1..];
        r := BitStep(r, bits[j]);
        j := j + 1;
      }
      assert bits[8..] == [];
      i := i + 1;
    }
    assert m[|m|..] == [];
    pec := Value(r);
  }

  // ---------------------------------------------------------------------
  // Algebra of the register
  // ---------------------------------------------------------------------

  lemma {:induction false} CrcBitsAppend(r: Reg, x: seq<bool>, y: seq<bool>)
    ensures CrcBits(r, x + y) == CrcBits(CrcBits(r, x), y)
    decreases x
  {
    if x == [] {
      assert x + y == y;
    } else {
      assert (x + y)[0] == x[0] && (x + y)[1..] == x[1..] + y;
      CrcBitsAppend(BitStep(r, x[0]), x[1..], y);
    }
  }

  lemma {:induction false} MessageBitsAppend(m: seq<Byte>, n: seq<Byte>)
    ensures MessageBits(m + n) == MessageBits(m) + MessageBits(n)
    decreases m
  {
    if m == [] {
      assert m + n == n;
    } else {
      assert (m + n)[0] == m[0] && (m + n)[1..] == m[1..] + n;
      MessageBitsAppend(m[1..], n);
    }
  }

  lemma BitStepInjective(r: Reg, s: Reg, bit: bool)
    ensures BitStep(r, bit) == BitStep(s, bit) <==> r == s
  {
  }

  /** Registers that differ stay different under the same bits. */
  lemma {:induction false} CrcBitsInjective(r: Reg, s: Reg, bits: seq<bool>)
    ensures CrcBits(r, bits) == CrcBits(s, bits) <==> r == s
    decreases bits
  {
    if bits != [] {
      BitStepInjective(r, s, bits[0]);
      CrcBitsInjective(BitStep(r, bits[0]), BitStep(s, bits[0]), bits[1..]);
    }
  }

  function BitsXor(x: seq<bool>, y: seq<bool>): seq<bool>
    requires |x| == |y|
  {
    seq(|x|, i requires 0 <= i < |x| => x[i] != y[i])
  }

  lemma BitStepLinear(r: Reg, s: Reg, a: bool, b: bool)
    ensures RegXor(BitStep(r, a), BitStep(s, b)) == BitStep(RegXor(r, s), a != b)
  {
  }

  /** The register is linear in the message. */
  lemma {:induction false} CrcBitsLinear(r: Reg, s: Reg, x: seq<bool>, y: seq<bool>)
    requires |x| == |y|
    ensures RegXor(CrcBits(r, x), CrcBits(s, y)) == CrcBits(RegXor(r, s), BitsXor(x, y))
    decreases x
  {
    hide BitStep, RegXor;
    if x != [] {
      assert BitsXor(x, y)[1..] == BitsXor(x[1..], y[1..]);
      BitStepLinear(r, s, x[0], y[0]);
      CrcBitsLinear(BitStep(r, x[0]), BitStep(s, y[0]), x[1..], y[1..]);
    }
  }

  /** Eight bits from zero leave a zero register only if they are all zero. */
  lemma EightBits(x: seq<bool>)
    requires |x| == 8
    ensures CrcBits(ZERO, x) == ZERO <==> forall i :: 0 <= i < 8 ==> !x[i]
  {
    hide CrcBits;
    Unrolled(ZERO, x);
  }

  lemma TwoBits(r: Reg, x: seq<bool>)
    requires |x| >= 2
    ensures CrcBits(r, x) == CrcBits(BitStep(BitStep(r, x[0]), x[1]), x[2..])
  {
    assert x[1..][1..] == x[2..];
  }

  lemma Unrolled(r: Reg, x: seq<bool>)
    requires |x| == 8
    ensures CrcBits(r, x) ==
      BitStep(BitStep(BitStep(BitStep(BitStep(BitStep(BitStep(BitStep(r,
        x[0]), x[1]), x[2]), x[3]), x[4]), x[5]), x[6]), x[7])
  {
    hide BitStep;
    TwoBits(r, x);
    var s := BitStep(BitStep(r, x[0]), x[1]);
    TwoBits(s, x[2..]);
    var t := BitStep(BitStep(s, x[2]), x[3]);
    assert x[2..][2..] == x[4..];
    TwoBits(t, x[4..]);
    var u := BitStep(BitStep(t, x[4]), x[5]);
    assert x[4..][2..] == x[6..];
    TwoBits(u, x[6..]);
    assert x[6..][2..] == [];
  }

  /** Feeding the register its own bits clears it. */
  lemma OwnBitsClear(r: Reg)
    ensures CrcBits(r, RegBits(r)) == ZERO
  {
    Unrolled(r, RegBits(r));
  }

  // ---------------------------------------------------------------------
  // Bytes and registers
  // ---------------------------------------------------------------------

  /** Bit `k` of `v`, counted from the least significant one. */
  predicate DigitAt(v: nat, k: nat, b: bool) {
    Shr(v, k) % 2 == Digit(b)
  }

  /** One shift takes the lowest digit off. */
  lemma DigitOff(v: nat, k: nat, rest: nat, b: bool)
    requires Shr(v, k) == 2 * rest + Digit(b)
    ensures DigitAt(v, k, b) && Shr(v, k + 1) == rest
  {
  }

  /** Four shifts take the lowest four digits off. */
  lemma NibbleOff(v: nat, k: nat, rest: nat, b3: bool, b2: bool, b1: bool, b0: bool)
    requires Shr(v, k) == 16 * rest + Nibble(b3, b2, b1, b0)
    ensures DigitAt(v, k, b0) && DigitAt(v, k + 1, b1) && DigitAt(v, k + 2, b2) && DigitAt(v, k + 3, b3)
    ensures Shr(v, k + 4) == rest
  {
    hide Shr, Digit, DigitAt;
    DigitOff(v, k, 8 * rest + 4 * Digit(b3) + 2 * Digit(b2) + Digit(b1), b0);
    DigitOff(v, k + 1, 4 * rest + 2 * Digit(b3) + Digit(b2), b1);
    DigitOff(v, k + 2, 2 * rest + Digit(b3), b2);
    DigitOff(v, k + 3, rest, b3);
  }

  lemma ByteBitsOfValue(r: Reg)
    ensures ByteBits(Value(r)) == RegBits(r)
  {
    hide ByteBits, RegBits, Digit, DigitAt, Nibble, Shr;
    var v, h := Value(r), Nibble(r.b7, r.b6, r.b5, r.b4);
    ShrZero(v);
    NibbleOff(v, 0, h, r.b3, r.b2, r.b1, r.b0);
    NibbleOff(v, 4, 0, r.b7, r.b6, r.b5, r.b4);
    BitsFromShifts(v, r);
  }

  lemma BitsFromShifts(v: Byte, r: Reg)
    requires DigitAt(v, 7, r.b7) && DigitAt(v, 6, r.b6) && DigitAt(v, 5, r.b5) && DigitAt(v, 4, r.b4)
    requires DigitAt(v, 3, r.b3) && DigitAt(v, 2, r.b2) && DigitAt(v, 1, r.b1) && DigitAt(v, 0, r.b0)
    ensures ByteBits(v) == RegBits(r)
  {
    hide DigitAt, ByteBits, RegBits;
    BitIs(v, 0, r.b7); BitIs(v, 1, r.b6); BitIs(v, 2, r.b5); BitIs(v, 3, r.b4);
    BitIs(v, 4, r.b3); BitIs(v, 5, r.b2); BitIs(v, 6, r.b1); BitIs(v, 7, r.b0);
    FromEight(ByteBits(v), r);
  }

  lemma BitIs(v: Byte, i: nat, b: bool)
    requires i < 8 && DigitAt(v, 7 - i, b)
    ensures ByteBits(v)[i] == b
  {
    hide Shr;
  }

  lemma FromEight(x: seq<bool>, r: Reg)
    requires |x| == 8 && x[0] == r.b7 && x[1] == r.b6 && x[2] == r.b5 && x[3] == r.b4
    requires x[4] == r.b3 && x[5] == r.b2 && x[6] == r.b1 && x[7] == r.b0
    ensures x == RegBits(r)
  {
  }

  /** Distinct bytes have distinct bits. */
  lemma ByteBitsInjective(v: Byte, w: Byte)
    requires ByteBits(v) == ByteBits(w)
    ensures v == w
  {
    Pow2Small();
    ShrAll(v, 8);
    ShrAll(w, 8);
    SameShr(v, w, 8);
    ShrZero(v);
    ShrZero(w);
  }

  lemma {:induction false} SameShr(v: Byte, w: Byte, n: nat)
    requires n <= 8 && ByteBits(v) == ByteBits(w) && Shr(v, 8) == Shr(w, 8)
    ensures Shr(v, 8 - n) == Shr(w, 8 - n)
  {
    if n > 0 {
      SameShr(v, w, n - 1);
      NextBit(v, 8, n - 1);
      NextBit(w, 8, n - 1);
      assert ByteBits(v)[n - 1] == ByteBits(w)[n - 1];
    }
  }

  /** A message followed by its own checksum has a zero register. */
  lemma PecClears(m: seq<Byte>)
    ensures CrcBits(ZERO, MessageBits(m + [Pec(m)])) == ZERO
  {
    var r := CrcBits(ZERO, MessageBits(m));
    MessageBitsAppend(m, [Pec(m)]);
    CrcBitsAppend(ZERO, MessageBits(m), MessageBits([Pec(m)]));
    OneByte(Pec(m));
    hide ByteBits, CrcBits, MessageBits, Value;
    ByteBitsOfValue(r);
    OwnBitsClear(r);
  }

  lemma OneByte(p: Byte)
    ensures MessageBits([p]) == ByteBits(p)
  {
    hide ByteBits;
    assert MessageBits([p]) == ByteBits(p) + MessageBits([p][1..]);
  }

  /** The register after a message and any other last byte is not zero. */
  lemma OnlyPecClears(m: seq<Byte>, p: Byte)
    ensures CrcBits(ZERO, MessageBits(m + [p])) == ZERO <==> p == Pec(m)
  {
    hide ByteBits, CrcBits, MessageBits, Value;
    PecClears(m);
    if CrcBits(ZERO, MessageBits(m + [p])) == ZERO {
      var r := CrcBits(ZERO, MessageBits(m));
      MessageBitsAppend(m, [p]);
      CrcBitsAppend(ZERO, MessageBits(m), MessageBits([p]));
      OneByte(p);
      ByteBitsOfValue(r);
      OwnBitsClear(r);
      WindowInjective(r, ByteBits(p), RegBits(r));
      ByteBitsInjective(p, Value(r));
    }
  }

  /** Eight different bits from the same register leave different registers. */
  lemma WindowInjective(r: Reg, x: seq<bool>, y: seq<bool>)
    requires |x| == 8 && |y| == 8 && CrcBits(r, x) == CrcBits(r, y)
    ensures x == y
  {
    hide BitStep, CrcBits;
    CrcBitsLinear(r, r, x, y);
    EightBits(BitsXor(x, y));
    forall i | 0 <= i < 8 ensures x[i] == y[i] { assert !BitsXor(x, y)[i]; }
  }

  // ---------------------------------------------------------------------
  // Error detection
  // ---------------------------------------------------------------------

  /** The messages agree outside the eight bits from `at` on. */
  predicate BurstAt(x: seq<bool>, y: seq<bool>, at: nat) {
    && |x| == |y| && at + 8 <= |x| && x != y
    && x[..at] == y[..at] && x[at + 8..] == y[at + 8..]
  }

  /** Every error burst of at most eight bits changes the register, wherever it starts. */
  lemma BurstDetected(r: Reg, x: seq<bool>, y: seq<bool>, at: nat)
    requires BurstAt(x, y, at)
    ensures CrcBits(r, x) != CrcBits(r, y)
  {
    var a, b, c := x[..at], x[at..at + 8], x[at + 8..];
    var d := y[at..at + 8];
    assert x == a + (b + c) && y == a + (d + c);
    assert b != d;
    CrcBitsAppend(r, a, b + c);
    CrcBitsAppend(r, a, d + c);
    var s := CrcBits(r, a);
    CrcBitsAppend(s, b, c);
    CrcBitsAppend(s, d, c);
    hide CrcBits;
    CrcBitsInjective(CrcBits(s, b), CrcBits(s, d), c);
    if CrcBits(s, b) == CrcBits(s, d) { WindowInjective(s, b, d); }
  }

  function Odd(bits: seq<bool>): bool {
    if bits == [] then false else bits[0] != Odd(bits[1..])
  }

  function OddReg(r: Reg): bool {
    r.b7 != (r.b6 != (r.b5 != (r.b4 != (r.b3 != (r.b2 != (r.b1 != r.b0))))))
  }

  /** The register has the parity of the bits it has seen, because the polynomial has an even number of terms. */
  lemma {:induction false} ParityKept(r: Reg, bits: seq<bool>)
    ensures OddReg(CrcBits(r, bits)) == (OddReg(r) != Odd(bits))
    decreases bits
  {
    if bits != [] { ParityKept(BitStep(r, bits[0]), bits[1..]); }
  }

  lemma {:induction false} OddXor(x: seq<bool>, y: seq<bool>)
    requires |x| == |y|
    ensures Odd(BitsXor(x, y)) == (Odd(x) != Odd(y))
    decreases x
  {
    if x != [] {
      assert BitsXor(x, y)[1..] == BitsXor(x[1..], y[1..]);
      OddXor(x[1..], y[1..]);
    }
  }

  /** A codeword with an odd number of flipped bits is no codeword. */
  lemma OddErrorDetected(x: seq<bool>, y: seq<bool>)
    requires |x| == |y| && CrcBits(ZERO, x) == ZERO && Odd(BitsXor(x, y))
    ensures CrcBits(ZERO, y) != ZERO
  {
    ParityKept(ZERO, x);
    ParityKept(ZERO, y);
    OddXor(x, y);
  }

  // ---------------------------------------------------------------------
  // Two flipped bits
  // ---------------------------------------------------------------------

  /** `n` zero bits shifted in. */
  function Zeros(r: Reg, n: nat): Reg
    decreases n
  {
    if n == 0 then r else Zeros(BitStep(r, false), n - 1)
  }

  /** What one flipped bit leaves. */
  const FLIP := BitStep(ZERO, true)

  lemma {:induction false} ZerosPlus(r: Reg, m: nat, n: nat)
    ensures Zeros(r, m + n) == Zeros(Zeros(r, m), n)
    decreases m
  {
    if m > 0 { ZerosPlus(BitStep(r, false), m - 1, n); }
  }

  /** `s` comes eight zeros after `r`, and FLIP does not come up before. */
  predicate Apart(r: Reg, s: Reg) {
    && Zeros(r, 8) == s
    && forall k: nat :: 0 < k <= 8 ==> Zeros(r, k) != FLIP
  }

  lemma EightZeros(r: Reg)
    ensures var r1 := BitStep(r, false);
      var r2 := BitStep(r1, false);
      var r3 := BitStep(r2, false);
      var r4 := BitStep(r3, false);
      var r5 := BitStep(r4, false);
      var r6 := BitStep(r5, false);
      var r7 := BitStep(r6, false);
      && Zeros(r, 1) == r1 && Zeros(r, 2) == r2 && Zeros(r, 3) == r3 && Zeros(r, 4) == r4
      && Zeros(r, 5) == r5 && Zeros(r, 6) == r6 && Zeros(r, 7) == r7 && Zeros(r, 8) == BitStep(r7, false)
  {
    hide BitStep, Zeros;
    NoZero(r);
    NextZero(r, 0); NextZero(r, 1); NextZero(r, 2); NextZero(r, 3);
    NextZero(r, 4); NextZero(r, 5); NextZero(r, 6); NextZero(r, 7);
  }

  lemma NoZero(r: Reg)
    ensures Zeros(r, 0) == r
  {
  }

  lemma NextZero(r: Reg, n: nat)
    ensures Zeros(r, n + 1) == BitStep(Zeros(r, n), false)
  {
    hide BitStep;
    ZerosPlus(r, n, 1);
    OneZero(Zeros(r, n));
  }

  /** The registers at every eighth zero bit after a flip. */
  function Milestone(i: nat): Reg
    requires i <= 15
  {
    match i
    case 0 => Reg(false, false, false, false, false, true, true, true)
    case 1 => Reg(false, false, false, true, false, true, false, true)
    case 2 => Reg(false, true, true, false, true, false, true, true)
    case 3 => Reg(false, false, false, true, false, true, true, false)
    case 4 => Reg(false, true, true, false, false, false, true, false)
    case 5 => Reg(false, false, true, false, true, false, false, true)
    case 6 => Reg(true, true, false, true, true, true, true, true)
    case 7 => Reg(false, false, false, true, false, false, true, true)
    case 8 => Reg(false, true, true, true, true, false, false, true)
    case 9 => Reg(false, true, true, false, true, false, false, false)
    case 10 => Reg(false, false, false, true, true, true, true, true)
    case 11 => Reg(false, true, false, true, true, true, false, true)
    case 12 => Reg(true, false, false, true, false, true, false, false)
    case 13 => Reg(true, true, true, false, false, true, false, true)
    case 14 => Reg(true, false, true, true, false, true, false, true)
    case _ => Reg(false, false, false, false, false, false, true, false)
  }

  lemma MilestonesApart(i: nat)
    requires i < 15
    ensures Apart(Milestone(i), Milestone(i + 1))
  {
    hide Zeros;
    EightZeros(Milestone(i));
  }

  lemma {:induction false} AwayFrom(i: nat)
    requires i <= 15
    ensures Zeros(FLIP, 8 * i) == Milestone(i)
    ensures forall k: nat :: 0 < k <= 8 * i ==> Zeros(FLIP, k) != FLIP
    decreases i
  {
    hide Milestone, BitStep, Zeros;
    if i == 0 {
      FlipIsFirst();
    } else {
      AwayFrom(i - 1);
      MilestonesApart(i - 1);
      var n := 8 * (i - 1);
      ZerosPlus(FLIP, n, 8);
      forall k: nat | 0 < k <= 8 * i ensures Zeros(FLIP, k) != FLIP {
        if k > n { ZerosPlus(FLIP, n, k - n); }
      }
    }
  }

  lemma FlipIsFirst()
    ensures Zeros(FLIP, 0) == FLIP == Milestone(0)
  {
  }

  lemma LastStretch()
    ensures Zeros(Milestone(15), 7) == FLIP
    ensures forall k: nat :: 0 < k < 7 ==> Zeros(Milestone(15), k) != FLIP
  {
    hide Zeros;
    EightZeros(Milestone(15));
  }

  /** The register comes back to what a flip leaves after every 127 zero bits, and never in between. */
  lemma {:induction false} FlipPeriod(n: nat)
    ensures Zeros(FLIP, n) == FLIP <==> n % 127 == 0
    decreases n
  {
    hide Milestone, BitStep, Zeros;
    AwayFrom(15);
    LastStretch();
    FlipIsFirst();
    if n >= 127 {
      ZerosPlus(FLIP, 120, 7);
      ZerosPlus(FLIP, 127, n - 127);
      FlipPeriod(n - 127);
    } else if n > 120 {
      ZerosPlus(FLIP, 120, n - 120);
    }
  }

  lemma {:induction false} CrcOfZeros(r: Reg, bits: seq<bool>)
    requires forall i :: 0 <= i < |bits| ==> !bits[i]
    ensures CrcBits(r, bits) == Zeros(r, |bits|)
    decreases bits
  {
    hide BitStep;
    if bits != [] { CrcOfZeros(BitStep(r, bits[0]), bits[1..]); }
  }

  /** Zero bits keep a zero register, and no other becomes zero. */
  lemma {:induction false} ZerosOfZero(r: Reg, n: nat)
    ensures Zeros(r, n) == ZERO <==> r == ZERO
    decreases n
  {
    if n > 0 {
      BitStepInjective(r, ZERO, false);
      ZerosOfZero(BitStep(r, false), n - 1);
    }
  }

  /** Two ones, at `p` and `q`. */
  predicate TwoOnes(bits: seq<bool>, p: nat, q: nat) {
    p < q < |bits| && forall i :: 0 <= i < |bits| ==> (bits[i] <==> i == p || i == q)
  }

  lemma TwoOnesClear(bits: seq<bool>, p: nat, q: nat)
    requires TwoOnes(bits, p, q)
    ensures CrcBits(ZERO, bits) == ZERO <==> (q - p) % 127 == 0
  {
    hide CrcBits, BitStep, Zeros;
    var a, b, c := bits[..p], bits[p + 1..q], bits[q + 1..];
    assert bits == a + ([true] + (b + ([true] + c)));
    CrcBitsAppend(ZERO, a, [true] + (b + ([true] + c)));
    CrcOfZeros(ZERO, a);
    ZerosOfZero(ZERO, p);
    CrcBitsAppend(ZERO, [true], b + ([true] + c));
    OneBit(ZERO);
    CrcBitsAppend(FLIP, b, [true] + c);
    CrcOfZeros(FLIP, b);
    var d := Zeros(FLIP, |b|);
    CrcBitsAppend(d, [true], c);
    OneBit(d);
    CrcOfZeros(BitStep(d, true), c);
    ZerosOfZero(BitStep(d, true), |c|);
    SecondFlip(d);
    ZerosPlus(FLIP, |b|, 1);
    OneZero(d);
    FlipPeriod(|b| + 1);
  }

  lemma OneBit(r: Reg)
    ensures CrcBits(r, [true]) == BitStep(r, true)
  {
    hide BitStep;
    assert CrcBits(BitStep(r, true), []) == BitStep(r, true);
  }

  lemma OneZero(r: Reg)
    ensures Zeros(r, 1) == BitStep(r, false)
  {
    hide BitStep;
    assert Zeros(BitStep(r, false), 0) == BitStep(r, false);
  }

  /** A second flip cancels the register exactly when a zero would have brought it to FLIP. */
  lemma SecondFlip(d: Reg)
    ensures BitStep(d, true) == ZERO <==> BitStep(d, false) == FLIP
  {
  }

  /**
    Two flipped bits, in a message of any length, change the checksum exactly
    when their distance is not a multiple of 127.
   */
  lemma TwoFlipsDetectedIff(r: Reg, x: seq<bool>, y: seq<bool>, p: nat, q: nat)
    requires |x| == |y| && TwoOnes(BitsXor(x, y), p, q)
    ensures CrcBits(r, x) != CrcBits(r, y) <==> (q - p) % 127 != 0
  {
    hide CrcBits, BitStep, TwoOnes, BitsXor;
    CrcBitsLinear(r, r, x, y);
    TwoOnesClear(BitsXor(x, y), p, q);
    XorZero(r, r);
    XorZero(CrcBits(r, x), CrcBits(r, y));
  }

  lemma XorZero(r: Reg, s: Reg)
    ensures RegXor(r, s) == ZERO <==> r == s
  {
  }
}
