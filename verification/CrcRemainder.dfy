/**
  Which code the PEC belongs to: the multiples of x^8 + x^2 + x + 1.  Carry-less
  multiplication is defined here on its own, by shifting and adding.
 */
module CrcRemainder {
  import opened Wrappers
  import opened Bits
  import opened Crc8

  /** x^8 + x^2 + x + 1, highest power first. */
  const POLYNOMIAL: seq<bool> := [true, false, false, false, false, false, true, true, true]

  function NoBits(n: nat): (z: seq<bool>)
    ensures |z| == n
  {
    seq(n, i requires 0 <= i < n => false)
  }

  /** The product of `q` and the polynomial, without carries. */
  function Product(q: seq<bool>): (p: seq<bool>)
    ensures |p| == |q| + 8
  {
    if q == [] then NoBits(8)
    else
      var n := |q| - 1;
      BitsXor(Product(q[..n]) + [false], NoBits(n) + if q[n] then POLYNOMIAL else NoBits(9))
  }

  ghost predicate IsMultiple(x: seq<bool>) {
    exists q :: Product(q) == x
  }

  // ---------------------------------------------------------------------
  // Division
  // ---------------------------------------------------------------------

  lemma ProductAppend(q: seq<bool>, b: bool)
    ensures Product(q + [b]) == BitsXor(Product(q) + [false], NoBits(|q|) + if b then POLYNOMIAL else NoBits(9))
  {
    assert (q + [b])[..|q|] == q;
  }

  /** One step of long division: the register shifts, and the polynomial goes in when a one falls out. */
  lemma DivisionStep(y: seq<bool>, r: Reg, b: bool, p: seq<bool>)
    requires p == y + RegBits(r)
    ensures var out := r.b7 != b;
      BitsXor(p + [false], NoBits(|y|) + if out then POLYNOMIAL else NoBits(9)) == (y + [b]) + RegBits(BitStep(r, b))
  {
    var out := r.b7 != b;
    var z, w := p + [false], NoBits(|y|) + if out then POLYNOMIAL else NoBits(9);
    var left, right := BitsXor(z, w), (y + [b]) + RegBits(BitStep(r, b));
    forall i | 0 <= i < |left| ensures left[i] == right[i] {
      if i >= |y| { LastNine(r, b, i - |y|); }
    }
  }

  /** The same in the nine places where the register and the polynomial stand. */
  lemma LastNine(r: Reg, b: bool, i: nat)
    requires i < 9
    ensures var out := r.b7 != b;
      ((RegBits(r) + [false])[i] != (if out then POLYNOMIAL else NoBits(9))[i]) == ([b] + RegBits(BitStep(r, b)))[i]
  {
    hide RegBits, NoBits;
    var out := r.b7 != b;
    NineOfRegister(r);
    NineOfPolynomial(out);
    NineOfNext(BitStep(r, b), b);
    SameNine(RegBits(r) + [false], if out then POLYNOMIAL else NoBits(9), [b] + RegBits(BitStep(r, b)), i);
  }

  lemma NineOfRegister(r: Reg)
    ensures var x := RegBits(r) + [false];
      && |x| == 9 && x[0] == r.b7 && x[1] == r.b6 && x[2] == r.b5 && x[3] == r.b4 && x[4] == r.b3
      && x[5] == r.b2 && x[6] == r.b1 && x[7] == r.b0 && !x[8]
  {
  }

  lemma NineOfPolynomial(out: bool)
    ensures var x := if out then POLYNOMIAL else NoBits(9);
      && |x| == 9 && x[0] == out && !x[1] && !x[2] && !x[3] && !x[4] && !x[5]
      && x[6] == out && x[7] == out && x[8] == out
  {
  }

  lemma NineOfNext(s: Reg, b: bool)
    ensures var x := [b] + RegBits(s);
      && |x| == 9 && x[0] == b && x[1] == s.b7 && x[2] == s.b6 && x[3] == s.b5 && x[4] == s.b4
      && x[5] == s.b3 && x[6] == s.b2 && x[7] == s.b1 && x[8] == s.b0
  {
  }

  lemma SameNine(x: seq<bool>, y: seq<bool>, z: seq<bool>, i: nat)
    requires |x| == 9 && |y| == 9 && |z| == 9 && i < 9
    requires (x[0] != y[0]) == z[0] && (x[1] != y[1]) == z[1] && (x[2] != y[2]) == z[2]
    requires (x[3] != y[3]) == z[3] && (x[4] != y[4]) == z[4] && (x[5] != y[5]) == z[5]
    requires (x[6] != y[6]) == z[6] && (x[7] != y[7]) == z[7] && (x[8] != y[8]) == z[8]
    ensures (x[i] != y[i]) == z[i]
  {
    if i < 3 {
      assert i == 0 || i == 1 || i == 2;
    } else if i < 6 {
      assert i == 3 || i == 4 || i == 5;
    } else {
      assert i == 6 || i == 7 || i == 8;
    }
  }

  /** The bits so far, followed by the register they leave, are a multiple of the polynomial. */
  lemma {:induction false} Divided(y: seq<bool>) returns (q: seq<bool>)
    ensures |q| == |y| && Product(q) == y + RegBits(CrcBits(ZERO, y))
    decreases |y|
  {
    hide BitStep, RegBits;
    if y == [] {
      q := [];
      NothingDivided();
    } else {
      var n := |y| - 1;
      var y0, b := y[..n], y[n];
      assert y == y0 + [b];
      var q0 := Divided(y0);
      var r := CrcBits(ZERO, y0);
      CrcBitsAppend(ZERO, y0, [b]);
      assert CrcBits(r, [b]) == BitStep(r, b) by { assert CrcBits(BitStep(r, b), []) == BitStep(r, b); }
      DivisionStep(y0, r, b, Product(q0));
      q := q0 + [r.b7 != b];
      ProductAppend(q0, r.b7 != b);
    }
  }

  lemma NothingDivided()
    ensures Product([]) == [] + RegBits(ZERO)
  {
  }

  // ---------------------------------------------------------------------
  // Multiples clear the register
  // ---------------------------------------------------------------------

  lemma NoBitsClear(n: nat)
    ensures CrcBits(ZERO, NoBits(n)) == ZERO
  {
    CrcOfZeros(ZERO, NoBits(n));
    ZerosOfZero(ZERO, n);
  }

  lemma PolynomialClears()
    ensures CrcBits(ZERO, POLYNOMIAL) == ZERO
  {
    var x, last := POLYNOMIAL[..8], POLYNOMIAL[8..];
    assert POLYNOMIAL == x + last && last == [true];
    CrcBitsAppend(ZERO, x, last);
    Unrolled(ZERO, x);
    OneBit(CrcBits(ZERO, x));
  }

  lemma {:induction false} ProductClears(q: seq<bool>)
    ensures CrcBits(ZERO, Product(q)) == ZERO
    decreases |q|
  {
    hide BitStep, CrcBits;
    if q == [] {
      NoBitsClear(8);
    } else {
      var n := |q| - 1;
      var p, g := Product(q[..n]), if q[n] then POLYNOMIAL else NoBits(9);
      ProductClears(q[..n]);
      CrcBitsAppend(ZERO, p, [false]);
      assert [false] == NoBits(1);
      NoBitsClear(1);
      CrcBitsAppend(ZERO, NoBits(n), g);
      NoBitsClear(n);
      PolynomialClears();
      NoBitsClear(9);
      CrcBitsLinear(ZERO, ZERO, p + [false], NoBits(n) + g);
    }
  }

  /** The register is left at zero by the multiples of the polynomial, and by nothing else. */
  lemma ClearIffMultiple(x: seq<bool>)
    requires |x| >= 8
    ensures CrcBits(ZERO, x) == ZERO <==> IsMultiple(x)
  {
    hide BitStep, CrcBits, Product, RegBits;
    if CrcBits(ZERO, x) == ZERO {
      var n := |x| - 8;
      var y, w := x[..n], x[n..];
      assert x == y + w;
      var q := Divided(y);
      var r := CrcBits(ZERO, y);
      CrcBitsAppend(ZERO, y, w);
      OwnBitsClear(r);
      EightRegBits(r);
      WindowInjective(r, w, RegBits(r));
      assert Product(q) == x;
    } else if IsMultiple(x) {
      var q :| Product(q) == x;
      ProductClears(q);
    }
  }

  lemma EightRegBits(r: Reg)
    ensures |RegBits(r)| == 8
  {
  }

  /** Shorter words hold no multiple, and clear the register only if they are all zero. */
  lemma {:induction false} ShortClear(x: seq<bool>)
    requires |x| < 8
    ensures !IsMultiple(x) && (CrcBits(ZERO, x) == ZERO <==> x == NoBits(|x|))
  {
    hide CrcBits;
    var pad := NoBits(8 - |x|);
    CrcBitsAppend(ZERO, pad, x);
    NoBitsClear(8 - |x|);
    EightBits(pad + x);
    if x != NoBits(|x|) {
      var i :| 0 <= i < |x| && x[i];
      assert (pad + x)[8 - |x| + i];
    }
  }

  /**
    The PEC is the remainder: among all bytes that could follow a message, it is
    the one that makes the whole a multiple of x^8 + x^2 + x + 1.
   */
  lemma PecMakesMultiple(m: seq<Byte>, p: Byte)
    ensures IsMultiple(MessageBits(m + [p])) <==> p == Pec(m)
  {
    hide IsMultiple, Pec, MessageBits;
    ClearIffMultiple(MessageBits(m + [p]));
    OnlyPecClears(m, p);
  }

  // ---------------------------------------------------------------------
  // Known answers
  // ---------------------------------------------------------------------

  /** One byte, given by its bits, takes the register from `r` to `next`. */
  lemma Feed(r: Reg, v: Byte, bits: Reg, next: Reg, m: seq<Byte>)
    requires Value(bits) == v && CrcBits(r, RegBits(bits)) == next
    ensures CrcBits(r, MessageBits([v] + m)) == CrcBits(next, MessageBits(m))
  {
    hide ByteBits, CrcBits, Value, RegBits;
    ByteBitsOfValue(bits);
    assert ([v] + m)[0] == v && ([v] + m)[1..] == m;
    CrcBitsAppend(r, ByteBits(v), MessageBits(m));
  }

  /** A byte from its bits, without the sequence in between. */
  lemma EightSteps(r: Reg, x: Reg)
    ensures CrcBits(r, RegBits(x)) ==
      BitStep(BitStep(BitStep(BitStep(BitStep(BitStep(BitStep(BitStep(r,
        x.b7), x.b6), x.b5), x.b4), x.b3), x.b2), x.b1), x.b0)
  {
    hide BitStep;
    Unrolled(r, RegBits(x));
  }

  const HEX_01 := Reg(false, false, false, false, false, false, false, true)
  const HEX_05 := Reg(false, false, false, false, false, true, false, true)
  const HEX_07 := Reg(false, false, false, false, false, true, true, true)
  const HEX_22 := Reg(false, false, true, false, false, false, true, false)
  const HEX_B4 := Reg(true, false, true, true, false, true, false, false)
  const HEX_F5 := Reg(true, true, true, true, false, true, false, true)

  lemma Hexadecimal()
    ensures Value(HEX_01) == 0x01 && Value(HEX_07) == 0x07
    ensures Value(HEX_22) == 0x22 && Value(HEX_B4) == 0xB4 && Value(HEX_F5) == 0xF5
  {
  }

  lemma RegisterSteps()
    ensures CrcBits(ZERO, RegBits(HEX_01)) == HEX_07
    ensures CrcBits(ZERO, RegBits(HEX_B4)) == HEX_05 && CrcBits(HEX_05, RegBits(HEX_22)) == HEX_F5
  {
    hide RegBits, CrcBits;
    EightSteps(ZERO, HEX_01);
    EightSteps(ZERO, HEX_B4);
    EightSteps(HEX_05, HEX_22);
  }

  /** The PEC of 0x01 is what the polynomial leaves of x^8. */
  lemma OneByteKnown()
    ensures Pec([0x01]) == 0x07
  {
    hide RegBits, CrcBits, MessageBits, Value;
    Hexadecimal();
    RegisterSteps();
    Feed(ZERO, 0x01, HEX_01, HEX_07, []);
    assert [0x01] + [] == [0x01];
    NothingFed(HEX_07);
  }

  lemma NothingFed(r: Reg)
    ensures CrcBits(r, MessageBits([])) == r
  {
  }

  /** The command 0x22 sent to address 0x5A, whose header byte is 0xB4. */
  lemma CommandKnown()
    ensures Pec([0xB4, 0x22]) == 0xF5
  {
    hide RegBits, CrcBits, MessageBits, Value;
    Hexadecimal();
    RegisterSteps();
    Feed(ZERO, 0xB4, HEX_B4, HEX_05, [0x22]);
    Feed(HEX_05, 0x22, HEX_22, HEX_F5, []);
    assert [0xB4] + [0x22] == [0xB4, 0x22] && [0x22] + [] == [0x22];
    NothingFed(HEX_F5);
  }
}
