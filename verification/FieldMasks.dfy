/**
  The mask of a register field as the register-map scanner computes it; for a
  memory field it prints the mask in hexadecimal and cuts the string.
 */
module FieldMasks {
  import opened Bits
  import opened Bitwise

  const DIGITS: string := "0123456789abcdef"

  /** `((2 << high) - 1) & ~((1 << low) - 1)` */
  function RawMask(low: nat, high: nat): nat
    requires low <= high
  {
    ShlIsTimes(2, high);
    ShlIsTimes(1, low);
    AndNot(Shl(2, high) - 1, Shl(1, low) - 1)
  }

  lemma RawMaskIs(low: nat, high: nat)
    requires low <= high
    ensures RawMask(low, high) == Span(low, high)
    ensures forall k: nat :: Test(RawMask(low, high), k) <==> low <= k <= high
  {
    ShlIsTimes(2, high);
    ShlIsTimes(1, low);
    OnesMinusOnes(high + 1, low);
    forall k: nat ensures Test(RawMask(low, high), k) <==> low <= k <= high {
      AndNotBits(Pow2(high + 1) - 1, Pow2(low) - 1, k);
      OnesBits(high + 1, k);
      OnesBits(low, k);
    }
  }

  // ---------------------------------------------------------------------
  // Hexadecimal strings
  // ---------------------------------------------------------------------

  /** The digits of `hex(n)`, without the prefix. */
  function HexDigits(n: nat): string {
    if n < 16 then [DIGITS[n]] else HexDigits(n / 16) + [DIGITS[n % 16]]
  }

  function DigitValue(c: char): nat {
    if '0' <= c <= '9' then (c - '0') as nat else if 'a' <= c <= 'f' then (c - 'a') as nat + 10 else 0
  }

  /** `int(s, 16)` */
  function Parse(s: string): nat {
    if s == "" then 0 else Parse(s[..|s| - 1]) * 16 + DigitValue(s[|s| - 1])
  }

  lemma DigitRoundTrip(d: nat)
    requires d < 16
    ensures DigitValue(DIGITS[d]) == d
  {
  }

  lemma {:induction false} ParseHex(n: nat)
    ensures Parse(HexDigits(n)) == n
  {
    if n < 16 {
      assert HexDigits(n)[..0] == "";
    } else {
      ParseHex(n / 16);
      assert HexDigits(n)[..|HexDigits(n)| - 1] == HexDigits(n / 16);
      DigitRoundTrip(n % 16);
    }
  }

  /** A number with top bit `high` has `high / 4 + 1` hexadecimal digits. */
  lemma {:induction false} HexLength(n: nat, high: nat)
    requires Pow2(high) <= n < Pow2(high + 1)
    ensures |HexDigits(n)| == high / 4 + 1
    decreases high
  {
    assert Pow2(4) == 16;
    if high < 4 {
      Pow2Monotone(high + 1, 4);
    } else {
      Pow2Monotone(4, high);
      Pow2Plus(high - 4, 4);
      Pow2Plus(high - 3, 4);
      HexLength(n / 16, high - 4);
    }
  }

  /** Cutting `k` digits off shifts the number by `4 * k` bits. */
  lemma {:induction false} CutDigits(s: string, k: nat)
    requires k <= |s|
    ensures Parse(s[..|s| - k]) == Shr(Parse(s), 4 * k)
    decreases k
  {
    if k == 0 {
      assert s[..|s|] == s;
    } else {
      CutDigits(s, k - 1);
      var t := s[..|s| - k + 1];
      assert t[..|t| - 1] == s[..|s| - k];
      DigitBound(t[|t| - 1]);
      var p := Parse(s);
      ShrFour(p, 4 * (k - 1));
    }
  }

  lemma ShrFour(v: nat, k: nat)
    ensures Shr(v, k + 4) == Shr(v, k) / 16
  {
    assert Shr(v, k + 1) == Shr(v, k) / 2;
    assert Shr(v, k + 2) == Shr(v, k + 1) / 2;
    assert Shr(v, k + 3) == Shr(v, k + 2) / 2;
    assert Shr(v, k + 4) == Shr(v, k + 3) / 2;
    assert Shr(v, k) / 2 / 2 / 2 / 2 == Shr(v, k) / 16;
  }

  lemma DigitBound(c: char)
    ensures DigitValue(c) < 16
  {
  }

  lemma {:induction false} ShrShr(v: nat, j: nat, k: nat)
    ensures Shr(Shr(v, j), k) == Shr(v, j + k)
  {
    if k > 0 { ShrShr(v, j, k - 1); }
  }

  // ---------------------------------------------------------------------
  // The scanner
  // ---------------------------------------------------------------------

  /** The mask with all bits of `low..high`. */
  function Span(low: nat, high: nat): (m: nat)
    requires low <= high
  {
    Pow2Monotone(low, high + 1);
    Pow2(high + 1) - Pow2(low)
  }

  /** One round of the loop: eight digits go, and with them 32 bits. */
  lemma CutWord(s: string, raw: nat, cut: nat)
    requires |s| > 10 && Parse(s[2..]) == Shr(raw, 32 * cut)
    ensures Parse(s[..|s| - 8][2..]) == Shr(raw, 32 * (cut + 1))
  {
    hide Parse, Shr;
    CutDigits(s[2..], 8);
    assert s[2..][..|s[2..]| - 8] == s[..|s| - 8][2..];
    ShrShr(raw, 32 * cut, 32);
  }

  lemma Printed(low: nat, high: nat)
    requires low <= high
    ensures var s := HexDigits(Span(low, high)); |s| == high / 4 + 1 && Parse(s) == Span(low, high)
  {
    Pow2Monotone(low, high);
    HexLength(Span(low, high), high);
    ParseHex(Span(low, high));
  }

  /** The mask of a memory field: its printed form, cut down to at most eight digits. */
  method TrimmedMask(low: nat, high: nat) returns (mask: nat)
    requires low <= high
    ensures mask == Shr(Span(low, high), 32 * (high / 32))
  {
    hide Shr, Parse, HexDigits, Span, RawMask, Pow2;
    RawMaskIs(low, high);
    var s := "0x" + HexDigits(RawMask(low, high));
    ghost var raw := Span(low, high);
    ghost var cut := 0;
    Printed(low, high);
    assert s[2..] == HexDigits(raw);
    ShrZero(raw);
    while |s| > 10
      invariant |s| == high / 4 + 3 - 8 * cut && |s| > 2
      invariant Parse(s[2..]) == Shr(raw, 32 * cut)
    {
      CutWord(s, raw, cut);
      s := s[..|s| - 8];
      cut := cut + 1;
    }
    assert cut == high / 32;
    mask := Parse(s[2..]);
  }

  /**
    The mask recorded for the field `low..high`: all its bits in a register,
    and in a memory its bits of the last 32-bit word it reaches.
   */
  method FieldMask(low: nat, high: nat, inMemory: bool) returns (mask: nat)
    requires low <= high && (inMemory || high < 32)
    ensures mask == Shr(Span(low, high), 32 * (high / 32))
    ensures forall k: nat :: Test(mask, k) <==> low <= k + 32 * (high / 32) <= high
  {
    hide RawMask, Test;
    if inMemory {
      mask := TrimmedMask(low, high);
    } else {
      ShrZero(Span(low, high));
      RawMaskIs(low, high);
      if high - low + 1 == 1 {
        mask := Shl(1, low);
        ShlIsTimes(1, low);
      } else if low != 0 || high != 31 {
        mask := RawMask(low, high);
      } else {
        mask := 0xFFFFFFFF;
        WordSpan();
      }
    }
    SpanBits(low, high);
  }

  lemma WordSpan()
    ensures Span(0, 31) == 0xFFFFFFFF && Pow2(32) == 0x1_0000_0000
  {
    assert Pow2(8) == 256;
    Pow2Plus(8, 8);
    Pow2Plus(16, 16);
  }

  lemma SpanBits(low: nat, high: nat)
    requires low <= high
    ensures forall k: nat :: Test(Shr(Span(low, high), 32 * (high / 32)), k) <==> low <= k + 32 * (high / 32) <= high
  {
    hide Shr, Test;
    var words := 32 * (high / 32);
    RawMaskIs(low, high);
    forall k: nat ensures Test(Shr(Span(low, high), words), k) <==> low <= k + words <= high {
      ShrBits(Span(low, high), words, k);
    }
  }

  /** A memory field that starts in an earlier word than it ends in keeps only its bits in the last one. */
  lemma CrossingField(low: nat, high: nat, mask: nat)
    requires low / 32 < high / 32
    requires forall k: nat :: Test(mask, k) <==> low <= k + 32 * (high / 32) <= high
    ensures mask == Pow2(high % 32 + 1) - 1
  {
    forall k: nat ensures Test(mask, k) <==> Test(Pow2(high % 32 + 1) - 1, k) {
      OnesBits(high % 32 + 1, k);
    }
    SameBits(mask, Pow2(high % 32 + 1) - 1);
  }

  /** A field inside one word gets the mask of the same field of a register. */
  lemma InsideField(low: nat, high: nat, mask: nat)
    requires low <= high && low / 32 == high / 32
    requires forall k: nat :: Test(mask, k) <==> low <= k + 32 * (high / 32) <= high
    ensures mask == Pow2(high % 32 + 1) - Pow2(low % 32)
  {
    RawMaskIs(low % 32, high % 32);
    forall k: nat ensures Test(mask, k) <==> Test(RawMask(low % 32, high % 32), k) {
      assert low == 32 * (high / 32) + low % 32 && high == 32 * (high / 32) + high % 32;
    }
    SameBits(mask, RawMask(low % 32, high % 32));
  }
}
