/**
  Reading and writing register fields over a bus that moves whole registers,
  as lists of four bytes.
 */
module CsrFields {
  import opened Wrappers
  import opened Bits
  import opened Bitwise
  import opened FieldMasks

  // ---------------------------------------------------------------------
  // Integers and bytes
  // ---------------------------------------------------------------------

  /** The bytes of a value, least significant first; a value above `2^(8 * width)` is refused. */
  function Int2Bytes(value: nat, width: nat): Option<seq<Byte>> {
    if value <= Pow2(8 * width) then Some(BytesOf(value, width)) else None
  }

  function BytesOf(value: nat, width: nat): (data: seq<Byte>)
    ensures |data| == width
  {
    seq(width, b requires 0 <= b < width => LowByte(Shr(value, b * 8)))
  }

  /** `v & 0xFF` */
  function LowByte(v: nat): (b: Byte)
    ensures forall k: nat :: Test(b, k) <==> k < 8 && Test(v, k)
  {
    LowByteBits(v);
    And(v, 0xFF)
  }

  lemma LowByteBits(v: nat)
    ensures And(v, 0xFF) < 256 && forall k: nat :: Test(And(v, 0xFF), k) <==> k < 8 && Test(v, k)
  {
    Pow2Small();
    forall k: nat ensures Test(And(v, 0xFF), k) <==> k < 8 && Test(v, k) {
      AndBits(v, 0xFF, k);
      OnesBits(8, k);
    }
    if And(v, 0xFF) >= Pow2(8) {
      var k := SomeHighBit(And(v, 0xFF), 8);
      assert false;
    }
  }

  /** The sum of the bytes at their places, for the first `width` of them. */
  function Bytes2Int(data: seq<Byte>, width: nat): nat
    decreases width
  {
    if width == 0 then 0
    else if width > |data| then Bytes2Int(data, width - 1)
    else Bytes2Int(data, width - 1) + Shl(data[width - 1], (width - 1) * 8)
  }

  /** Bit `k` of the integer is bit `k % 8` of byte `k / 8`. */
  lemma {:induction false} BytesBits(data: seq<Byte>, n: nat, k: nat)
    requires n <= |data|
    ensures Test(Bytes2Int(data, n), k) <==> k / 8 < n && Test(data[k / 8], k % 8)
    decreases n, 0
  {
    if n == 0 {
      ZeroBits(k);
    } else {
      hide Test, Shl, Or;
      var at := (n - 1) * 8;
      BytesBound(data, n - 1);
      OrIsPlus(Bytes2Int(data, n - 1), at, data[n - 1]);
      OrBits(Bytes2Int(data, n - 1), Shl(data[n - 1], at), k);
      ShlBits(data[n - 1], at, k);
      BytesBits(data, n - 1, k);
      Pow2Small();
      if k >= at + 8 { NoHighBits(data[n - 1], 8, k - at); }
    }
  }

  lemma {:induction false} BytesBound(data: seq<Byte>, n: nat)
    requires n <= |data|
    ensures Bytes2Int(data, n) < Pow2(8 * n)
    decreases n, 1
  {
    if Bytes2Int(data, n) >= Pow2(8 * n) {
      var k := SomeHighBit(Bytes2Int(data, n), 8 * n);
      BytesBits(data, n, k);
      assert false;
    }
  }

  lemma BytesOfBits(value: nat, width: nat, k: nat)
    ensures Test(Bytes2Int(BytesOf(value, width), width), k) <==> k < 8 * width && Test(value, k)
  {
    var data := BytesOf(value, width);
    BytesBits(data, width, k);
    if k / 8 < width {
      ShrBits(value, k / 8 * 8, k % 8);
      assert Test(data[k / 8], k % 8) <==> Test(Shr(value, k / 8 * 8), k % 8);
    }
  }

  /** A value survives the trip through bytes exactly when it fits; `2^(8 * width)` is let through and lost. */
  lemma IntRoundTrip(value: nat, width: nat)
    ensures (Int2Bytes(value, width).Some? && Bytes2Int(Int2Bytes(value, width).value, width) == value)
            <==> value < Pow2(8 * width)
  {
    hide Test;
    var back := Bytes2Int(BytesOf(value, width), width);
    BytesBound(BytesOf(value, width), width);
    if value < Pow2(8 * width) {
      forall k: nat ensures Test(back, k) <==> Test(value, k) {
        BytesOfBits(value, width, k);
        if k >= 8 * width { NoHighBits(value, 8 * width, k); }
      }
      SameBits(back, value);
    }
  }

  lemma LimitIsLost(width: nat)
    ensures var limit := Int2Bytes(Pow2(8 * width), width); limit.Some? && Bytes2Int(limit.value, width) == 0
  {
    hide Test;
    var value := Pow2(8 * width);
    var back := Bytes2Int(BytesOf(value, width), width);
    forall k: nat ensures Test(back, k) <==> Test(0, k) {
      BytesOfBits(value, width, k);
      ShlIsTimes(1, 8 * width);
      ShlBits(1, 8 * width, k);
      ZeroBits(k);
    }
    SameBits(back, 0);
  }

  /** Bytes survive the trip through an integer. */
  lemma BytesRoundTrip(data: seq<Byte>)
    ensures Int2Bytes(Bytes2Int(data, |data|), |data|) == Some(data)
  {
    hide Test;
    var value := Bytes2Int(data, |data|);
    BytesBound(data, |data|);
    forall b | 0 <= b < |data| ensures BytesOf(value, |data|)[b] == data[b] {
      var low := LowByte(Shr(value, b * 8));
      forall k: nat ensures Test(low, k) <==> Test(data[b], k) {
        ShrBits(value, b * 8, k);
        BytesBits(data, |data|, k + b * 8);
        Pow2Small();
        if k >= 8 { NoHighBits(data[b], 8, k); }
      }
      SameBits(low, data[b]);
    }
    assert BytesOf(value, |data|) == data;
  }

  // ---------------------------------------------------------------------
  // Fields of one register
  // ---------------------------------------------------------------------

  /** Bits `low..high` of a 32-bit register. */
  datatype Field = Field(low: nat, high: nat) {
    predicate InWord() { low <= high < 32 }

    function Mask(): nat
      requires low <= high
    {
      RawMask(low, high)
    }

    predicate Has(k: nat) { low <= k <= high }

    predicate Fits(data: nat) { low <= high && data < Pow2(high - low + 1) }

    predicate Disjoint(other: Field) { high < other.low || other.high < low }
  }

  /** `(value & mask) >> low` */
  function Extract(value: nat, f: Field): nat
    requires f.InWord()
  {
    Shr(And(value, f.Mask()), f.low)
  }

  /** `(value & ~mask) | (data << low)` */
  function Merge(value: nat, f: Field, data: nat): nat
    requires f.InWord()
  {
    Or(AndNot(value, f.Mask()), Shl(data, f.low))
  }

  lemma ExtractBits(value: nat, f: Field, k: nat)
    requires f.InWord()
    ensures Test(Extract(value, f), k) <==> f.Has(k + f.low) && Test(value, k + f.low)
  {
    hide Test;
    RawMaskIs(f.low, f.high);
    ShrBits(And(value, f.Mask()), f.low, k);
    AndBits(value, f.Mask(), k + f.low);
  }

  lemma MergeBits(value: nat, f: Field, data: nat, k: nat)
    requires f.InWord() && f.Fits(data)
    ensures Test(Merge(value, f, data), k) <==> if f.Has(k) then Test(data, k - f.low) else Test(value, k)
  {
    hide Test;
    RawMaskIs(f.low, f.high);
    OrBits(AndNot(value, f.Mask()), Shl(data, f.low), k);
    AndNotBits(value, f.Mask(), k);
    ShlBits(data, f.low, k);
    if k > f.high { NoHighBits(data, f.high - f.low + 1, k - f.low); }
  }

  /** A merge stays inside the word. */
  lemma MergeBound(value: nat, f: Field, data: nat)
    requires f.InWord() && f.Fits(data) && value < Pow2(32)
    ensures Merge(value, f, data) < Pow2(32)
  {
    if Merge(value, f, data) >= Pow2(32) {
      var k := SomeHighBit(Merge(value, f, data), 32);
      MergeBits(value, f, data, k);
      NoHighBits(value, 32, k);
      assert false;
    }
  }

  lemma ReadsBack(value: nat, f: Field, data: nat)
    requires f.InWord() && f.Fits(data)
    ensures Extract(Merge(value, f, data), f) == data
  {
    hide Test;
    var back := Extract(Merge(value, f, data), f);
    forall k: nat ensures Test(back, k) <==> Test(data, k) {
      ExtractBits(Merge(value, f, data), f, k);
      MergeBits(value, f, data, k + f.low);
      if k > f.high - f.low { NoHighBits(data, f.high - f.low + 1, k); }
    }
    SameBits(back, data);
  }

  lemma OthersKept(value: nat, f: Field, data: nat, g: Field)
    requires f.InWord() && f.Fits(data) && g.InWord() && f.Disjoint(g)
    ensures Extract(Merge(value, f, data), g) == Extract(value, g)
  {
    hide Test;
    var was, now := Extract(value, g), Extract(Merge(value, f, data), g);
    forall k: nat ensures Test(now, k) <==> Test(was, k) {
      ExtractBits(Merge(value, f, data), g, k);
      ExtractBits(value, g, k);
      MergeBits(value, f, data, k + g.low);
    }
    SameBits(now, was);
  }

  // ---------------------------------------------------------------------
  // Memory fields: the mask has been cut to one word, the shift has not
  // ---------------------------------------------------------------------

  /** The mask the scanner records for a memory field. */
  predicate MemoryMask(mask: nat, low: nat, high: nat)
    requires low <= high
  {
    mask == Shr(Span(low, high), 32 * (high / 32))
  }

  /** `(value & mask) >> low` */
  function MemoryRead(value: nat, mask: nat, low: nat): nat {
    Shr(And(value, mask), low)
  }

  /** Bit `k` of what is read is bit `low + k` of the word, as far as the field reaches into its last word. */
  lemma MemoryReadBits(value: nat, mask: nat, low: nat, high: nat, k: nat)
    requires low <= high && MemoryMask(mask, low, high)
    ensures Test(MemoryRead(value, mask, low), k) <==> low + k <= high % 32 && Test(value, low + k)
  {
    hide Test;
    ShrBits(And(value, mask), low, k);
    AndBits(value, mask, k + low);
    SpanBits(low, high);
  }

  /** A memory field reads as zero from every word exactly when `high % 32 < low`, as all from bit 32 on do. */
  lemma MemoryFieldReadsZeroIff(mask: nat, low: nat, high: nat)
    requires low <= high && MemoryMask(mask, low, high)
    ensures (forall value: nat :: value < Pow2(32) ==> MemoryRead(value, mask, low) == 0) <==> high % 32 < low
  {
    hide Test, MemoryRead, MemoryMask;
    if high % 32 < low {
      forall value: nat ensures MemoryRead(value, mask, low) == 0 {
        forall k: nat ensures Test(MemoryRead(value, mask, low), k) <==> Test(0, k) {
          MemoryReadBits(value, mask, low, high, k);
          ZeroBits(k);
        }
        SameBits(MemoryRead(value, mask, low), 0);
      }
    } else {
      var value := Pow2(32) - 1;
      OnesBits(32, low);
      MemoryReadBits(value, mask, low, high, 0);
      ZeroBits(0);
    }
  }

  /** A memory field inside one word is read right from every word exactly when that is the first word. */
  lemma MemoryFieldRightIff(mask: nat, low: nat, high: nat)
    requires low <= high && low / 32 == high / 32 && MemoryMask(mask, low, high)
    ensures (forall value: nat :: value < Pow2(32) ==>
               MemoryRead(value, mask, low) == MemoryRead(value, mask, low % 32)) <==> high < 32
  {
    hide Test, MemoryRead, MemoryMask, Pow2;
    if high >= 32 {
      var value := Pow2(32) - 1;
      MemoryFieldReadsZeroIff(mask, low, high);
      RightReadBit(value, mask, low, high);
      OnesBits(32, low % 32);
      ZeroBits(0);
      assert MemoryRead(value, mask, low) == 0;
    }
  }

  lemma RightReadBit(value: nat, mask: nat, low: nat, high: nat)
    requires low <= high && low / 32 == high / 32 && MemoryMask(mask, low, high)
    ensures Test(MemoryRead(value, mask, low % 32), 0) <==> Test(value, low % 32)
  {
    hide Test;
    ShrBits(And(value, mask), low % 32, 0);
    AndBits(value, mask, low % 32);
    SpanBits(low, high);
    assert low == low % 32 + 32 * (high / 32);
  }

  /** A field that crosses a word border reads the bits from `low` on of the last word's share of it. */
  lemma CrossingFieldRead(value: nat, mask: nat, low: nat, high: nat)
    requires low / 32 < high / 32 && MemoryMask(mask, low, high)
    ensures MemoryRead(value, mask, low) == Shr(And(value, Pow2(high % 32 + 1) - 1), low)
  {
    SpanBits(low, high);
    CrossingField(low, high, mask);
  }

  // ---------------------------------------------------------------------
  // The bus
  // ---------------------------------------------------------------------

  lemma OutIs(value: nat, out: Option<seq<Byte>>)
    requires out == Int2Bytes(value, 4)
    ensures out.Some? <==> value <= Pow2(32)
    ensures out.Some? ==> |out.value| == 4
    ensures value < Pow2(32) ==> out.Some? && Bytes2Int(out.value, 4) == value
  {
    IntRoundTrip(value, 4);
  }

  datatype FieldWrite = FieldWrite(addr: int, field: Field, data: nat)

  /** Register values after a field write. */
  function Written(words: map<int, nat>, w: FieldWrite): map<int, nat>
    requires w.addr in words && w.field.InWord()
  {
    words[w.addr := Merge(words[w.addr], w.field, w.data)]
  }

  /** Access to registers as a front-end bus gives it. */
  class FrontBus {
    var regs: map<int, seq<Byte>>

    predicate Valid() reads this { forall a :: a in regs ==> |regs[a]| == 4 }

    function Words(): map<int, nat> reads this {
      map a | a in regs :: Bytes2Int(regs[a], 4)
    }

    constructor (initial: map<int, seq<Byte>>)
      requires forall a :: a in initial ==> |initial[a]| == 4
      ensures Valid() && regs == initial
    {
      regs := initial;
    }

    method ReadCsr(addr: int) returns (data: seq<Byte>)
      requires Valid() && addr in regs
      ensures data == regs[addr]
    {
      data := regs[addr];
    }

    method WriteCsr(addr: int, data: seq<Byte>)
      requires Valid() && addr in regs && |data| == 4
      modifies this
      ensures Valid() && regs == old(regs)[addr := data]
    {
      regs := regs[addr := data];
    }

    /** Read, modify, write. */
    method WriteCsrField(addr: int, field: Field, data: nat) returns (ok: bool)
      requires Valid() && addr in regs && field.InWord()
      modifies this
      ensures Valid()
      ensures ok <==> Merge(old(Words())[addr], field, data) <= Pow2(32)
      ensures field.Fits(data) ==> ok && Words() == Written(old(Words()), FieldWrite(addr, field, data))
      ensures !ok ==> regs == old(regs)
    {
      hide Or, AndNot, Shl, Test, Pow2, RawMask, Bytes2Int, Int2Bytes;
      var bytes := ReadCsr(addr);
      var value := AndNot(Bytes2Int(bytes, 4), field.Mask());
      value := Or(value, Shl(data, field.low));
      assert value == Merge(old(Words())[addr], field, data);
      var out := Int2Bytes(value, 4);
      ok := out.Some?;
      OutIs(value, out);
      if ok {
        WriteCsr(addr, out.value);
        if field.Fits(data) {
          assert regs[addr] == out.value;
        }
      }
      BytesBound(bytes, 4);
      if field.Fits(data) { MergeBound(Bytes2Int(bytes, 4), field, data); }
    }

    method ReadCsrField(addr: int, field: Field) returns (data: nat)
      requires Valid() && addr in regs && field.InWord()
      ensures data == Extract(Words()[addr], field)
    {
      var bytes := ReadCsr(addr);
      data := Bytes2Int(bytes, 4);
      data := And(data, field.Mask());
      data := Shr(data, field.low);
    }
  }

  // ---------------------------------------------------------------------
  // Any sequence of field writes
  // ---------------------------------------------------------------------

  predicate Allowed(words: map<int, nat>, w: FieldWrite) {
    w.addr in words && w.field.InWord() && w.field.Fits(w.data)
  }

  function AllWritten(words: map<int, nat>, ws: seq<FieldWrite>): (after: map<int, nat>)
    requires forall w <- ws :: Allowed(words, w)
    ensures after.Keys == words.Keys
    decreases |ws|
  {
    if ws == [] then words
    else
      var last := ws[|ws| - 1];
      assert Allowed(words, ws[|ws| - 1]);
      Written(AllWritten(words, ws[..|ws| - 1]), last)
  }

  /** What was last written to a field, or else what it held. */
  function LastWritten(ws: seq<FieldWrite>, addr: int, field: Field, held: nat): nat
    decreases |ws|
  {
    if ws == [] then held
    else
      var last := ws[|ws| - 1];
      if last.addr == addr && last.field == field then last.data
      else LastWritten(ws[..|ws| - 1], addr, field, held)
  }

  /**
    After any sequence of field writes a field that overlaps no other written
    field of its register reads as what was last written to it.
   */
  lemma {:induction false} LastWriteReadsBack(words: map<int, nat>, ws: seq<FieldWrite>, addr: int, g: Field)
    requires forall w <- ws :: Allowed(words, w)
    requires addr in words && g.InWord()
    requires forall w <- ws :: w.addr == addr ==> w.field == g || w.field.Disjoint(g)
    ensures Extract(AllWritten(words, ws)[addr], g) == LastWritten(ws, addr, g, Extract(words[addr], g))
    decreases |ws|
  {
    if ws != [] {
      hide Merge, Extract;
      var before, last := ws[..|ws| - 1], ws[|ws| - 1];
      assert ws == before + [last];
      LastWriteReadsBack(words, before, addr, g);
      if last.addr == addr {
        var value := AllWritten(words, before)[addr];
        assert Allowed(words, last);
        if last.field == g { ReadsBack(value, g, last.data); } else { OthersKept(value, last.field, last.data, g); }
      }
    }
  }

  /** A bit outside every written field never changes. */
  lemma {:induction false} BitUntouched(words: map<int, nat>, ws: seq<FieldWrite>, addr: int, k: nat)
    requires forall w <- ws :: Allowed(words, w)
    requires addr in words
    requires forall w <- ws :: w.addr == addr ==> !w.field.Has(k)
    ensures Test(AllWritten(words, ws)[addr], k) <==> Test(words[addr], k)
    decreases |ws|
  {
    if ws != [] {
      hide Merge, Test;
      var before, last := ws[..|ws| - 1], ws[|ws| - 1];
      assert ws == before + [last];
      BitUntouched(words, before, addr, k);
      if last.addr == addr { MergeBits(AllWritten(words, before)[addr], last.field, last.data, k); }
    }
  }
}
