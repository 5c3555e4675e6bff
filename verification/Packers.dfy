/**
  Two ways to pack bytes into 32-bit words: the generator of masked words, and
  the list of words that follows an interrupt descriptor.
 */
module Packers {
  import opened Wrappers
  import opened Bits
  import opened Bitwise
  import opened CsrFields

  /** The number of words for `n` bytes. */
  function WordCount(n: nat): nat { (n + 3) / 4 }

  function OrNull(data: seq<Byte>, i: nat): Byte {
    if i < |data| then data[i] else 0
  }

  /** Bit `k` of word `j` is bit `k % 8` of byte `4 * j + k / 8`, if there is one. */
  ghost predicate Packs(word: nat, data: seq<Byte>, j: nat) {
    forall k: nat :: Test(word, k) <==> k < 32 && Test(OrNull(data, 4 * j + k / 8), k % 8)
  }

  /** Four bytes, one word. */
  function Dword(data: seq<Byte>, i: nat): nat {
    Or(Or(Or(Shl(OrNull(data, i + 3), 24), Shl(OrNull(data, i + 2), 16)), Shl(OrNull(data, i + 1), 8)),
       Shl(OrNull(data, i), 0))
  }

  lemma DwordPacks(data: seq<Byte>, j: nat)
    ensures Packs(Dword(data, 4 * j), data, j)
  {
    hide Test, Shl, Or;
    var i := 4 * j;
    var b0, b1, b2, b3 := OrNull(data, i), OrNull(data, i + 1), OrNull(data, i + 2), OrNull(data, i + 3);
    var s0, s1, s2, s3 := Shl(b0, 0), Shl(b1, 8), Shl(b2, 16), Shl(b3, 24);
    forall k: nat ensures Test(Dword(data, i), k) <==> k < 32 && Test(OrNull(data, i + k / 8), k % 8) {
      OrBits(Or(Or(s3, s2), s1), s0, k);
      OrBits(Or(s3, s2), s1, k);
      OrBits(s3, s2, k);
      ByteBits(b0, 0, k);
      ByteBits(b1, 1, k);
      ByteBits(b2, 2, k);
      ByteBits(b3, 3, k);
    }
  }

  /** A byte shifted to place `p` occupies the eight bits there. */
  lemma ByteBits(b: Byte, p: nat, k: nat)
    ensures Test(Shl(b, 8 * p), k) <==> k / 8 == p && Test(b, k % 8)
  {
    hide Test, Shl;
    ShlBits(b, 8 * p, k);
    Pow2Small();
    if k >= 8 * p + 8 { NoHighBits(b, 8, k - 8 * p); }
  }

  /** The words with the masks of the bytes they hold. */
  method SplitIntoDwords(data: seq<Byte>) returns (out: seq<(nat, nat)>)
    ensures |out| == WordCount(|data|)
    ensures forall j :: 0 <= j < |out| ==> Packs(out[j].0, data, j)
    ensures forall j :: 0 <= j < |out| ==> out[j].1 == Pow2(8 * Min(|data| - 4 * j, 4)) - 1
  {
    hide Packs, Test, Dword, Pow2, Shl;
    out := [];
    var byteIdx := 0;
    while byteIdx < |data|
      invariant byteIdx == 4 * |out| && |out| <= WordCount(|data|)
      invariant forall j :: 0 <= j < |out| ==> Packs(out[j].0, data, j)
      invariant forall j :: 0 <= j < |out| ==> out[j].1 == Pow2(8 * Min(|data| - 4 * j, 4)) - 1
    {
      var bits := Min(|data| - byteIdx, 4) * 8;
      ShlIsTimes(1, bits);
      DwordPacks(data, |out|);
      out := out + [(Dword(data, byteIdx), Shl(1, bits) - 1)];
      byteIdx := byteIdx + 4;
    }
  }

  ghost predicate AllPacked(words: seq<nat>, data: seq<Byte>) {
    forall j :: 0 <= j < |words| ==> Packs(words[j], data, j)
  }

  /** The descriptor and the words of an in-band interrupt. */
  method FormatIbiData(mdb: Byte, data: seq<Byte>) returns (out: seq<nat>)
    ensures |out| == 1 + WordCount(|data|)
    ensures AllPacked(out[1..], data)
    ensures out[0] == Or(Shl(mdb, 24), |data|)
  {
    hide Packs, Test, Or, Shl;
    var words: seq<nat> := seq(WordCount(|data|), _ => 0);
    var i, j, n := 0, 0, 0;
    forall w | 0 <= w < |words| ensures Packs(words[w], data[..0], w) { NothingPacked(w); }
    while n < |data|
      invariant 0 <= n <= |data| && 0 <= i < 4 && n == 4 * j + i && |words| == WordCount(|data|)
      invariant AllPacked(words, data[..n])
    {
      forall w | 0 <= w < |words| && w != j ensures Packs(words[w], data[..n + 1], w) {
        OtherWord(words[w], data, n, w);
      }
      ThisWord(words[j], data, n, j, i);
      words := words[j := Or(words[j], Shl(data[n], 8 * i))];
      i := i + 1;
      if i == 4 {
        i := 0;
        j := j + 1;
      }
      n := n + 1;
    }
    assert data[..n] == data;
    out := [Or(Shl(mdb, 24), |data|)] + words;
  }

  lemma NothingPacked(w: nat)
    ensures Packs(0, [], w)
  {
    forall k: nat ensures !Test(0, k) && !Test(OrNull([], 4 * w + k / 8), k % 8) {
      ZeroBits(k);
      ZeroBits(k % 8);
    }
  }

  lemma OtherWord(word: nat, data: seq<Byte>, n: nat, w: nat)
    requires n < |data| && w != n / 4 && Packs(word, data[..n], w)
    ensures Packs(word, data[..n + 1], w)
  {
    hide Test;
    forall k: nat ensures Test(word, k) <==> k < 32 && Test(OrNull(data[..n + 1], 4 * w + k / 8), k % 8) {
      assert k < 32 ==> OrNull(data[..n], 4 * w + k / 8) == OrNull(data[..n + 1], 4 * w + k / 8);
    }
  }

  lemma ThisWord(word: nat, data: seq<Byte>, n: nat, j: nat, i: nat)
    requires n < |data| && i < 4 && n == 4 * j + i && Packs(word, data[..n], j)
    ensures Packs(Or(word, Shl(data[n], 8 * i)), data[..n + 1], j)
  {
    hide Test, Shl, Or;
    forall k: nat ensures Test(Or(word, Shl(data[n], 8 * i)), k) <==>
                          k < 32 && Test(OrNull(data[..n + 1], 4 * j + k / 8), k % 8) {
      OrBits(word, Shl(data[n], 8 * i), k);
      ByteBits(data[n], i, k);
      ZeroBits(k % 8);
      assert k / 8 != i && k < 32 ==> OrNull(data[..n], 4 * j + k / 8) == OrNull(data[..n + 1], 4 * j + k / 8);
      assert k / 8 == i ==> OrNull(data[..n], 4 * j + k / 8) == 0;
    }
  }

  /** Both packers produce the same words: a word is determined by what it packs. */
  lemma PackersAgree(split: seq<(nat, nat)>, ibi: seq<nat>, data: seq<Byte>)
    requires |split| == WordCount(|data|) && |ibi| == 1 + WordCount(|data|)
    requires forall j :: 0 <= j < |split| ==> Packs(split[j].0, data, j)
    requires AllPacked(ibi[1..], data)
    ensures ibi[1..] == seq(|split|, j requires 0 <= j < |split| => split[j].0)
  {
    hide Test;
    forall j | 0 <= j < |split| ensures ibi[1..][j] == split[j].0 {
      SameBits(ibi[1..][j], split[j].0);
    }
  }

  /** The bytes of word `j` under its mask are the bytes it was made of. */
  lemma MaskedBytes(word: nat, mask: nat, data: seq<Byte>, j: nat)
    requires 4 * j < |data| && Packs(word, data, j) && mask == Pow2(8 * Min(|data| - 4 * j, 4)) - 1
    ensures var n := Min(|data| - 4 * j, 4); BytesOf(And(word, mask), n) == data[4 * j..4 * j + n]
    ensures And(word, mask) == word
  {
    hide Test, And, Pow2;
    var n := Min(|data| - 4 * j, 4);
    forall k: nat ensures Test(And(word, mask), k) <==> Test(word, k) {
      AndBits(word, mask, k);
      OnesBits(8 * n, k);
      ZeroBits(k % 8);
      assert 8 * n <= k < 32 ==> OrNull(data, 4 * j + k / 8) == 0;
    }
    SameBits(And(word, mask), word);
    forall b | 0 <= b < n ensures BytesOf(word, n)[b] == data[4 * j + b] {
      WordByte(word, data, j, b);
    }
  }

  lemma WordByte(word: nat, data: seq<Byte>, j: nat, b: nat)
    requires b < 4 && 4 * j + b < |data| && Packs(word, data, j)
    ensures LowByte(Shr(word, b * 8)) == data[4 * j + b]
  {
    hide Test;
    var low := LowByte(Shr(word, b * 8));
    forall k: nat ensures Test(low, k) <==> Test(data[4 * j + b], k) {
      ShrBits(word, b * 8, k);
      Pow2Small();
      if k >= 8 {
        NoHighBits(data[4 * j + b], 8, k);
      } else {
        assert (k + b * 8) / 8 == b && (k + b * 8) % 8 == k;
        assert OrNull(data, 4 * j + (k + b * 8) / 8) == data[4 * j + b];
      }
    }
    SameBits(low, data[4 * j + b]);
  }

  /** Reading the first `n` masked words back, least significant byte first. */
  function Unpack(split: seq<(nat, nat)>, len: nat, n: nat): seq<Byte>
    requires n <= |split| && 4 * n < len + 4
  {
    if n == 0 then []
    else Unpack(split, len, n - 1) + BytesOf(And(split[n - 1].0, split[n - 1].1), Min(len - 4 * (n - 1), 4))
  }

  /** The packed words give back exactly the bytes. */
  lemma {:induction false} UnpackIsInverse(split: seq<(nat, nat)>, data: seq<Byte>, n: nat)
    requires n <= |split| == WordCount(|data|)
    requires forall j :: 0 <= j < |split| ==> Packs(split[j].0, data, j)
    requires forall j :: 0 <= j < |split| ==> split[j].1 == Pow2(8 * Min(|data| - 4 * j, 4)) - 1
    ensures Unpack(split, |data|, n) == data[..Min(|data|, 4 * n)]
    decreases n
  {
    if n > 0 {
      hide Packs, And, Pow2;
      UnpackIsInverse(split, data, n - 1);
      MaskedBytes(split[n - 1].0, split[n - 1].1, data, n - 1);
    }
  }

  /** Data byte and length of the descriptor can be read back exactly when the length has at most 24 bits. */
  lemma DescriptorRoundTrip(mdb: Byte, len: nat)
    ensures Shr(Or(Shl(mdb, 24), len), 24) == mdb && And(Or(Shl(mdb, 24), len), Pow2(24) - 1) == len
            <==> len < Pow2(24)
  {
    hide Test, Pow2, Shl, Or, Shr, And;
    if len < Pow2(24) {
      ShortDescriptor(mdb, len);
    } else {
      var k := SomeHighBit(len, 24);
      AndBits(Or(Shl(mdb, 24), len), Pow2(24) - 1, k);
      OnesBits(24, k);
    }
  }

  lemma ShortDescriptor(mdb: Byte, len: nat)
    requires len < Pow2(24)
    ensures Shr(Or(Shl(mdb, 24), len), 24) == mdb && And(Or(Shl(mdb, 24), len), Pow2(24) - 1) == len
  {
    hide Test, Pow2, Shl, Or, Shr, And;
    var d := Or(Shl(mdb, 24), len);
    forall k: nat ensures Test(Shr(d, 24), k) <==> Test(mdb, k) {
      ShrBits(d, 24, k);
      OrBits(Shl(mdb, 24), len, k + 24);
      ShlBits(mdb, 24, k + 24);
      NoHighBits(len, 24, k + 24);
    }
    SameBits(Shr(d, 24), mdb);
    forall k: nat ensures Test(And(d, Pow2(24) - 1), k) <==> Test(len, k) {
      AndBits(d, Pow2(24) - 1, k);
      OnesBits(24, k);
      OrBits(Shl(mdb, 24), len, k);
      ShlBits(mdb, 24, k);
      if k >= 24 { NoHighBits(len, 24, k); }
    }
    SameBits(And(d, Pow2(24) - 1), len);
  }
}
