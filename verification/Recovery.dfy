/**
  Recovery frames with a packet error code: what a command write puts on the
  bus, what a recovery read makes of a reply, and which corruptions it notices.
 */
module Recovery {
  import opened Wrappers
  import opened Bits
  import opened Crc8

  /** A byte received with its T-bit; `stop` is the target ending the transfer. */
  datatype Rx = Rx(byte: Byte, stop: bool)

  datatype ReadResult =
    | Nacked
    | ProtocolError(at: nat)                      // the byte whose T-bit was wrong
    | Received(data: seq<Byte>, pecOk: bool)

  function LenBytes(n: nat): seq<Byte> {
    [n % 256, n / 256 % 256]
  }

  function LengthOf(len: seq<Byte>): nat
    requires |len| == 2
  {
    len[1] as int * 256 + len[0] as int
  }

  /** Command, 16-bit length, payload and PEC; the PEC also covers the write address. */
  function WriteFrame(address: Address, command: Byte, data: seq<Byte>): seq<Byte> {
    var body := [command] + LenBytes(|data|) + data;
    body + [Pec([address * 2] + body)]
  }

  /** The bytes of a command; `badPec` stands for the random PEC that error injection puts in place of the right one. */
  function InjectedFrame(address: Address, command: Byte, data: seq<Byte>, forcePecError: bool, badPec: Byte): seq<Byte>
  {
    var frame := WriteFrame(address, command, data);
    if forcePecError then frame[|frame| - 1 := badPec] else frame
  }

  /** The command phase of a read: command and PEC. */
  function ReadCommandFrame(address: Address, command: Byte): seq<Byte> {
    [command, Pec([address * 2, command])]
  }

  /** What a target finds in a written frame, by length and PEC. */
  function Decode(address: Address, frame: seq<Byte>): Option<(Byte, seq<Byte>)> {
    if |frame| < 4 || LengthOf(frame[1..3]) != |frame| - 4 then None
    else if CrcBits(ZERO, MessageBits([address * 2] + frame)) != ZERO then None
    else Some((frame[0], frame[3..|frame| - 1]))
  }

  /** The CRC over the address and the whole frame, PEC included, is zero. */
  lemma WriteFrameClears(address: Address, command: Byte, data: seq<Byte>)
    ensures CrcBits(ZERO, MessageBits([address * 2] + WriteFrame(address, command, data))) == ZERO
    ensures CrcBits(ZERO, MessageBits([address * 2] + ReadCommandFrame(address, command))) == ZERO
  {
    hide CrcBits, MessageBits, Pec;
    var m := [address * 2] + ([command] + LenBytes(|data|) + data);
    assert [address * 2] + WriteFrame(address, command, data) == m + [Pec(m)];
    PecClears(m);
    var c := [address * 2, command];
    assert [address * 2] + ReadCommandFrame(address, command) == c + [Pec(c)];
    PecClears(c);
  }

  /** A written frame is understood exactly when its payload fits the 16-bit length. */
  lemma WriteRoundTrip(address: Address, command: Byte, data: seq<Byte>)
    ensures Decode(address, WriteFrame(address, command, data)) == Some((command, data)) <==> |data| <= 0xFFFF
  {
    hide CrcBits, MessageBits, Pec;
    WriteFrameClears(address, command, data);
    var f := WriteFrame(address, command, data);
    assert f[3..|f| - 1] == data && f[1..3] == LenBytes(|data|);
    LengthFits(|data|);
  }

  lemma LengthFits(n: nat)
    ensures LengthOf(LenBytes(n)) == n <==> n <= 0xFFFF
    ensures LengthOf(LenBytes(n)) == n % 0x1_0000
  {
    assert n == 256 * (n / 256) + n % 256;
    assert n / 256 == 256 * (n / 256 / 256) + n / 256 % 256;
  }

  /** A wrong PEC is never understood. */
  lemma WrongPecRejected(address: Address, command: Byte, data: seq<Byte>, badPec: Byte)
    requires badPec != Pec([address * 2] + ([command] + LenBytes(|data|) + data))
    ensures Decode(address, WriteFrame(address, command, data)[|data| + 3 := badPec]) == None
  {
    hide CrcBits, MessageBits, Pec;
    var body := [command] + LenBytes(|data|) + data;
    var f := WriteFrame(address, command, data)[|data| + 3 := badPec];
    assert [address * 2] + f == ([address * 2] + body) + [badPec];
    OnlyPecClears([address * 2] + body, badPec);
  }

  // ---------------------------------------------------------------------
  // Reading a reply
  // ---------------------------------------------------------------------

  /** The bytes from `pos` on, up to `n` of them, and where the target ended the transfer too early. */
  datatype Taken = Taken(bytes: seq<Byte>, early: Option<nat>)

  function Take(rx: nat -> Rx, pos: nat, n: nat, got: seq<Byte>): Taken
    decreases n
  {
    if n == 0 then Taken(got, None)
    else if rx(pos).stop then Taken(got + [rx(pos).byte], Some(pos))
    else Take(rx, pos + 1, n - 1, got + [rx(pos).byte])
  }

  /** `acked` is the answer to the read address; `rx(i)` is the i-th byte the target would send. */
  function ParseReply(address: Address, acked: bool, rx: nat -> Rx): ReadResult {
    if !acked then Nacked
    else
      var len := Take(rx, 0, 2, []);
      if len.early.Some? then ProtocolError(len.early.value)
      else
        TakeLength(rx, 0, 2, []);
        var n := LengthOf(len.bytes);
        var data := Take(rx, 2, n, []);
        if data.early.Some? then ProtocolError(data.early.value)
        else if !rx(2 + n).stop then ProtocolError(2 + n)
        else Received(data.bytes, rx(2 + n).byte == Pec([address * 2 + 1] + len.bytes + data.bytes))
  }

  lemma {:induction false} TakeLength(rx: nat -> Rx, pos: nat, n: nat, got: seq<Byte>)
    ensures Take(rx, pos, n, got).early.None? ==> |Take(rx, pos, n, got).bytes| == |got| + n
    decreases n
  {
    if n > 0 && !rx(pos).stop { TakeLength(rx, pos + 1, n - 1, got + [rx(pos).byte]); }
  }

  /** `released` says whether bus control was given back; a protocol error leaves it taken. */
  method RecoveryRead(address: Address, acked: bool, rx: nat -> Rx, sendStop: bool)
    returns (r: ReadResult, released: bool)
    ensures r == ParseReply(address, acked, rx)
    ensures released == (r.Nacked? || (r.Received? && sendStop))
  {
    if !acked {
      return Nacked, true;
    }
    var lenBytes: seq<Byte> := [];
    var i: nat := 0;
    while i < 2
      invariant 0 <= i <= 2 && |lenBytes| == i
      invariant Take(rx, i, 2 - i, lenBytes) == Take(rx, 0, 2, [])
    {
      lenBytes := lenBytes + [rx(i).byte];
      if rx(i).stop {
        return ProtocolError(i), false;
      }
      i := i + 1;
    }
    var length := LengthOf(lenBytes);
    var data: seq<Byte> := [];
    i := 0;
    while i < length
      invariant 0 <= i <= length
      invariant Take(rx, 2 + i, length - i, data) == Take(rx, 2, length, [])
    {
      data := data + [rx(2 + i).byte];
      if rx(2 + i).stop {
        return ProtocolError(2 + i), false;
      }
      i := i + 1;
    }
    if !rx(2 + length).stop {
      return ProtocolError(2 + length), false;
    }
    var pec := Checksum([address * 2 + 1] + lenBytes + data);
    r := Received(data, rx(2 + length).byte == pec);
    released := sendStop;
  }

  // ---------------------------------------------------------------------
  // Replies
  // ---------------------------------------------------------------------

  /** The bytes a target sends: length, payload and PEC, where only the last one ends the transfer. */
  predicate Sends(rx: nat -> Rx, bytes: seq<Byte>) {
    forall i :: 0 <= i < |bytes| ==> rx(i) == Rx(bytes[i], i == |bytes| - 1)
  }

  function Reply(address: Address, payload: seq<Byte>): seq<Byte> {
    LenBytes(|payload|) + payload + [Pec([address * 2 + 1] + LenBytes(|payload|) + payload)]
  }

  lemma {:induction false} TakesSent(rx: nat -> Rx, bytes: seq<Byte>, pos: nat, n: nat, got: seq<Byte>)
    requires Sends(rx, bytes) && pos + n < |bytes|
    ensures Take(rx, pos, n, got) == Taken(got + bytes[pos..pos + n], None)
    decreases n
  {
    if n == 0 {
      assert got + bytes[pos..pos] == got;
    } else {
      TakesSent(rx, bytes, pos + 1, n - 1, got + [bytes[pos]]);
      assert got + [bytes[pos]] + bytes[pos + 1..pos + n] == got + bytes[pos..pos + n];
    }
  }

  /** What is made of any bytes sent with a length field that fits them. */
  lemma ParsesSent(address: Address, rx: nat -> Rx, len: seq<Byte>, data: seq<Byte>, pec: Byte)
    requires Sends(rx, len + data + [pec]) && |len| == 2 && LengthOf(len) == |data|
    ensures ParseReply(address, true, rx) == Received(data, pec == Pec([address * 2 + 1] + len + data))
  {
    hide Pec;
    var bytes := len + data + [pec];
    TakesSent(rx, bytes, 0, 2, []);
    assert [] + bytes[0..2] == len;
    TakesSent(rx, bytes, 2, |data|, []);
    assert [] + bytes[2..2 + |data|] == data;
    assert bytes[2 + |data|] == pec;
  }

  /** A reply is read back whole and found correct exactly when its payload fits the length field. */
  lemma ReplyRoundTrip(address: Address, payload: seq<Byte>, rx: nat -> Rx)
    requires Sends(rx, Reply(address, payload))
    ensures ParseReply(address, true, rx) == Received(payload, true) <==> |payload| <= 0xFFFF
    ensures |payload| > 0xFFFF ==> ParseReply(address, true, rx) == ProtocolError(2 + |payload| % 0x1_0000)
  {
    hide Pec;
    var len, n := LenBytes(|payload|), |payload| % 0x1_0000;
    LengthFits(|payload|);
    if |payload| <= 0xFFFF {
      ParsesSent(address, rx, len, payload, Pec([address * 2 + 1] + len + payload));
    } else {
      var bytes := Reply(address, payload);
      TakesSent(rx, bytes, 0, 2, []);
      assert [] + bytes[0..2] == len;
      TakesSent(rx, bytes, 2, n, []);
      assert !rx(2 + n).stop;
    }
  }

  /** The codeword the PEC closes: read address, length, payload, PEC. */
  function Codeword(address: Address, data: seq<Byte>, pec: Byte): seq<Byte> {
    [address * 2 + 1] + LenBytes(|data|) + data + [pec]
  }

  /** The flag a read returns is whether address, length, payload and PEC form a codeword. */
  lemma FlagIsCodeword(address: Address, data: seq<Byte>, pec: Byte, rx: nat -> Rx)
    requires |data| <= 0xFFFF && Sends(rx, LenBytes(|data|) + data + [pec])
    ensures ParseReply(address, true, rx) ==
            Received(data, CrcBits(ZERO, MessageBits(Codeword(address, data, pec))) == ZERO)
  {
    hide CrcBits, MessageBits, Pec;
    LengthFits(|data|);
    ParsesSent(address, rx, LenBytes(|data|), data, pec);
    OnlyPecClears([address * 2 + 1] + LenBytes(|data|) + data, pec);
  }

  /** Corruption confined to eight consecutive bits of payload and PEC, across byte borders or not, is noticed. */
  lemma BurstNoticed(address: Address, payload: seq<Byte>, data: seq<Byte>, pec: Byte, rx: nat -> Rx, at: nat)
    requires |data| == |payload| <= 0xFFFF && Sends(rx, LenBytes(|data|) + data + [pec])
    requires var right := Codeword(address, payload, Pec([address * 2 + 1] + LenBytes(|payload|) + payload));
      BurstAt(MessageBits(right), MessageBits(Codeword(address, data, pec)), at)
    ensures ParseReply(address, true, rx) == Received(data, false)
  {
    hide CrcBits, MessageBits, Pec, BurstAt;
    var body := [address * 2 + 1] + LenBytes(|payload|) + payload;
    FlagIsCodeword(address, data, pec, rx);
    PecClears(body);
    BurstDetected(ZERO, MessageBits(body + [Pec(body)]), MessageBits(Codeword(address, data, pec)), at);
  }

  /** An odd number of flipped bits anywhere in payload and PEC is noticed. */
  lemma OddFlipsNoticed(address: Address, payload: seq<Byte>, data: seq<Byte>, pec: Byte, rx: nat -> Rx)
    requires |data| == |payload| <= 0xFFFF && Sends(rx, LenBytes(|data|) + data + [pec])
    requires var right := Codeword(address, payload, Pec([address * 2 + 1] + LenBytes(|payload|) + payload));
      Odd(BitsXor(MessageBits(right), MessageBits(Codeword(address, data, pec))))
    ensures ParseReply(address, true, rx) == Received(data, false)
  {
    hide CrcBits, MessageBits, Pec, Odd;
    var body := [address * 2 + 1] + LenBytes(|payload|) + payload;
    FlagIsCodeword(address, data, pec, rx);
    PecClears(body);
    OddErrorDetected(MessageBits(body + [Pec(body)]), MessageBits(Codeword(address, data, pec)));
  }

  /** Two flipped bits in payload and PEC are noticed exactly when their distance is not a multiple of 127. */
  lemma TwoFlipsNoticedIff(address: Address, payload: seq<Byte>, data: seq<Byte>, pec: Byte, rx: nat -> Rx, p: nat,
                           q: nat)
    requires |data| == |payload| <= 0xFFFF && Sends(rx, LenBytes(|data|) + data + [pec])
    requires var right := Codeword(address, payload, Pec([address * 2 + 1] + LenBytes(|payload|) + payload));
      TwoOnes(BitsXor(MessageBits(right), MessageBits(Codeword(address, data, pec))), p, q)
    ensures ParseReply(address, true, rx) == Received(data, (q - p) % 127 == 0)
  {
    hide CrcBits, MessageBits, Pec, TwoOnes;
    var body := [address * 2 + 1] + LenBytes(|payload|) + payload;
    FlagIsCodeword(address, data, pec, rx);
    PecClears(body);
    TwoFlipsDetectedIff(ZERO, MessageBits(body + [Pec(body)]), MessageBits(Codeword(address, data, pec)), p, q);
  }

  /** Altering one payload byte, or the PEC, is noticed. */
  lemma OneByteNoticed(address: Address, payload: seq<Byte>, k: nat, wrong: Byte, rx: nat -> Rx)
    requires |payload| <= 0xFFFF && k <= |payload|
    requires var pec := Pec([address * 2 + 1] + LenBytes(|payload|) + payload);
      && wrong != (payload + [pec])[k]
      && Sends(rx, LenBytes(|payload|) + (payload + [pec])[k := wrong])
    ensures ParseReply(address, true, rx).Received? && !ParseReply(address, true, rx).pecOk
  {
    hide CrcBits, MessageBits, Pec;
    var head := [address * 2 + 1] + LenBytes(|payload|);
    var pec := Pec(head + payload);
    var sent := (payload + [pec])[k := wrong];
    var data, p := sent[..|payload|], sent[|payload|];
    assert LenBytes(|payload|) + sent == LenBytes(|data|) + data + [p];
    FlagIsCodeword(address, data, p, rx);
    PecClears(head + payload);
    var right := head + payload + [pec];
    assert Codeword(address, data, p) == right[3 + k := wrong];
    ByteIsBurst(right, 3 + k, wrong);
    BurstDetected(ZERO, MessageBits(right), MessageBits(right[3 + k := wrong]), 8 * (3 + k));
  }

  /** Changing one byte changes bits in an eight-bit window only. */
  lemma ByteIsBurst(m: seq<Byte>, k: nat, wrong: Byte)
    requires k < |m| && wrong != m[k]
    ensures BurstAt(MessageBits(m), MessageBits(m[k := wrong]), 8 * k)
  {
    hide ByteBits, MessageBits;
    var a, c := m[..k], m[k + 1..];
    assert m == a + ([m[k]] + c) && m[k := wrong] == a + ([wrong] + c);
    MessageBitsAppend(a, [m[k]] + c);
    MessageBitsAppend(a, [wrong] + c);
    MessageBitsAppend([m[k]], c);
    MessageBitsAppend([wrong], c);
    OneByte(m[k]);
    OneByte(wrong);
    var x, y := MessageBits(m), MessageBits(m[k := wrong]);
    if x == y {
      assert x[8 * k..8 * k + 8] == ByteBits(m[k]) && y[8 * k..8 * k + 8] == ByteBits(wrong);
      ByteBitsInjective(m[k], wrong);
    }
  }
}
