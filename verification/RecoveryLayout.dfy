/**
  Recovery frames byte by byte: where the command, the length, the payload and
  the PEC stand, and which replies are taken.
 */
module RecoveryLayout {
  import opened Wrappers
  import opened Bits
  import opened Crc8
  import opened CrcRemainder
  import opened Recovery

  /**
    A command frame: the command, the payload's length with its low byte first,
    the payload, and the one last byte that makes it, behind the write address,
    a multiple of the polynomial.
   */
  lemma FrameLayout(address: Address, command: Byte, data: seq<Byte>)
    ensures var f := WriteFrame(address, command, data);
      && |f| == |data| + 4 && f[0] == command && f[1] == |data| % 256 && f[2] == |data| / 256 % 256
      && f[3..|data| + 3] == data
      && forall p: Byte :: IsMultiple(MessageBits([2 * address] + f[..|data| + 3] + [p])) <==> p == f[|data| + 3]
  {
    hide Pec, MessageBits, IsMultiple;
    var f := WriteFrame(address, command, data);
    var body := [command] + LenBytes(|data|) + data;
    assert f[..|data| + 3] == body;
    forall p: Byte ensures IsMultiple(MessageBits([2 * address] + f[..|data| + 3] + [p])) <==> p == f[|data| + 3] {
      PecMakesMultiple([address * 2] + body, p);
    }
  }

  /** Error injection replaces the last byte and nothing else. */
  lemma InjectionLayout(address: Address, command: Byte, data: seq<Byte>, badPec: Byte)
    ensures var f, g := WriteFrame(address, command, data), InjectedFrame(address, command, data, true, badPec);
      && |g| == |f| && g[..|f| - 1] == f[..|f| - 1] && g[|f| - 1] == badPec
      && InjectedFrame(address, command, data, false, badPec) == f
  {
    hide Pec;
  }

  /** The command phase of a read: the command and its PEC behind the write address. */
  lemma ReadCommandLayout(address: Address, command: Byte)
    ensures var f := ReadCommandFrame(address, command);
      && |f| == 2 && f[0] == command
      && forall p: Byte :: IsMultiple(MessageBits([2 * address, command] + [p])) <==> p == f[1]
  {
    hide Pec, MessageBits, IsMultiple;
    forall p: Byte ensures IsMultiple(MessageBits([2 * address, command] + [p])) <==> p == Pec([address * 2, command]) {
      PecMakesMultiple([2 * address, command], p);
    }
  }

  // ---------------------------------------------------------------------
  // Replies
  // ---------------------------------------------------------------------

  function BytesFrom(rx: nat -> Rx, pos: nat, n: nat): (bytes: seq<Byte>)
    ensures |bytes| == n
  {
    seq<Byte>(n, i requires 0 <= i < n => rx(pos + i).byte)
  }

  /** Up to but excluding byte `i` the target goes on. */
  predicate GoesOn(rx: nat -> Rx, from: nat, i: nat) {
    forall j: nat :: from <= j < i ==> !rx(j).stop
  }

  lemma {:induction false} TakeIs(rx: nat -> Rx, pos: nat, n: nat, got: seq<Byte>)
    ensures var t := Take(rx, pos, n, got);
      && (t.early.None? <==> GoesOn(rx, pos, pos + n))
      && (t.early.None? ==> t.bytes == got + BytesFrom(rx, pos, n))
      && (t.early.Some? ==> pos <= t.early.value < pos + n && rx(t.early.value).stop && GoesOn(rx, pos, t.early.value))
    decreases n
  {
    if n == 0 {
      assert got + BytesFrom(rx, pos, 0) == got;
    } else if !rx(pos).stop {
      TakeIs(rx, pos + 1, n - 1, got + [rx(pos).byte]);
      assert BytesFrom(rx, pos, n) == [rx(pos).byte] + BytesFrom(rx, pos + 1, n - 1);
    }
  }

  /** The length a reply announces, low byte first. */
  function Announced(rx: nat -> Rx): nat {
    rx(0).byte + 256 * rx(1).byte
  }

  /** Byte `at` is the first that breaks the protocol: an early end in length or payload, or none behind the PEC. */
  predicate FirstWrong(rx: nat -> Rx, at: nat) {
    && GoesOn(rx, 0, at)
    && if at < 2 then rx(at).stop
       else if at < 2 + Announced(rx) then rx(at).stop
       else at == 2 + Announced(rx) && !rx(at).stop
  }

  /**
    A reply to an acknowledged read, told by its bytes.  It is taken exactly when
    the target goes on through length and payload and ends with the PEC; the
    data are then the announced number of bytes behind the length, and the flag
    is true exactly when everything received, behind the read address, is a
    multiple of the polynomial.  Otherwise the first wrong byte is reported.
   */
  lemma ReplyIs(address: Address, rx: nat -> Rx)
    ensures var r, n := ParseReply(address, true, rx), Announced(rx);
      && (r.Received? <==> GoesOn(rx, 0, 2 + n) && rx(2 + n).stop)
      && (r.Received? ==> r.data == BytesFrom(rx, 2, n))
      && (r.Received? ==> (r.pecOk <==> IsMultiple(MessageBits([2 * address + 1] + BytesFrom(rx, 0, 3 + n)))))
      && (!r.Received? ==> r.ProtocolError? && FirstWrong(rx, r.at))
  {
    hide Pec, MessageBits, IsMultiple, Take, ParseReply, BytesFrom, Announced;
    var len := Take(rx, 0, 2, []);
    TakeIs(rx, 0, 2, []);
    ReplyCases(address, rx);
    if len.early.None? {
      var n := Announced(rx);
      TwoLength(rx, len.bytes);
      TakeIs(rx, 2, n, []);
      Nothing(BytesFrom(rx, 2, n));
      Received3(address, rx, n);
    } else {
      EarlyLength(rx, len.early.value, Announced(rx));
    }
  }

  lemma Nothing(bytes: seq<Byte>)
    ensures [] + bytes == bytes
  {
  }

  lemma EarlyLength(rx: nat -> Rx, at: nat, n: nat)
    requires at < 2 && rx(at).stop && GoesOn(rx, 0, at)
    ensures FirstWrong(rx, at) && !GoesOn(rx, 0, 2 + n)
  {
  }

  /** The reply in terms of what the receive loops take. */
  lemma ReplyCases(address: Address, rx: nat -> Rx)
    ensures var r, len := ParseReply(address, true, rx), Take(rx, 0, 2, []);
      && (len.early.Some? ==> r == ProtocolError(len.early.value))
      && (len.early.None? ==>
            && |len.bytes| == 2
            && var n := LengthOf(len.bytes);
               var data := Take(rx, 2, n, []);
               && (data.early.Some? ==> r == ProtocolError(data.early.value))
               && (data.early.None? && !rx(2 + n).stop ==> r == ProtocolError(2 + n))
               && (data.early.None? && rx(2 + n).stop ==>
                     r == Received(data.bytes,
                                   rx(2 + n).byte == Pec([address * 2 + 1] + len.bytes + data.bytes))))
  {
    hide Pec, Take;
    TakeLength(rx, 0, 2, []);
  }

  lemma Received3(address: Address, rx: nat -> Rx, n: nat)
    ensures rx(2 + n).byte == Pec([address * 2 + 1] + BytesFrom(rx, 0, 2) + BytesFrom(rx, 2, n)) <==>
            IsMultiple(MessageBits([2 * address + 1] + BytesFrom(rx, 0, 3 + n)))
  {
    hide Pec, MessageBits, IsMultiple;
    var m := [address * 2 + 1] + BytesFrom(rx, 0, 2) + BytesFrom(rx, 2, n);
    PecMakesMultiple(m, rx(2 + n).byte);
    assert [2 * address + 1] + BytesFrom(rx, 0, 3 + n) == m + [rx(2 + n).byte];
  }

  lemma TwoLength(rx: nat -> Rx, bytes: seq<Byte>)
    requires bytes == [] + BytesFrom(rx, 0, 2)
    ensures bytes == BytesFrom(rx, 0, 2) && LengthOf(bytes) == Announced(rx)
  {
  }

  /** A read that is not acknowledged returns nothing. */
  lemma RefusedReply(address: Address, rx: nat -> Rx)
    ensures ParseReply(address, false, rx) == Nacked
  {
  }
}
