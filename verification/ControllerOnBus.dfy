/**
  Operation by operation, what the controller puts on the bus: behind an
  In-Band Interrupt, with every chain that can be configured, and in the attempt
  that completes a transfer.
 */
module ControllerOnBus {
  import opened Wrappers
  import opened WiredAnd
  import opened ControllerModel

  /** The bytes, each with a T-bit that is not spoilt. */
  function Bytes(bs: seq<Byte>): seq<Op> {
    seq(|bs|, i requires 0 <= i < |bs| => SendTbit(bs[i], false))
  }

  /** The first `n` bytes, or all of them. */
  predicate IsPrefixOf(got: seq<Byte>, offered: seq<Byte>, n: nat) {
    got <= offered && |got| == (if |offered| < n then |offered| else n)
  }

  // ---------------------------------------------------------------------
  // The answer and the payload
  // ---------------------------------------------------------------------

  /** The test lets the IBI through, wants its payload, and bit 2 of the target's BCR promises one. */
  predicate WantsPayload(e: Env, s: Ctl, addr: Address) {
    && !e.nackIbis(|s.trace|) && !s.chain.skipData
    && addr in e.bcr && (e.bcr[addr] / 4) % 2 == 1
  }

  /** The mandatory byte and the payload behind it. */
  function PayloadLimit(e: Env, s: Ctl): nat {
    1 + if s.chain.maxData.Some? then s.chain.maxData.value else e.maxIbiDataLen
  }

  /** The trace once an IBI has been answered and its payload `data` has been read. */
  function AnsweredTrace(e: Env, s: Ctl, addrByte: Byte, data: seq<Byte>): seq<Op> {
    (s.trace + [IbiAck(!e.nackIbis(|s.trace|))]) +
    if WantsPayload(e, s, addrByte / 2) then [RecvTbit(PayloadLimit(e, s), data)] else []
  }

  lemma ChainStart(e: Env, s: Ctl, addrByte: Byte, sendStop: bool) returns (s2: Ctl, data: seq<Byte>)
    ensures s2.trace == AnsweredTrace(e, s, addrByte, data)
    ensures if WantsPayload(e, s, addrByte / 2) then IsPrefixOf(data, e.offered(|s.trace| + 1), PayloadLimit(e, s))
            else data == []
    ensures s2 == s.(chain := NO_CHAIN, trace := s2.trace)
    ensures var ack, addr := !e.nackIbis(|s.trace|), addrByte / 2;
      var h, c := HandleIbi(e, s, addrByte, sendStop),
                  IbiChain(e, s2, s.chain, sendStop, IbiResult(addr, data, ack, None, None));
      && h.s == c.s.(lastIbi := Some(c.result), nackCount := c.s.nackCount + (if ack then 0 else 1),
                     gotIbi := if ack then Some([addr] + data) else c.s.gotIbi)
      && h.result == c.result
  {
    hide IbiChain;
    var ack, addr := !e.nackIbis(|s.trace|), addrByte / 2;
    var s1 := Emit(s.(chain := NO_CHAIN), IbiAck(ack));
    var p := IbiPayload(e, s1, s.chain, addr, ack);
    s2, data := p.0, p.1;
  }

  /**
    The payload of an IBI is read exactly when the IBI is acknowledged, the test
    does not skip it and the target's BCR promises one: then it is what the
    target offers, cut behind the mandatory byte and as many bytes as allowed.
   */
  lemma PayloadReadIff(e: Env, s: Ctl, addrByte: Byte, sendStop: bool)
    ensures var h, addr := HandleIbi(e, s, addrByte, sendStop), addrByte / 2;
      && AnsweredTrace(e, s, addrByte, h.result.data) <= h.s.trace
      && (if WantsPayload(e, s, addr) then IsPrefixOf(h.result.data, e.offered(|s.trace| + 1), PayloadLimit(e, s))
          else h.result.data == [])
  {
    hide WantsPayload, AnsweredTrace, IsPrefixOf, HandleIbi, Receive, TbitOps;
    var s2, data := ChainStart(e, s, addrByte, sendStop);
    ChainExtends(e, s2, s.chain, sendStop, IbiResult(addrByte / 2, data, !e.nackIbis(|s.trace|), None, None));
  }

  lemma ChainExtends(e: Env, s: Ctl, ch: Chain, sendStop: bool, result: IbiResult)
    ensures var h := IbiChain(e, s, ch, sendStop, result);
      s.trace <= h.s.trace && h.result.data == result.data && h.result.addr == result.addr && h.result.ack == result.ack
      && h.s == s.(trace := h.s.trace)
  {
    hide Upto, TbitOps;
  }

  /** The books: who interrupted, whether it was let through, what it said, and the chain used up. */
  lemma IbiRecorded(e: Env, s: Ctl, addrByte: Byte, sendStop: bool)
    ensures var h, ack, addr := HandleIbi(e, s, addrByte, sendStop), !e.nackIbis(|s.trace|), addrByte / 2;
      && h.result.addr == addr && h.result.ack == ack && h.s.lastIbi == Some(h.result)
      && h.s.nackCount == s.nackCount + (if ack then 0 else 1)
      && h.s.gotIbi == (if ack then Some([addr] + h.result.data) else s.gotIbi)
      && h.s.chain == Chain(None, None, None, None, None, false, None)
  {
    hide WantsPayload, AnsweredTrace, IsPrefixOf, HandleIbi, Receive, TbitOps;
    var s2, data := ChainStart(e, s, addrByte, sendStop);
    ChainExtends(e, s2, s.chain, sendStop, IbiResult(addrByte / 2, data, !e.nackIbis(|s.trace|), None, None));
  }

  // ---------------------------------------------------------------------
  // Chains
  // ---------------------------------------------------------------------

  /** Without a chain the bus sees a STOP if one is asked for, and nothing else. */
  lemma UnchainedOnBus(e: Env, s: Ctl, addrByte: Byte, sendStop: bool)
    requires s.chain.ccc.None? && s.chain.writeAddr.None?
    ensures var h := HandleIbi(e, s, addrByte, sendStop);
      && h.s.trace == AnsweredTrace(e, s, addrByte, h.result.data) + (if sendStop then [SendStop] else [])
      && h.result.cccResponse.None? && h.result.chainWriteAck.None?
  {
    hide WantsPayload, AnsweredTrace, IsPrefixOf, HandleIbi;
    var s2, data := ChainStart(e, s, addrByte, sendStop);
  }

  /** A chained broadcast: 7E/W, the command, its data if any, STOP. */
  lemma BroadcastChainOnBus(e: Env, s: Ctl, addrByte: Byte, sendStop: bool)
    requires s.chain.ccc.Some? && (s.chain.cccData.None? || s.chain.cccAddr.None?)
    ensures var h, ch := HandleIbi(e, s, addrByte, sendStop), s.chain;
      && h.s.trace == AnsweredTrace(e, s, addrByte, h.result.data) +
                      ([SendStart, Header(0x7E, false, true), SendTbit(ch.ccc.value, false)] +
                       (Bytes(if ch.cccData.Some? then ch.cccData.value else []) + [SendStop]))
      && h.result.cccResponse.None? && h.result.chainWriteAck.None?
  {
    hide WantsPayload, AnsweredTrace, IsPrefixOf, HandleIbi;
    var s2, data := ChainStart(e, s, addrByte, sendStop);
  }

  /** The commands that read from the target they are directed to. */
  predicate IsDirectGet(code: Byte) {
    code == 0x8B || code == 0x8C || code == 0x8D || code == 0x8E || code == 0x8F || code == 0x90 ||
    code == 0x91 || code == 0x94 || code == 0x95 || code == 0x99
  }

  /** A chained direct SET: 7E/W, the command, Repeated START, the target written, its data, STOP. */
  lemma SetChainOnBus(e: Env, s: Ctl, addrByte: Byte, sendStop: bool)
    requires s.chain.ccc.Some? && s.chain.cccData.Some? && s.chain.cccAddr.Some? && !IsDirectGet(s.chain.ccc.value)
    ensures var h, ch := HandleIbi(e, s, addrByte, sendStop), s.chain;
      && h.s.trace == AnsweredTrace(e, s, addrByte, h.result.data) +
                      ([SendStart, Header(0x7E, false, true), SendTbit(ch.ccc.value, false),
                        SendStart, Header(ch.cccAddr.value, false, true)] +
                       (Bytes(ch.cccData.value) + [SendStop]))
      && h.result.cccResponse.None? && h.result.chainWriteAck.None?
  {
    hide WantsPayload, AnsweredTrace, IsPrefixOf, HandleIbi;
    var s2, data := ChainStart(e, s, addrByte, sendStop);
  }

  /**
    A chained direct GET: 7E/W, the command, Repeated START, the target read,
    STOP.  What is recorded as the response is what the target has to send, up
    to as many bytes as the chain's data is long.
   */
  lemma GetChainOnBus(e: Env, s: Ctl, addrByte: Byte, sendStop: bool)
    requires s.chain.ccc.Some? && s.chain.cccData.Some? && s.chain.cccAddr.Some? && IsDirectGet(s.chain.ccc.value)
    ensures var h, ch := HandleIbi(e, s, addrByte, sendStop), s.chain;
      var pre := AnsweredTrace(e, s, addrByte, h.result.data);
      && h.result.cccResponse.Some? && h.result.chainWriteAck.None?
      && IsPrefixOf(h.result.cccResponse.value, e.offered(|pre| + 5), |ch.cccData.value|)
      && h.s.trace == pre + [SendStart, Header(0x7E, false, true), SendTbit(ch.ccc.value, false),
                             SendStart, Header(ch.cccAddr.value, true, true),
                             RecvTbit(|ch.cccData.value|, h.result.cccResponse.value), SendStop]
  {
    hide WantsPayload, AnsweredTrace, HandleIbi;
    var s2, data := ChainStart(e, s, addrByte, sendStop);
  }

  /** A chained write: 7E/W, Repeated START, the target written, its data if it acknowledges, STOP. */
  lemma WriteChainOnBus(e: Env, s: Ctl, addrByte: Byte, sendStop: bool)
    requires s.chain.ccc.None? && s.chain.writeAddr.Some?
    ensures var h, ch := HandleIbi(e, s, addrByte, sendStop), s.chain;
      var pre := AnsweredTrace(e, s, addrByte, h.result.data);
      var ack := e.acks(|pre| + 3);
      && h.result.cccResponse.None? && h.result.chainWriteAck == Some(ack)
      && h.s.trace == pre + ([SendStart, Header(0x7E, false, true),
                              SendStart, Header(ch.writeAddr.value, false, true)] +
                             (Bytes(if ack && ch.writeData.Some? then ch.writeData.value else []) + [SendStop]))
  {
    hide WantsPayload, AnsweredTrace, IsPrefixOf, HandleIbi;
    var s2, data := ChainStart(e, s, addrByte, sendStop);
  }

  // ---------------------------------------------------------------------
  // The attempt that completes a transfer
  // ---------------------------------------------------------------------

  /** The header of the transfer: 7E/W is arbitrable and was won, any other is sent as it is. */
  function OwnHeader(addr: Address, read: bool): Op {
    if addr == 0x7E && !read then ArbHeader(true, 0xFC) else Header(addr, read, false)
  }

  /** START, the reserved header with a Repeated START if it is asked for, and the transfer's own header. */
  function OpeningOps(addr: Address, read: bool, sendRsvd: bool): seq<Op> {
    (if sendRsvd then [SendStart, ArbHeader(true, 0xFC), SendStart] else [SendStart]) + [OwnHeader(addr, read)]
  }

  /** What an acknowledged write sends. */
  function WriteOps(data: seq<Byte>, legacy: bool, badTbit: bool): seq<Op> {
    seq(|data|, i requires 0 <= i < |data| => if legacy then SendLegacy(data[i]) else SendTbit(data[i], badTbit))
  }

  /**
    What an acknowledged read receives: one run up to the target's end, or
    single bytes, all but the last acknowledged.
   */
  function ReadOps(data: seq<Byte>, count: nat, legacy: bool): seq<Op> {
    if legacy then seq(|data|, i requires 0 <= i < |data| => RecvLegacy(data[i], i + 1 < count))
    else [RecvTbit(count, data)]
  }

  function ClosingOps(stop: bool): seq<Op> {
    if stop then [SendStop, GiveBus] else [GiveBus]
  }

  /** The bytes a target offers when it is asked `n` times in a row, one at a time; a silent line reads as 0xFF. */
  predicate AreOffered(e: Env, from: nat, data: seq<Byte>) {
    forall i :: 0 <= i < |data| ==>
      data[i] == if e.offered(from + i) == [] then 0xFF else e.offered(from + i)[0]
  }

  /** Bytes `from` onwards of `count`. */
  function SingleReads(data: seq<Byte>, from: nat, count: nat): seq<Op> {
    seq(|data|, i requires 0 <= i < |data| => RecvLegacy(data[i], from + i + 1 < count))
  }

  lemma SingleReadsStep(b: Byte, data: seq<Byte>, from: nat, count: nat)
    ensures SingleReads([b] + data, from, count) ==
            [RecvLegacy(b, from + 1 < count)] + SingleReads(data, from + 1, count)
  {
  }

  lemma {:induction false} LegacyReadOps(e: Env, s: Ctl, count: nat, i: nat, got: seq<Byte>) returns (more: seq<Byte>)
    requires i <= count
    ensures var r := LegacyRead(e, s, count, i, got);
      && r.1 == got + more && |more| == count - i
      && r.0 == s.(trace := s.trace + SingleReads(more, i, count))
      && AreOffered(e, |s.trace|, more)
    decreases count - i
  {
    hide AreOffered, SingleReads;
    if i < count {
      var bs := e.offered(|s.trace|);
      var b := if bs == [] then 0xFF else bs[0];
      var op := RecvLegacy(b, i != count - 1);
      var rest := LegacyReadOps(e, Emit(s, op), count, i + 1, got + [b]);
      more := [b] + rest;
      SingleReadsStep(b, rest, i, count);
      LaterOffered(e, |s.trace|, b, rest);
      assert s.trace + SingleReads(more, i, count) == (s.trace + [op]) + SingleReads(rest, i + 1, count);
      assert got + more == (got + [b]) + rest;
    } else {
      more := [];
      NoSingleReads(e, s, i, count);
      assert got + more == got;
    }
  }

  lemma NoSingleReads(e: Env, s: Ctl, from: nat, count: nat)
    ensures s.trace + SingleReads([], from, count) == s.trace && AreOffered(e, |s.trace|, [])
  {
  }

  lemma LaterOffered(e: Env, from: nat, b: Byte, data: seq<Byte>)
    requires AreOffered(e, from + 1, data) && b == if e.offered(from) == [] then 0xFF else e.offered(from)[0]
    ensures AreOffered(e, from, [b] + data)
  {
    forall i | 0 <= i < |[b] + data|
      ensures ([b] + data)[i] == if e.offered(from + i) == [] then 0xFF else e.offered(from + i)[0]
    {
      if i > 0 { assert ([b] + data)[i] == data[i - 1] && from + i == from + 1 + (i - 1); }
    }
  }

  /** The payload of an acknowledged transfer, and what it returns. */
  function PayloadOps(req: Req, resp: Resp): seq<Op> {
    match req
    case Write(_, data, _, legacy, bad, _) => WriteOps(data, legacy, bad)
    case Read(_, count, _, legacy, _) => if resp.ReadResp? then ReadOps(resp.data, count, legacy) else []
  }

  predicate ReadsWhatIsOffered(e: Env, from: nat, req: Req, resp: Resp) {
    req.Read? && !resp.nack ==>
      && resp.ReadResp?
      && if req.legacy then |resp.data| == req.count && AreOffered(e, from, resp.data)
         else IsPrefixOf(resp.data, e.offered(from), req.count)
  }

  lemma PayloadOnBus(e: Env, s: Ctl, req: Req)
    ensures var p := Payload(e, s, req);
      && p.0 == s.(trace := p.0.trace)
      && p.0.trace == s.trace + PayloadOps(req, ReadResp(false, p.1))
      && ReadsWhatIsOffered(e, |s.trace|, req, ReadResp(false, p.1))
  {
    match req
    case Write(_, data, _, legacy, bad, _) =>
      assert WriteOps(data, legacy, bad) == if legacy then LegacyOps(data) else TbitOps(data, bad);
    case Read(_, count, _, legacy, _) =>
      if legacy {
        var more := LegacyReadOps(e, s, count, 0, []);
        assert [] + more == more;
        assert ReadOps(more, count, true) == SingleReads(more, 0, count);
      }
  }

  /** What follows an own header that was answered with `ack`. */
  lemma AfterHeaderOnBus(e: Env, s: Ctl, ack: bool, req: Req)
    ensures var o := AfterHeader(e, s, ack, req);
      && o.s.trace == s.trace + ((if ack then PayloadOps(req, o.resp) else []) + ClosingOps(req.stop))
      && o.resp.nack == !ack && ReadsWhatIsOffered(e, |s.trace|, req, o.resp)
      && (req.Write? ==> o.resp == WriteResp(!ack, |req.data|))
      && (req.Read? ==> o.resp.ReadResp? && (!ack ==> o.resp.data == []))
  {
    hide Payload, ReadOps, WriteOps, AreOffered, IsPrefixOf;
    PayloadOnBus(e, s, req);
    var p := if ack then Payload(e, s, req) else (s, []);
    var o := AfterHeader(e, s, ack, req);
    if ack {
      assert PayloadOps(req, o.resp) == PayloadOps(req, ReadResp(false, p.1));
    }
    assert o.s.trace == p.0.trace + ClosingOps(req.stop);
    assert p.0.trace == s.trace + (if ack then PayloadOps(req, o.resp) else []);
  }

  lemma WonHeader(e: Env, s: Ctl, addr: Address, read: bool)
    ensures var h := AddrHeader(e, s, addr, read);
      && (h.Answered? ==> h.s == Emit(s, OwnHeader(addr, read)))
      && (h.Answered? ==> h.ack == e.acks(|s.trace| + if addr == 0x7E && !read then 1 else 0))
  {
    hide SendByteArb, HandleIbi;
    var arb := SendByteArb(e.contenders(|s.trace|), RSVD_WRITE, e.readback);
    ArbitrationBound(e.contenders(|s.trace|), RSVD_WRITE, e.readback);
  }

  /**
    An attempt that is not interrupted, operation by operation: the headers, the
    payload if the transfer's own header is acknowledged, the STOP if asked for,
    and the bus given back.
   */
  lemma AttemptOnBus(e: Env, s: Ctl, req: Req)
    requires Attempt(e, s, req).Done?
    ensures var o, open := Attempt(e, s, req), OpeningOps(req.addr, req.Read?, req.sendRsvd);
      && o.s.trace == s.trace + (open + ((if o.resp.nack then [] else PayloadOps(req, o.resp)) + ClosingOps(req.stop)))
      && ReadsWhatIsOffered(e, |s.trace| + |open|, req, o.resp)
      && (req.Write? ==> o.resp == WriteResp(o.resp.nack, |req.data|))
      && (req.Read? ==> o.resp.ReadResp? && (o.resp.nack ==> o.resp.data == []))
  {
    hide AfterHeader, AddrHeader, PayloadOps, ReadsWhatIsOffered, ClosingOps, OwnHeader;
    var s1 := Emit(s, SendStart);
    WonHeader(e, s1, 0x7E, false);
    var s2 := if req.sendRsvd then Emit(AddrHeader(e, s1, RSVD_ADDR, false).s, SendStart) else s1;
    WonHeader(e, s2, req.addr, req.Read?);
    var h := AddrHeader(e, s2, req.addr, req.Read?);
    RsvdIsOwn();
    assert h.s.trace == s.trace + OpeningOps(req.addr, req.Read?, req.sendRsvd);
    AfterHeaderOnBus(e, h.s, h.ack, req);
  }

  lemma RsvdIsOwn()
    ensures OwnHeader(0x7E, false) == ArbHeader(true, 0xFC)
  {
  }

  lemma {:induction false} LastAttempt(e: Env, s: Ctl, req: Req, n: nat) returns (s1: Ctl)
    requires n <= MAX_IBI_RETRIES && Retry(e, s, req, n).Completed?
    ensures var r, o := Retry(e, s, req, n), Attempt(e, s1, req); o.Done? && r.s == o.s && r.resp == o.resp
    decreases MAX_IBI_RETRIES - n
  {
    hide Attempt;
    var o := Attempt(e, s, req);
    if o.Done? {
      s1 := s;
    } else {
      s1 := LastAttempt(e, o.s, req, n + 1);
    }
  }

  /** However often it was interrupted, a completed transfer ends with its whole attempt on the bus. */
  lemma TransferOnBus(e: Env, s: Ctl, req: Req)
    requires Transfer(e, s, req).Completed?
    ensures var r, open := Transfer(e, s, req), OpeningOps(req.addr, req.Read?, req.sendRsvd);
      exists pre: seq<Op> ::
        && r.s.trace == pre + (open + ((if r.resp.nack then [] else PayloadOps(req, r.resp)) + ClosingOps(req.stop)))
        && ReadsWhatIsOffered(e, |pre| + |open|, req, r.resp)
  {
    hide Attempt, PayloadOps, ReadsWhatIsOffered, ClosingOps, OpeningOps;
    var s1 := LastAttempt(e, Emit(s, TakeBus), req, 0);
    AttemptOnBus(e, s1, req);
  }
}
