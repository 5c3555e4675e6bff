/**
  What a whole transfer does to the bus however often In-Band Interrupts
  interrupt it: how many are handled, what is sent, when control is released.
 */
module ControllerRetry {
  import opened Wrappers
  import opened ControllerModel

  /** How often the operations that matter occur in a trace. */
  datatype Tally = Tally(takes: nat, gives: nat, ibis: nat, segments: nat, chained: nat)

  function Bump(t: Tally, op: Op): Tally {
    match op
    case TakeBus => t.(takes := t.takes + 1)
    case GiveBus => t.(gives := t.gives + 1)
    case IbiAck(_) => t.(ibis := t.ibis + 1)
    case Header(_, _, chained) => if chained then t.(chained := t.chained + 1) else t.(segments := t.segments + 1)
    case _ => t
  }

  function TallyOf(ops: seq<Op>): Tally {
    if ops == [] then Tally(0, 0, 0, 0, 0)
    else Bump(TallyOf(ops[..|ops| - 1]), ops[|ops| - 1])
  }

  predicate Neutral(op: Op) {
    op.SendStart? || op.SendStop? || op.ArbHeader? || op.SendTbit? || op.SendLegacy? || op.RecvTbit? || op.RecvLegacy?
  }

  lemma TallyEmit(ops: seq<Op>, op: Op)
    ensures TallyOf(ops + [op]) == Bump(TallyOf(ops), op)
  {
    assert (ops + [op])[..|ops|] == ops;
  }

  lemma {:induction false} TallyNeutral(ops: seq<Op>, more: seq<Op>)
    requires forall i :: 0 <= i < |more| ==> Neutral(more[i])
    ensures TallyOf(ops + more) == TallyOf(ops)
  {
    if more == [] {
      assert ops + more == ops;
    } else {
      var init, last := more[..|more| - 1], more[|more| - 1];
      TallyNeutral(ops, init);
      assert ops + more == (ops + init) + [last];
      TallyEmit(ops + init, last);
    }
  }

  lemma TallyEmit3(ops: seq<Op>, a: Op, b: Op, c: Op)
    ensures TallyOf(ops + [a, b, c]) == Bump(Bump(Bump(TallyOf(ops), a), b), c)
  {
    hide TallyOf, Bump;
    var one, two := ops + [a], ops + [a] + [b];
    TallyEmit(ops, a);
    TallyEmit(one, b);
    TallyEmit(two, c);
    assert ops + [a, b, c] == two + [c];
  }

  lemma TallyEmit2(ops: seq<Op>, a: Op, b: Op)
    ensures TallyOf(ops + [a, b]) == Bump(Bump(TallyOf(ops), a), b)
  {
    hide TallyOf, Bump;
    var one := ops + [a];
    TallyEmit(ops, a);
    TallyEmit(one, b);
    assert ops + [a, b] == one + [b];
  }

  // ---------------------------------------------------------------------
  // One IBI
  // ---------------------------------------------------------------------

  function ChainHeaders(t: Tally, n: nat): Tally {
    t.(chained := t.chained + n)
  }

  lemma ChainCccTally(e: Env, s: Ctl, ch: Chain, result: IbiResult)
    requires ch.ccc.Some?
    ensures exists n: nat :: TallyOf(ChainCcc(e, s, ch, result).s.trace) == ChainHeaders(TallyOf(s.trace), n)
  {
    hide TallyOf, Receive;
    var t := TallyOf(s.trace);
    TallyEmit3(s.trace, SendStart, Header(RSVD_ADDR, false, true), SendTbit(ch.ccc.value, false));
    var s1 := EmitAll(s, [SendStart, Header(RSVD_ADDR, false, true), SendTbit(ch.ccc.value, false)]);
    assert TallyOf(s1.trace) == ChainHeaders(t, 1);
    if ch.cccData.None? {
      TallyEmit(s1.trace, SendStop);
    } else if ch.cccAddr.None? {
      TallyNeutral(s1.trace, TbitOps(ch.cccData.value, false));
      TallyEmit(s1.trace + TbitOps(ch.cccData.value, false), SendStop);
    } else {
      var isRead := ch.ccc.value in DIRECTED_GET_CCCS;
      TallyEmit2(s1.trace, SendStart, Header(ch.cccAddr.value, isRead, true));
      var s2 := EmitAll(s1, [SendStart, Header(ch.cccAddr.value, isRead, true)]);
      assert TallyOf(s2.trace) == ChainHeaders(t, 2);
      if isRead {
        ReceiveTally(e, s2, |ch.cccData.value|);
        TallyEmit(Receive(e, s2, |ch.cccData.value|).0.trace, SendStop);
      } else {
        TallyNeutral(s2.trace, TbitOps(ch.cccData.value, false));
        TallyEmit(s2.trace + TbitOps(ch.cccData.value, false), SendStop);
      }
    }
  }

  lemma ReceiveTally(e: Env, s: Ctl, limit: nat)
    ensures TallyOf(Receive(e, s, limit).0.trace) == TallyOf(s.trace)
  {
    TallyEmit(s.trace, RecvTbit(limit, Receive(e, s, limit).1));
  }

  lemma ChainWriteTally(e: Env, s: Ctl, ch: Chain, result: IbiResult)
    requires ch.writeAddr.Some?
    ensures TallyOf(ChainWrite(e, s, ch, result).s.trace) == ChainHeaders(TallyOf(s.trace), 2)
  {
    hide TallyOf;
    TallyEmit3(s.trace, SendStart, Header(RSVD_ADDR, false, true), SendStart);
    var s1 := EmitAll(s, [SendStart, Header(RSVD_ADDR, false, true), SendStart]);
    var op := Header(ch.writeAddr.value, false, true);
    TallyEmit(s1.trace, op);
    var tail := if e.acks(|s1.trace|) && ch.writeData.Some? then TbitOps(ch.writeData.value, false) else [];
    TallyNeutral(s1.trace + [op], tail);
    TallyEmit(s1.trace + [op] + tail, SendStop);
    assert s1.trace + [op] + [] == s1.trace + [op];
  }

  lemma IbiChainTally(e: Env, s: Ctl, ch: Chain, sendStop: bool, result: IbiResult)
    ensures exists n: nat ::
      && TallyOf(IbiChain(e, s, ch, sendStop, result).s.trace) == ChainHeaders(TallyOf(s.trace), n)
      && (ch.ccc.None? && ch.writeAddr.None? ==> n == 0)
    ensures IbiChain(e, s, ch, sendStop, result).s.chain == s.chain
  {
    hide TallyOf;
    if ch.ccc.Some? {
      ChainCccTally(e, s, ch, result);
    } else if ch.writeAddr.Some? {
      ChainWriteTally(e, s, ch, result);
    } else {
      TallyEmit(s.trace, SendStop);
      var t := IbiChain(e, s, ch, sendStop, result).s;
      assert TallyOf(t.trace) == ChainHeaders(TallyOf(s.trace), 0);
    }
  }

  lemma IbiPayloadTally(e: Env, s: Ctl, ch: Chain, addr: Address, ack: bool)
    ensures var s1 := IbiPayload(e, s, ch, addr, ack).0;
      TallyOf(s1.trace) == TallyOf(s.trace) && s1.chain == s.chain
  {
    hide TallyOf;
    ReceiveTally(e, s, (if ch.maxData.Some? then ch.maxData.value else e.maxIbiDataLen) + 1);
  }

  /** Handling an IBI makes one ACK bit, keeps the bus, and uses up the chain. */
  lemma HandleIbiTally(e: Env, s: Ctl, addrByte: Byte, sendStop: bool)
    ensures var h := HandleIbi(e, s, addrByte, sendStop);
      && h.s.chain == NO_CHAIN
      && exists n: nat ::
        && TallyOf(h.s.trace) == ChainHeaders(TallyOf(s.trace), n).(ibis := TallyOf(s.trace).ibis + 1)
        && (s.chain == NO_CHAIN ==> n == 0)
  {
    hide TallyOf, IbiPayload, IbiChain;
    var ch, ack, addr := s.chain, !e.nackIbis(|s.trace|), addrByte / 2;
    var s1 := Emit(s.(chain := NO_CHAIN), IbiAck(ack));
    TallyEmit(s.trace, IbiAck(ack));
    IbiPayloadTally(e, s1, ch, addr, ack);
    var (s2, data) := IbiPayload(e, s1, ch, addr, ack);
    var result := IbiResult(addr, data, ack, None, None);
    IbiChainTally(e, s2, ch, sendStop, result);
    var n: nat :| TallyOf(IbiChain(e, s2, ch, sendStop, result).s.trace) == ChainHeaders(TallyOf(s2.trace), n)
      && (ch.ccc.None? && ch.writeAddr.None? ==> n == 0);
    assert TallyOf(HandleIbi(e, s, addrByte, sendStop).s.trace) ==
           ChainHeaders(TallyOf(s.trace), n).(ibis := TallyOf(s.trace).ibis + 1);
  }

  // ---------------------------------------------------------------------
  // One attempt
  // ---------------------------------------------------------------------

  /** An interrupted attempt has handled one IBI and sent nothing of the transfer. */
  predicate OneIbi(s: Ctl, s1: Ctl) {
    var t, t1 := TallyOf(s.trace), TallyOf(s1.trace);
    && s1.chain == NO_CHAIN
    && t1 == t.(ibis := t.ibis + 1, chained := t1.chained) && t1.chained >= t.chained
    && (s.chain == NO_CHAIN ==> t1.chained == t.chained)
  }

  lemma ArbLost(e: Env, s: Ctl)
    requires AddrHeader(e, s, RSVD_ADDR, false).IbiEvent?
    ensures OneIbi(s, AddrHeader(e, s, RSVD_ADDR, false).s)
  {
    hide SendByteArb, HandleIbi, TallyOf;
    var arb := SendByteArb(e.contenders(|s.trace|), RSVD_WRITE, e.readback);
    ArbitrationBound(e.contenders(|s.trace|), RSVD_WRITE, e.readback);
    var s1 := Emit(s, ArbHeader(arb.ok, arb.busByte));
    TallyEmit(s.trace, ArbHeader(arb.ok, arb.busByte));
    HandleIbiTally(e, s1, arb.busByte, false);
  }

  lemma PayloadTally(e: Env, s: Ctl, req: Req)
    ensures TallyOf(Payload(e, s, req).0.trace) == TallyOf(s.trace) && Payload(e, s, req).0.chain == s.chain
  {
    match req
    case Write(_, data, _, legacy, bad, _) =>
      TallyNeutral(s.trace, LegacyOps(data));
      TallyNeutral(s.trace, TbitOps(data, bad));
    case Read(_, count, _, legacy, _) =>
      ReceiveTally(e, s, count);
      LegacyReadTally(e, s, count, 0, []);
  }

  lemma {:induction false} LegacyReadTally(e: Env, s: Ctl, count: nat, i: nat, got: seq<Byte>)
    requires i <= count
    ensures TallyOf(LegacyRead(e, s, count, i, got).0.trace) == TallyOf(s.trace)
    ensures LegacyRead(e, s, count, i, got).0.chain == s.chain
    decreases count - i
  {
    hide TallyOf;
    if i < count {
      var bs := e.offered(|s.trace|);
      var b := if bs == [] then 0xFF else bs[0];
      TallyEmit(s.trace, RecvLegacy(b, i != count - 1));
      LegacyReadTally(e, Emit(s, RecvLegacy(b, i != count - 1)), count, i + 1, got + [b]);
    }
  }

  /** Own headers that are not arbitrable; only a write to 7E has one that is, like the reserved header itself. */
  function OwnHeaders(req: Req): nat {
    if req.addr == RSVD_ADDR && req.Write? then 0 else 1
  }

  lemma AfterHeaderTally(e: Env, s: Ctl, ack: bool, req: Req)
    ensures var o := AfterHeader(e, s, ack, req);
      o.s.chain == s.chain && TallyOf(o.s.trace) == TallyOf(s.trace).(gives := TallyOf(s.trace).gives + 1)
  {
    hide TallyOf, Payload;
    PayloadTally(e, s, req);
    var s2 := if ack then Payload(e, s, req).0 else s;
    TallyEmit(s2.trace, SendStop);
    var s3 := if req.stop then Emit(s2, SendStop) else s2;
    TallyEmit(s3.trace, GiveBus);
  }

  predicate OneDone(s: Ctl, s1: Ctl, own: nat) {
    var t := TallyOf(s.trace);
    s1.chain == s.chain && TallyOf(s1.trace) == t.(segments := t.segments + own, gives := t.gives + 1)
  }

  /** The transfer's own header and what follows it: once, and the bus is given back once. */
  lemma SegmentTally(e: Env, s: Ctl, req: Req)
    ensures var o := Segment(e, s, req);
      (o.Interrupted? ==> OneIbi(s, o.s)) && (o.Done? ==> OneDone(s, o.s, OwnHeaders(req)))
  {
    hide TallyOf, AfterHeader, OneIbi, SendByteArb, HandleIbi;
    var h := AddrHeader(e, s, req.addr, req.Read?);
    if h.IbiEvent? {
      ArbLost(e, s);
    } else {
      HeaderTally(e, s, req);
      AfterHeaderTally(e, h.s, h.ack, req);
    }
  }

  lemma HeaderTally(e: Env, s: Ctl, req: Req)
    ensures var h, t := AddrHeader(e, s, req.addr, req.Read?), TallyOf(s.trace);
      h.Answered? ==> h.s.chain == s.chain && TallyOf(h.s.trace) == t.(segments := t.segments + OwnHeaders(req))
  {
    hide TallyOf, SendByteArb, HandleIbi;
    TallyEmit(s.trace, Header(req.addr, req.Read?, false));
    WonTally(e, s);
  }

  lemma WonTally(e: Env, s: Ctl)
    ensures var h := AddrHeader(e, s, RSVD_ADDR, false);
      h.Answered? ==> h.s.chain == s.chain && TallyOf(h.s.trace) == TallyOf(s.trace)
  {
    hide TallyOf, SendByteArb, HandleIbi;
    var arb := SendByteArb(e.contenders(|s.trace|), RSVD_WRITE, e.readback);
    ArbitrationBound(e.contenders(|s.trace|), RSVD_WRITE, e.readback);
    TallyEmit(s.trace, ArbHeader(arb.ok, arb.busByte));
  }

  lemma AttemptTally(e: Env, s: Ctl, req: Req)
    ensures var o := Attempt(e, s, req);
      (o.Interrupted? ==> OneIbi(s, o.s)) && (o.Done? ==> OneDone(s, o.s, OwnHeaders(req)))
  {
    hide TallyOf, Segment, AddrHeader;
    TallyEmit(s.trace, SendStart);
    var s1 := Emit(s, SendStart);
    if !req.sendRsvd {
      SegmentTally(e, s1, req);
    } else {
      var h := AddrHeader(e, s1, RSVD_ADDR, false);
      if h.IbiEvent? {
        ArbLost(e, s1);
      } else {
        WonTally(e, s1);
        TallyEmit(h.s.trace, SendStart);
        SegmentTally(e, Emit(h.s, SendStart), req);
      }
    }
  }

  // ---------------------------------------------------------------------
  // The retry loop
  // ---------------------------------------------------------------------

  /** How many attempts in a row an IBI interrupts, at most `left`. */
  function Losses(e: Env, s: Ctl, req: Req, left: nat): (m: nat)
    ensures m <= left
    decreases left
  {
    if left == 0 || Attempt(e, s, req).Done? then 0 else 1 + Losses(e, Attempt(e, s, req).s, req, left - 1)
  }

  lemma {:induction false} RetryTally(e: Env, s: Ctl, req: Req, n: nat)
    requires n <= MAX_IBI_RETRIES
    ensures var r, t, m := Retry(e, s, req, n), TallyOf(s.trace), Losses(e, s, req, MAX_IBI_RETRIES - n);
      && (r.Completed? <==> n + m < MAX_IBI_RETRIES)
      && TallyOf(r.s.trace).ibis == t.ibis + m
      && TallyOf(r.s.trace).gives == t.gives + 1
      && TallyOf(r.s.trace).takes == t.takes
      && TallyOf(r.s.trace).segments == t.segments + (if r.Completed? then OwnHeaders(req) else 0)
      && (s.chain == NO_CHAIN ==> TallyOf(r.s.trace).chained == t.chained)
      && (m == 0 ==> r.s.chain == s.chain)
      && (m > 0 ==> r.s.chain == NO_CHAIN && TallyOf(r.s.trace).chained == TallyOf(Attempt(e, s, req).s.trace).chained)
    decreases MAX_IBI_RETRIES - n
  {
    hide TallyOf, Attempt;
    if n == MAX_IBI_RETRIES {
      TallyEmit(s.trace, GiveBus);
    } else {
      AttemptTally(e, s, req);
      if Attempt(e, s, req).Interrupted? {
        RetryTally(e, Attempt(e, s, req).s, req, n + 1);
      }
    }
  }

  /**
    Bounded retry.  With `m` the number of attempts an IBI interrupts, `m` IBIs
    are handled; the transfer completes and sends its segment once if `m` is
    below ten and raises without sending it otherwise; bus control is taken and
    given back once either way; a configured chain acts on the first IBI only.
   */
  lemma BoundedRetry(e: Env, s: Ctl, req: Req)
    ensures var s0 := Emit(s, TakeBus);
      var r, t, m := Transfer(e, s, req), TallyOf(s.trace), Losses(e, s0, req, 10);
      var u := TallyOf(r.s.trace);
      && (r.Completed? <==> m < 10)
      && u == t.(takes := t.takes + 1, gives := t.gives + 1, ibis := t.ibis + m,
                 segments := t.segments + (if m < 10 then OwnHeaders(req) else 0), chained := u.chained)
      && u.chained == (if m == 0 then t.chained else TallyOf(Attempt(e, s0, req).s.trace).chained)
      && r.s.chain == (if m == 0 then s.chain else NO_CHAIN)
  {
    hide TallyOf, Attempt, Losses, Retry;
    var s0 := Emit(s, TakeBus);
    TallyEmit(s.trace, TakeBus);
    RetryTally(e, s0, req, 0);
    if Losses(e, s0, req, MAX_IBI_RETRIES) == 0 {
      NoLossNoChain(e, s0, req);
    }
  }

  lemma NoLossNoChain(e: Env, s: Ctl, req: Req)
    requires Losses(e, s, req, MAX_IBI_RETRIES) == 0
    ensures TallyOf(Retry(e, s, req, 0).s.trace).chained == TallyOf(s.trace).chained
  {
    hide TallyOf, Attempt;
    AttemptTally(e, s, req);
  }

  // ---------------------------------------------------------------------
  // What the segment carries
  // ---------------------------------------------------------------------

  /** The last header that is not part of a chain, and the bytes that passed since. */
  datatype Sent = Sent(header: Option<Op>, bytes: seq<Byte>)

  function Carried(ops: seq<Op>): Sent {
    if ops == [] then Sent(None, [])
    else
      var before := Carried(ops[..|ops| - 1]);
      var op := ops[|ops| - 1];
      match op
      case Header(_, _, chained) => if chained then before else Sent(Some(op), [])
      case ArbHeader(_, _) => Sent(Some(op), [])
      case SendTbit(b, _) => Then(before, [b])
      case SendLegacy(b) => Then(before, [b])
      case RecvTbit(_, got) => Then(before, got)
      case RecvLegacy(b, _) => Then(before, [b])
      case _ => before
  }

  function Then(s: Sent, bs: seq<Byte>): Sent {
    s.(bytes := s.bytes + bs)
  }

  lemma CarriedEmit(ops: seq<Op>, op: Op)
    ensures op.SendStop? || op.GiveBus? ==> Carried(ops + [op]) == Carried(ops)
    ensures op.ArbHeader? || (op.Header? && !op.chained) ==> Carried(ops + [op]) == Sent(Some(op), [])
    ensures op.SendTbit? || op.SendLegacy? || op.RecvLegacy? ==> Carried(ops + [op]) == Then(Carried(ops), [op.b])
    ensures op.RecvTbit? ==> Carried(ops + [op]) == Then(Carried(ops), op.got)
  {
    assert (ops + [op])[..|ops|] == ops;
  }

  lemma {:induction false} CarriedSends(ops: seq<Op>, more: seq<Op>, bs: seq<Byte>)
    requires |more| == |bs|
    requires forall i :: 0 <= i < |bs| ==> (more[i].SendTbit? || more[i].SendLegacy?) && more[i].b == bs[i]
    ensures Carried(ops + more) == Then(Carried(ops), bs)
  {
    hide Carried;
    if bs == [] {
      assert ops + more == ops;
    } else {
      var n := |bs| - 1;
      CarriedSends(ops, more[..n], bs[..n]);
      assert ops + more == (ops + more[..n]) + [more[n]];
      CarriedEmit(ops + more[..n], more[n]);
      assert bs == bs[..n] + [bs[n]];
    }
  }

  lemma {:induction false} LegacyReadCarries(e: Env, s: Ctl, count: nat, i: nat, got: seq<Byte>)
    requires i <= count && |got| == i && Carried(s.trace).bytes == got
    ensures var (s1, all) := LegacyRead(e, s, count, i, got);
      Carried(s1.trace) == Carried(s.trace).(bytes := all) && |all| == count
    decreases count - i
  {
    hide Carried;
    if i < count {
      var bs := e.offered(|s.trace|);
      var b := if bs == [] then 0xFF else bs[0];
      CarriedEmit(s.trace, RecvLegacy(b, i != count - 1));
      LegacyReadCarries(e, Emit(s, RecvLegacy(b, i != count - 1)), count, i + 1, got + [b]);
    }
  }

  lemma PayloadCarries(e: Env, s: Ctl, req: Req)
    requires Carried(s.trace).bytes == []
    ensures var (s1, got) := Payload(e, s, req);
      && Carried(s1.trace) == Carried(s.trace).(bytes := if req.Write? then req.data else got)
      && (req.Read? ==> |got| <= req.count && (req.legacy ==> |got| == req.count))
  {
    hide Carried;
    match req
    case Write(_, data, _, legacy, bad, _) =>
      CarriedSends(s.trace, LegacyOps(data), data);
      CarriedSends(s.trace, TbitOps(data, bad), data);
      assert [] + data == data;
    case Read(_, count, _, legacy, _) =>
      if legacy {
        LegacyReadCarries(e, s, count, 0, []);
      } else {
        var got := Upto(e.offered(|s.trace|), count);
        CarriedEmit(s.trace, RecvTbit(count, got));
        assert [] + got == got;
      }
  }

  /** The header a request is sent under. */
  function OwnHeader(req: Req): Op {
    if req.addr == RSVD_ADDR && req.Write? then ArbHeader(true, RSVD_WRITE) else Header(req.addr, req.Read?, false)
  }

  predicate CarriesRequest(s: Ctl, req: Req, resp: Resp) {
    var sent := Carried(s.trace);
    && sent.header == Some(OwnHeader(req))
    && (resp.nack ==> sent.bytes == [])
    && (!resp.nack && req.Write? ==> sent.bytes == req.data)
    && (req.Write? ==> resp.WriteResp? && resp.len == |req.data|)
    && (req.Read? ==> resp.ReadResp? && resp.data == sent.bytes && |resp.data| <= req.count)
  }

  lemma SegmentCarries(e: Env, s: Ctl, req: Req)
    ensures var o := Segment(e, s, req);
      o.Done? ==> CarriesRequest(o.s, req, o.resp)
  {
    hide Carried, Payload, SendByteArb, HandleIbi;
    var h := AddrHeader(e, s, req.addr, req.Read?);
    if h.Answered? {
      var arb := SendByteArb(e.contenders(|s.trace|), RSVD_WRITE, e.readback);
      ArbitrationBound(e.contenders(|s.trace|), RSVD_WRITE, e.readback);
      CarriedEmit(s.trace, ArbHeader(arb.ok, arb.busByte));
      CarriedEmit(s.trace, Header(req.addr, req.Read?, false));
      PayloadCarries(e, h.s, req);
      var s2 := if h.ack then Payload(e, h.s, req).0 else h.s;
      CarriedEmit(s2.trace, SendStop);
      var s3 := if req.stop then Emit(s2, SendStop) else s2;
      CarriedEmit(s3.trace, GiveBus);
    }
  }

  lemma {:induction false} RetryCarries(e: Env, s: Ctl, req: Req, n: nat)
    requires n <= MAX_IBI_RETRIES
    ensures var r := Retry(e, s, req, n);
      r.Completed? ==> CarriesRequest(r.s, req, r.resp)
    decreases MAX_IBI_RETRIES - n
  {
    hide CarriesRequest, Segment, AddrHeader;
    if n < MAX_IBI_RETRIES {
      var s1 := Emit(s, SendStart);
      if !req.sendRsvd {
        SegmentCarries(e, s1, req);
      } else {
        var h := AddrHeader(e, s1, RSVD_ADDR, false);
        if h.Answered? { SegmentCarries(e, Emit(h.s, SendStart), req); }
      }
      var o := Attempt(e, s, req);
      if o.Interrupted? { RetryCarries(e, o.s, req, n + 1); }
    }
  }

  /**
    A completed transfer carried exactly the caller's bytes under the caller's
    address, or nothing when its header was refused.
   */
  lemma TransferCarries(e: Env, s: Ctl, req: Req)
    ensures var r := Transfer(e, s, req);
      r.Completed? ==> CarriesRequest(r.s, req, r.resp)
  {
    RetryCarries(e, Emit(s, TakeBus), req, 0);
  }

  /** Without the reserved header nothing is arbitrable and the first attempt completes. */
  lemma NoHeaderNoIbi(e: Env, s: Ctl, req: Req)
    requires !req.sendRsvd && (req.addr != RSVD_ADDR || req.Read?)
    ensures Losses(e, s, req, MAX_IBI_RETRIES) == 0
  {
    hide Payload;
  }

  /** A header is lost, and the attempt with it, when targets at most 0x7D contend for it. */
  lemma ContendedAttemptLost(e: Env, s: Ctl, req: Req, addrs: seq<Address>)
    requires req.sendRsvd && e.readback && addrs != [] && forall k :: 0 <= k < |addrs| ==> addrs[k] <= 0x7D
    requires e.contenders(|s.trace| + 1) == IbiDrivers(addrs)
    ensures var o := Attempt(e, s, req);
      o.Interrupted? && o.s.lastIbi.Some? && o.s.lastIbi.value.addr in addrs &&
      forall k :: 0 <= k < |addrs| ==> o.s.lastIbi.value.addr <= addrs[k]
  {
    hide SendByteArb, IbiPayload, IbiDrivers;
    IbiWinsHeader(addrs);
    var s1 := Emit(s, SendStart);
    assert |s1.trace| == |s.trace| + 1;
    var arb := SendByteArb(IbiDrivers(addrs), RSVD_WRITE, true);
    ArbitrationBound(IbiDrivers(addrs), RSVD_WRITE, true);
    HandledAddr(e, Emit(s1, ArbHeader(arb.ok, arb.busByte)), arb.busByte, false);
  }

  /** An IBI is attributed to the address in the byte, whatever chain follows it. */
  lemma HandledAddr(e: Env, s: Ctl, addrByte: Byte, sendStop: bool)
    ensures var h := HandleIbi(e, s, addrByte, sendStop);
      h.s.lastIbi == Some(h.result) && h.result.addr == addrByte / 2 && h.result.ack == !e.nackIbis(|s.trace|)
  {
    hide IbiPayload, Receive, TbitOps;
  }

  /**
    The payload knobs act once.  With `skipData` set the next IBI is read no
    payload; with `maxData` set it is read at most that many bytes after the
    first, a prefix of what the target offers; and the IBI after it is handled
    as if no knob had been set.
   */
  lemma PayloadKnobsActOnce(e: Env, s: Ctl, addrByte: Byte, sendStop: bool, next: Ctl, nextByte: Byte, nextStop: bool)
    requires next.chain == HandleIbi(e, s, addrByte, sendStop).s.chain
    ensures var data := HandleIbi(e, s, addrByte, sendStop).result.data;
      && (s.chain.skipData ==> data == [])
      && (s.chain.maxData.Some? ==> |data| <= s.chain.maxData.value + 1)
      && data <= e.offered(|s.trace| + 1)
    ensures HandleIbi(e, next, nextByte, nextStop) == HandleIbi(e, next.(chain := NO_CHAIN), nextByte, nextStop)
  {
    hide TallyOf, ChainCcc, ChainWrite;
    HandleIbiTally(e, s, addrByte, sendStop);
    HandledData(e, s, addrByte, sendStop);
    assert next.(chain := NO_CHAIN) == next;
  }

  /** Whatever chain follows, the recorded payload is the one received. */
  lemma HandledData(e: Env, s: Ctl, addrByte: Byte, sendStop: bool)
    ensures var s1 := Emit(s.(chain := NO_CHAIN), IbiAck(!e.nackIbis(|s.trace|)));
      HandleIbi(e, s, addrByte, sendStop).result.data ==
      IbiPayload(e, s1, s.chain, addrByte / 2, !e.nackIbis(|s.trace|)).1
  {
    hide IbiPayload, Receive, TbitOps;
  }
}
