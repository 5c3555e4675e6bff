/**
  The arbitrating I3C controller: what it puts on the bus and what it learns,
  as functions of a state that records every operation in `trace`.  The bus is
  an environment that answers by the number of operations made so far.
 */
module ControllerModel {
  import opened Wrappers
  import opened Bits
  import opened WiredAnd

  const RSVD_ADDR: Address := 0x7E
  const RSVD_WRITE: Byte := 0xFC
  const MAX_IBI_RETRIES: nat := 10

  datatype Op =
    | TakeBus
    | GiveBus
    | SendStart
    | SendStop
    | ArbHeader(won: bool, busByte: Byte)               // 7E/W with bitwise arbitration
    | Header(addr: Address, read: bool, chained: bool)  // not arbitrable
    | IbiAck(ack: bool)
    | SendTbit(b: Byte, badTbit: bool)
    | SendLegacy(b: Byte)
    | RecvTbit(limit: nat, got: seq<Byte>)
    | RecvLegacy(b: Byte, ack: bool)

  /** The one-shot actions to take on the next IBI. */
  datatype Chain = Chain(ccc: Option<Byte>, cccData: Option<seq<Byte>>, cccAddr: Option<Address>,
                         writeAddr: Option<Address>, writeData: Option<seq<Byte>>,
                         skipData: bool, maxData: Option<nat>)

  const NO_CHAIN := Chain(None, None, None, None, None, false, None)

  datatype IbiResult = IbiResult(addr: Address, data: seq<Byte>, ack: bool,
                                 cccResponse: Option<seq<Byte>>, chainWriteAck: Option<bool>)

  datatype Ctl = Ctl(chain: Chain, trace: seq<Op>, lastIbi: Option<IbiResult>, nackCount: nat,
                     gotIbi: Option<seq<Byte>>)

  /** The bus, the targets and the test bench; every function is asked at a time. */
  datatype Env = Env(
    readback: bool,                       // SDA can be sampled
    contenders: nat -> seq<Driver>,       // who else drives an arbitrable header
    acks: nat -> bool,                    // does a header get an ACK
    nackIbis: nat -> bool,                // is the test refusing IBIs
    offered: nat -> seq<Byte>,            // bytes a target has to send
    bcr: map<Address, Byte>,              // targets known by address
    maxIbiDataLen: nat)

  function Emit(s: Ctl, op: Op): Ctl {
    s.(trace := s.trace + [op])
  }

  function EmitAll(s: Ctl, ops: seq<Op>): Ctl {
    s.(trace := s.trace + ops)
  }

  // ---------------------------------------------------------------------
  // Arbitration
  // ---------------------------------------------------------------------

  /** The level while the controller drives `drive`; without readback it believes its own bit. */
  function LevelWith(ds: seq<Driver>, i: nat, drive: Bit, readback: bool): Bit
    requires i < 8
  {
    if !readback || drive == 0 then drive else Level(ds, 8, i)
  }

  /** None of the others drives a zero. */
  predicate NobodyPulls(ds: seq<Driver>, i: nat)
    requires i < 8
  {
    forall k :: 0 <= k < |ds| && ds[k].active ==> MsbBit(ds[k].word, 8, i) == 1
  }

  /** The byte so far, whether arbitration still holds, and who else is driving. */
  datatype Arb = Arb(ok: bool, busByte: nat, others: seq<Driver>)

  /** One bit of `b`; once arbitration is lost the controller only listens. */
  function ArbStep(a: Arb, b: Byte, i: nat, readback: bool): Arb
    requires i < 8
  {
    var bit := MsbBit(b, 8, i);
    var level := if a.ok then LevelWith(a.others, i, bit, readback) else Level(a.others, 8, i);
    Arb(a.ok && !(bit == 1 && level == 0), a.busByte * 2 + level, Settle(a.others, 8, i, level))
  }

  /** The byte from bit `i` on. */
  function ArbFrom(a: Arb, b: Byte, i: nat, readback: bool): Arb
    requires i <= 8
    decreases 8 - i
  {
    if i == 8 then a else ArbFrom(ArbStep(a, b, i, readback), b, i + 1, readback)
  }

  function SendByteArb(ds: seq<Driver>, b: Byte, readback: bool): Arb {
    ArbFrom(Arb(true, 0, ds), b, 0, readback)
  }

  /** After `i` bits the bus shows at most the bits driven, and all of them while arbitration holds. */
  predicate Bounded(a: Arb, b: Byte, i: nat)
    requires i <= 8
  {
    a.busByte <= Shr(b, 8 - i) && (a.ok <==> a.busByte == Shr(b, 8 - i))
  }

  lemma BoundedStep(a: Arb, b: Byte, i: nat, readback: bool)
    requires i < 8 && Bounded(a, b, i)
    ensures Bounded(ArbStep(a, b, i, readback), b, i + 1)
  {
    NextBit(b, 8, i);
    hide Shr, MsbBit, Level, Settle;
  }

  lemma {:induction false} BoundedFrom(a: Arb, b: Byte, i: nat, readback: bool)
    requires i <= 8 && Bounded(a, b, i)
    ensures Bounded(ArbFrom(a, b, i, readback), b, 8)
    decreases 8 - i
  {
    hide ArbStep, Bounded;
    if i < 8 {
      BoundedStep(a, b, i, readback);
      BoundedFrom(ArbStep(a, b, i, readback), b, i + 1, readback);
    }
  }

  /** The bus byte never exceeds the byte driven, and equals it exactly when arbitration was kept. */
  lemma ArbitrationBound(ds: seq<Driver>, b: Byte, readback: bool)
    ensures var r := SendByteArb(ds, b, readback);
      r.busByte <= b && (r.ok <==> r.busByte == b)
  {
    Pow2Small();
    ShrAll(b, 8);
    ShrZero(b);
    hide Shr, ArbFrom;
    BoundedFrom(Arb(true, 0, ds), b, 0, readback);
  }

  /** Somebody is still driving: the controller, or one of the others. */
  predicate Contested(a: Arb) {
    a.ok || exists k :: 0 <= k < |a.others| && a.others[k].active
  }

  lemma ContestedStep(a: Arb, b: Byte, i: nat)
    requires i < 8 && Contested(a)
    ensures Contested(ArbStep(a, b, i, true))
  {
    var ds, r := a.others, ArbStep(a, b, i, true);
    if !r.ok {
      var j: nat;
      if a.ok {
        j :| 0 <= j < |ds| && PullsLow(ds[j], 8, i);
      } else {
        j := LevelIsSomebodys(ds, 8, i);
      }
      assert r.others[j].active;
    }
  }

  /** The race is fair after `i` bits: whoever is left agrees with the bus, and nobody had less. */
  predicate Fair(a: Arb, b: Byte, i: nat)
    requires i <= 8
  {
    AllBackOff(a.others) && Leads(a.others, 8, i, a.busByte) && Contested(a) && Bounded(a, b, i)
  }

  lemma FairStep(a: Arb, b: Byte, i: nat)
    requires i < 8 && Fair(a, b, i)
    ensures Fair(ArbStep(a, b, i, true), b, i + 1)
  {
    hide Bounded, Contested, Leads, AllBackOff, Shr, MsbBit, Settle, Level;
    BoundedStep(a, b, i, true);
    ContestedStep(a, b, i);
    var bit := MsbBit(b, 8, i);
    LeadsStep(a.others, 8, i, a.busByte, if a.ok then LevelWith(a.others, i, bit, true) else Level(a.others, 8, i));
  }

  lemma {:induction false} FairFrom(a: Arb, b: Byte, i: nat)
    requires i <= 8 && Fair(a, b, i)
    ensures var r := ArbFrom(a, b, i, true);
      Fair(r, b, 8) && SameWords(a.others, r.others)
    decreases 8 - i
  {
    hide Fair, ArbStep, SameWords;
    if i < 8 {
      FairStep(a, b, i);
      FairFrom(ArbStep(a, b, i, true), b, i + 1);
      SameWordsStep(a, b, i);
      SameWordsTransitive(a.others, ArbStep(a, b, i, true).others, ArbFrom(a, b, i, true).others);
    } else {
      SameWordsTransitive(a.others, a.others, a.others);
    }
  }

  predicate SameWords(s: seq<Driver>, t: seq<Driver>) {
    |s| == |t| && forall k :: 0 <= k < |s| ==> s[k].word == t[k].word && s[k].joined == t[k].joined
  }

  lemma SameWordsStep(a: Arb, b: Byte, i: nat)
    requires i < 8
    ensures SameWords(a.others, ArbStep(a, b, i, true).others)
  {
  }

  lemma SameWordsTransitive(s: seq<Driver>, t: seq<Driver>, u: seq<Driver>)
    requires SameWords(s, t) || s == t
    requires SameWords(t, u) || t == u
    ensures SameWords(s, u)
  {
  }

  /** Among drivers that back off, the byte read is somebody's, and nobody's is smaller. */
  predicate IsLeast(v: nat, b: Byte, ds: seq<Driver>) {
    && v <= b && (forall k :: 0 <= k < |ds| ==> v <= ds[k].word)
    && (v == b || exists k :: 0 <= k < |ds| && ds[k].word == v)
  }

  lemma ArbitrationLeast(ds: seq<Driver>, b: Byte)
    requires AllBackOff(ds) && forall k :: 0 <= k < |ds| ==> ds[k].joined && ds[k].active && ds[k].word < 256
    ensures IsLeast(SendByteArb(ds, b, true).busByte, b, ds)
  {
    Pow2Small();
    LeadsStart(ds, 8);
    ShrAll(b, 8);
    hide ArbFrom, ArbStep, Pow2;
    var a := Arb(true, 0, ds);
    assert Fair(a, b, 0);
    FairFrom(a, b, 0);
    LeastAtEnd(ds, b, SendByteArb(ds, b, true));
  }

  /** Everybody drives a byte and backs off on losing. */
  predicate Contend(ds: seq<Driver>) {
    AllBackOff(ds) && forall k :: 0 <= k < |ds| ==> ds[k].joined && ds[k].active && ds[k].word < 256
  }

  /** Somebody drives less than `b`. */
  predicate Below(ds: seq<Driver>, b: Byte) {
    exists k :: 0 <= k < |ds| && ds[k].word < b
  }

  /** With readback, arbitration is lost exactly to somebody who drives less. */
  lemma LostIffBelow(ds: seq<Driver>, b: Byte)
    requires Contend(ds)
    ensures !SendByteArb(ds, b, true).ok <==> Below(ds, b)
  {
    hide SendByteArb, AllBackOff;
    ArbitrationLeast(ds, b);
    ArbitrationBound(ds, b, true);
  }

  /** A controller that cannot read the line back believes it has won. */
  lemma BlindAlwaysWins(ds: seq<Driver>, b: Byte)
    ensures SendByteArb(ds, b, false).ok
  {
    BlindFrom(Arb(true, 0, ds), b, 0);
  }

  lemma {:induction false} BlindFrom(a: Arb, b: Byte, i: nat)
    requires i <= 8 && a.ok
    ensures ArbFrom(a, b, i, false).ok
    decreases 8 - i
  {
    hide Settle, Level, MsbBit, Shr;
    if i < 8 { BlindFrom(ArbStep(a, b, i, false), b, i + 1); }
  }

  lemma LeastAtEnd(ds: seq<Driver>, b: Byte, r: Arb)
    requires Fair(r, b, 8) && SameWords(ds, r.others) && forall k :: 0 <= k < |ds| ==> ds[k].joined
    ensures IsLeast(r.busByte, b, ds)
  {
    forall k | 0 <= k < |ds|
      ensures r.busByte <= ds[k].word && (r.others[k].active ==> ds[k].word == r.busByte)
    {
      assert LeadsOne(r.others[k], 8, 8, r.busByte);
    }
  }

  /** A target asking for an IBI sends its address with the read bit. */
  function IbiDriver(addr: Address): Driver {
    Driver(addr * 2 + 1, true, true, true)
  }

  function IbiDrivers(addrs: seq<Address>): seq<Driver> {
    seq(|addrs|, k requires 0 <= k < |addrs| => IbiDriver(addrs[k]))
  }

  /**
    Targets asking for an IBI during 7E/W: the controller always loses, and the
    address on the bus is the lowest of theirs.
   */
  lemma IbiWinsHeader(addrs: seq<Address>)
    requires addrs != [] && forall k :: 0 <= k < |addrs| ==> addrs[k] <= 0x7D
    ensures var r := SendByteArb(IbiDrivers(addrs), RSVD_WRITE, true);
      && !r.ok && r.busByte % 2 == 1
      && r.busByte / 2 in addrs && (forall k :: 0 <= k < |addrs| ==> r.busByte / 2 <= addrs[k])
  {
    hide SendByteArb;
    var ds := IbiDrivers(addrs);
    ArbitrationLeast(ds, RSVD_WRITE);
    ArbitrationBound(ds, RSVD_WRITE, true);
    var v := SendByteArb(ds, RSVD_WRITE, true).busByte;
    assert v <= ds[0].word;
    var k :| 0 <= k < |ds| && ds[k].word == v;
    assert v / 2 == addrs[k];
    forall j | 0 <= j < |addrs| ensures v / 2 <= addrs[j] { assert v <= ds[j].word; }
  }

  /** Listening without driving, from bit `i` on. */
  function HearFrom(ds: seq<Driver>, acc: nat, i: nat): nat
    requires i <= 8
    decreases 8 - i
  {
    if i == 8 then acc else HearFrom(Settle(ds, 8, i, Level(ds, 8, i)), acc * 2 + Level(ds, 8, i), i + 1)
  }

  /** The byte others put on the line, as it is read bit by bit. */
  function Heard(ds: seq<Driver>): nat {
    HearFrom(ds, 0, 0)
  }

  lemma HearNext(ds: seq<Driver>, acc: nat, i: nat)
    requires i < 8
    ensures HearFrom(ds, acc, i) == HearFrom(Settle(ds, 8, i, Level(ds, 8, i)), acc * 2 + Level(ds, 8, i), i + 1)
  {
    hide Settle, Level;
  }

  /** Listening is arbitrating with a released line. */
  lemma {:induction false} HearIsReleased(a: Arb, i: nat)
    requires i <= 8
    ensures HearFrom(a.others, a.busByte, i) == ArbFrom(a, 0xFF, i, true).busByte
    decreases 8 - i
  {
    hide *;
    if i < 8 {
      HearNext(a.others, a.busByte, i);
      ListenStep(a, i);
      HearIsReleased(ArbStep(a, 0xFF, i, true), i + 1);
    } else {
      HearEnd(a);
    }
  }

  lemma HearEnd(a: Arb)
    ensures HearFrom(a.others, a.busByte, 8) == a.busByte && ArbFrom(a, 0xFF, 8, true) == a
  {
  }

  lemma ListenStep(a: Arb, i: nat)
    requires i < 8
    ensures var s, l := ArbStep(a, 0xFF, i, true), Level(a.others, 8, i);
      && s.others == Settle(a.others, 8, i, l) && s.busByte == a.busByte * 2 + l
      && ArbFrom(a, 0xFF, i, true) == ArbFrom(s, 0xFF, i + 1, true)
  {
    AllOnes(i);
    hide Settle, Level, MsbBit, Shr;
  }

  lemma AllOnes(i: nat)
    requires i < 8
    ensures MsbBit(0xFF, 8, i) == 1
  {
    assert Shr(0xFF, 1) == 127 && Shr(0xFF, 2) == 63 && Shr(0xFF, 3) == 31;
    assert Shr(0xFF, 4) == 15 && Shr(0xFF, 5) == 7 && Shr(0xFF, 6) == 3 && Shr(0xFF, 7) == 1;
  }

  /** Of the targets that start an IBI of their own, the lowest address is heard. */
  lemma LowestStarterHeard(addrs: seq<Address>)
    requires addrs != []
    ensures var v := Heard(IbiDrivers(addrs));
      && v < 256 && v % 2 == 1 && v / 2 in addrs && (forall k :: 0 <= k < |addrs| ==> v / 2 <= addrs[k])
  {
    hide SendByteArb, Heard;
    var ds := IbiDrivers(addrs);
    ArbitrationLeast(ds, 0xFF);
    HeardIsArb(ds);
    var v := SendByteArb(ds, 0xFF, true).busByte;
    assert v <= ds[0].word;
    var k :| 0 <= k < |ds| && ds[k].word == v;
    assert v / 2 == addrs[k];
    forall j | 0 <= j < |addrs| ensures v / 2 <= addrs[j] { assert v <= ds[j].word; }
  }

  lemma HeardIsArb(ds: seq<Driver>)
    ensures Heard(ds) == SendByteArb(ds, 0xFF, true).busByte
  {
    HearIsReleased(Arb(true, 0, ds), 0);
  }

  lemma HeardIsByte(ds: seq<Driver>)
    ensures Heard(ds) < 256
  {
    HeardIsArb(ds);
    ArbitrationBound(ds, 0xFF, true);
  }

  /** Nobody else on the line: the header is won. */
  lemma QuietHeaderWon(readback: bool)
    ensures SendByteArb([], RSVD_WRITE, readback).ok
  {
    QuietFrom(Arb(true, 0, []), RSVD_WRITE, 0, readback);
  }

  lemma {:induction false} QuietFrom(a: Arb, b: Byte, i: nat, readback: bool)
    requires i <= 8 && a.ok && a.others == []
    ensures ArbFrom(a, b, i, readback).ok
    decreases 8 - i
  {
    if i < 8 { QuietFrom(ArbStep(a, b, i, readback), b, i + 1, readback); }
  }

  // ---------------------------------------------------------------------
  // In-Band Interrupts
  // ---------------------------------------------------------------------

  const DIRECTED_GET_CCCS: set<int> := {0x8B, 0x8C, 0x8D, 0x8E, 0x8F, 0x90, 0x91, 0x94, 0x95, 0x99}

  function Upto(bs: seq<Byte>, n: nat): seq<Byte> {
    if |bs| <= n then bs else bs[..n]
  }

  function TbitOps(bs: seq<Byte>, bad: bool): seq<Op> {
    seq(|bs|, i requires 0 <= i < |bs| => SendTbit(bs[i], bad))
  }

  datatype Handled = Handled(s: Ctl, result: IbiResult)

  /** Receive until the target ends or `limit` bytes are in. */
  function Receive(e: Env, s: Ctl, limit: nat): (r: (Ctl, seq<Byte>)) {
    var got := Upto(e.offered(|s.trace|), limit);
    (Emit(s, RecvTbit(limit, got)), got)
  }

  function ChainCcc(e: Env, s: Ctl, ch: Chain, result: IbiResult): Handled
    requires ch.ccc.Some?
  {
    var s1 := EmitAll(s, [SendStart, Header(RSVD_ADDR, false, true), SendTbit(ch.ccc.value, false)]);
    if ch.cccData.None? then Handled(Emit(s1, SendStop), result)
    else if ch.cccAddr.None? then Handled(Emit(EmitAll(s1, TbitOps(ch.cccData.value, false)), SendStop), result)
    else
      var isRead := ch.ccc.value in DIRECTED_GET_CCCS;
      var s2 := EmitAll(s1, [SendStart, Header(ch.cccAddr.value, isRead, true)]);
      if isRead then
        var (s3, got) := Receive(e, s2, |ch.cccData.value|);
        Handled(Emit(s3, SendStop), result.(cccResponse := Some(got)))
      else
        Handled(Emit(EmitAll(s2, TbitOps(ch.cccData.value, false)), SendStop), result)
  }

  function ChainWrite(e: Env, s: Ctl, ch: Chain, result: IbiResult): Handled
    requires ch.writeAddr.Some?
  {
    var s1 := EmitAll(s, [SendStart, Header(RSVD_ADDR, false, true), SendStart]);
    var ack := e.acks(|s1.trace|);
    var s2 := Emit(s1, Header(ch.writeAddr.value, false, true));
    var s3 := if ack && ch.writeData.Some? then EmitAll(s2, TbitOps(ch.writeData.value, false)) else s2;
    Handled(Emit(s3, SendStop), result.(chainWriteAck := Some(ack)))
  }

  /** The payload of an accepted IBI, from a target known to send one. */
  function IbiPayload(e: Env, s: Ctl, ch: Chain, addr: Address, ack: bool): (Ctl, seq<Byte>) {
    var maxData := if ch.maxData.Some? then ch.maxData.value else e.maxIbiDataLen;
    if ack && !ch.skipData && addr in e.bcr && (e.bcr[addr] / 4) % 2 == 1 then Receive(e, s, maxData + 1)
    else (s, [])
  }

  function IbiChain(e: Env, s: Ctl, ch: Chain, sendStop: bool, result: IbiResult): Handled {
    if ch.ccc.Some? then ChainCcc(e, s, ch, result)
    else if ch.writeAddr.Some? then ChainWrite(e, s, ch, result)
    else Handled(if sendStop then Emit(s, SendStop) else s, result)
  }

  function HandleIbi(e: Env, s: Ctl, addrByte: Byte, sendStop: bool): Handled {
    var ch, ack, addr := s.chain, !e.nackIbis(|s.trace|), addrByte / 2;
    var s1 := Emit(s.(chain := NO_CHAIN), IbiAck(ack));
    var (s2, data) := IbiPayload(e, s1, ch, addr, ack);
    var h := IbiChain(e, s2, ch, sendStop, IbiResult(addr, data, ack, None, None));
    Handled(h.s.(lastIbi := Some(h.result), nackCount := h.s.nackCount + (if ack then 0 else 1),
                 gotIbi := if ack then Some([addr] + data) else h.s.gotIbi), h.result)
  }

  // ---------------------------------------------------------------------
  // Headers, attempts and retries
  // ---------------------------------------------------------------------

  datatype HeaderOutcome = Answered(s: Ctl, ack: bool) | IbiEvent(s: Ctl)

  function AddrHeader(e: Env, s: Ctl, addr: Address, read: bool): HeaderOutcome {
    if addr == RSVD_ADDR && !read then
      var arb := SendByteArb(e.contenders(|s.trace|), RSVD_WRITE, e.readback);
      ArbitrationBound(e.contenders(|s.trace|), RSVD_WRITE, e.readback);
      var s1 := Emit(s, ArbHeader(arb.ok, arb.busByte));
      if arb.ok then Answered(s1, e.acks(|s1.trace|)) else IbiEvent(HandleIbi(e, s1, arb.busByte, false).s)
    else
      Answered(Emit(s, Header(addr, read, false)), e.acks(|s.trace|))
  }

  datatype Req =
    | Write(addr: Address, data: seq<Byte>, stop: bool, legacy: bool, badTbit: bool, sendRsvd: bool)
    | Read(addr: Address, count: nat, stop: bool, legacy: bool, sendRsvd: bool)

  datatype Resp = WriteResp(nack: bool, len: nat) | ReadResp(nack: bool, data: seq<Byte>)

  function LegacyOps(bs: seq<Byte>): seq<Op> {
    seq(|bs|, i requires 0 <= i < |bs| => SendLegacy(bs[i]))
  }

  /** The `count` bytes a legacy target is clocked for; the last one is not acknowledged. */
  function LegacyRead(e: Env, s: Ctl, count: nat, i: nat, got: seq<Byte>): (Ctl, seq<Byte>)
    requires i <= count
    decreases count - i
  {
    if i == count then (s, got)
    else
      var bs := e.offered(|s.trace|);
      var b := if bs == [] then 0xFF else bs[0];
      LegacyRead(e, Emit(s, RecvLegacy(b, i != count - 1)), count, i + 1, got + [b])
  }

  /** The bytes of an acknowledged transfer. */
  function Payload(e: Env, s: Ctl, req: Req): (Ctl, seq<Byte>) {
    match req
    case Write(_, data, _, legacy, bad, _) =>
      (EmitAll(s, if legacy then LegacyOps(data) else TbitOps(data, bad)), [])
    case Read(_, count, _, legacy, _) =>
      if legacy then LegacyRead(e, s, count, 0, []) else Receive(e, s, count)
  }

  datatype Outcome = Done(s: Ctl, resp: Resp) | Interrupted(s: Ctl)

  /** The transfer's own header was answered: its bytes, the STOP if asked for, and the bus is given back. */
  function AfterHeader(e: Env, s: Ctl, ack: bool, req: Req): (o: Outcome)
    ensures o.Done?
  {
    var (s2, got) := if ack then Payload(e, s, req) else (s, []);
    var s3 := if req.stop then Emit(s2, SendStop) else s2;
    Done(Emit(s3, GiveBus), if req.Write? then WriteResp(!ack, |req.data|) else ReadResp(!ack, got))
  }

  function Segment(e: Env, s: Ctl, req: Req): Outcome {
    match AddrHeader(e, s, req.addr, req.Read?)
    case IbiEvent(s1) => Interrupted(s1)
    case Answered(s1, ack) => AfterHeader(e, s1, ack, req)
  }

  function Attempt(e: Env, s: Ctl, req: Req): Outcome {
    var s1 := Emit(s, SendStart);
    if !req.sendRsvd then Segment(e, s1, req)
    else
      match AddrHeader(e, s1, RSVD_ADDR, false)
      case IbiEvent(s2) => Interrupted(s2)
      case Answered(s2, _) => Segment(e, Emit(s2, SendStart), req)
  }

  datatype Final = Completed(s: Ctl, resp: Resp) | RetriesExceeded(s: Ctl)

  function Retry(e: Env, s: Ctl, req: Req, n: nat): Final
    requires n <= MAX_IBI_RETRIES
    decreases MAX_IBI_RETRIES - n
  {
    if n == MAX_IBI_RETRIES then RetriesExceeded(Emit(s, GiveBus))
    else
      match Attempt(e, s, req)
      case Done(s1, resp) => Completed(s1, resp)
      case Interrupted(s1) => Retry(e, s1, req, n + 1)
  }

  function Transfer(e: Env, s: Ctl, req: Req): Final {
    Retry(e, Emit(s, TakeBus), req, 0)
  }
}
