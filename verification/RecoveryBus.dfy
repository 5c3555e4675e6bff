/**
  A recovery command on the bus: the transfer that carries its frame, and what
  an IBI in the headers before it does.
 */
module RecoveryBus {
  import opened Wrappers
  import opened ControllerModel
  import opened ControllerRetry
  import C = Controller
  import Crc8
  import R = Recovery

  /** `Lost` is the exception of a 7E/W header lost to an IBI, which nothing in the command catches. */
  datatype CommandEnd = Through(s: Ctl, ack: bool) | Lost(s: Ctl)

  function Headers(e: Env, s: Ctl, address: Address, start: bool): HeaderOutcome {
    var s0 := if start then Emit(s, TakeBus) else s;
    match AddrHeader(e, Emit(s0, SendStart), RSVD_ADDR, false)
    case IbiEvent(s1) => IbiEvent(s1)
    case Answered(s1, _) => AddrHeader(e, Emit(s1, SendStart), address, false)
  }

  function SendCommand(e: Env, s: Ctl, address: Address, frame: seq<Byte>, start: bool, stop: bool): CommandEnd {
    match Headers(e, s, address, start)
    case IbiEvent(s1) => Lost(s1)
    case Answered(s1, ack) =>
      var s2 := if ack then EmitAll(s1, TbitOps(frame, false)) else s1;
      Through(if stop then Emit(Emit(s2, SendStop), GiveBus) else s2, ack)
  }

  class I3cRecoveryInterface {
    const controller: C.I3cController

    constructor (controller: C.I3cController)
      ensures this.controller == controller
    {
      this.controller := controller;
    }

    method CommandWrite(address: Address, command: Byte, data: seq<Byte>, forcePecError: bool, badPec: Byte,
                        start: bool, stop: bool)
      returns (raised: bool, ack: bool)
      modifies controller
      ensures var frame := R.InjectedFrame(address, command, data, forcePecError, badPec);
        var r := SendCommand(controller.env, old(controller.State()), address, frame, start, stop);
        && raised == r.Lost? && controller.State() == r.s && (r.Through? ==> ack == r.ack)
    {
      hide AddrHeader, Crc8.Pec;
      var xfer: seq<Byte> := [command, |data| % 256, |data| / 256 % 256];
      xfer := xfer + data;
      assert xfer == [command] + R.LenBytes(|data|) + data;
      var pec := Crc8.Checksum([address * 2] + xfer);
      if forcePecError {
        pec := badPec;
      }
      xfer := xfer + [pec];
      assert xfer == R.InjectedFrame(address, command, data, forcePecError, badPec);
      if start {
        controller.Do(TakeBus);
      }
      controller.Do(SendStart);
      raised, ack := controller.WriteAddrHeader(RSVD_ADDR, false);
      if raised { return; }
      controller.Do(SendStart);
      raised, ack := controller.WriteAddrHeader(address, false);
      if raised { return; }
      if ack {
        controller.SendBytesTbit(xfer, false);
      }
      if stop {
        controller.Do(SendStop);
        controller.Do(GiveBus);
      }
    }
  }

  // ---------------------------------------------------------------------
  // What a command does to the bus
  // ---------------------------------------------------------------------

  lemma HeadersTally(e: Env, s: Ctl, address: Address, start: bool)
    ensures var h, t := Headers(e, s, address, start), TallyOf(s.trace);
      var u, taken := TallyOf(h.s.trace), t.takes + if start then 1 else 0;
      && (h.Answered? ==> u == t.(takes := taken, segments := u.segments))
      && (h.IbiEvent? ==> u == t.(takes := taken, ibis := t.ibis + 1, chained := u.chained))
  {
    hide TallyOf, AddrHeader;
    TallyEmit(s.trace, TakeBus);
    var s0 := if start then Emit(s, TakeBus) else s;
    TallyEmit(s0.trace, SendStart);
    var s1 := Emit(s0, SendStart);
    OneHeader(e, s1, RSVD_ADDR);
    var h := AddrHeader(e, s1, RSVD_ADDR, false);
    if h.Answered? {
      TallyEmit(h.s.trace, SendStart);
      OneHeader(e, Emit(h.s, SendStart), address);
    }
  }

  lemma OneHeader(e: Env, s: Ctl, addr: Address)
    ensures var h, t := AddrHeader(e, s, addr, false), TallyOf(s.trace);
      var u := TallyOf(h.s.trace);
      && (h.Answered? ==> u == t.(segments := if addr == RSVD_ADDR then t.segments else t.segments + 1))
      && (h.IbiEvent? ==> u == t.(ibis := t.ibis + 1, chained := u.chained))
  {
    hide TallyOf, SendByteArb, HandleIbi;
    TallyEmit(s.trace, Header(addr, false, false));
    WonTally(e, s);
    if AddrHeader(e, s, addr, false).IbiEvent? { ArbLost(e, s); }
  }

  /**
    A command that is sent gives the bus back exactly when it ends with a STOP;
    one that is lost to an IBI has handled that IBI and never gives it back.
   */
  lemma CommandTally(e: Env, s: Ctl, address: Address, frame: seq<Byte>, start: bool, stop: bool)
    ensures var r, t := SendCommand(e, s, address, frame, start, stop), TallyOf(s.trace);
      var u, taken := TallyOf(r.s.trace), t.takes + if start then 1 else 0;
      if r.Through?
      then u == t.(takes := taken, gives := t.gives + (if stop then 1 else 0), segments := u.segments)
      else u == t.(takes := taken, ibis := t.ibis + 1, chained := u.chained)
  {
    hide TallyOf, Headers;
    HeadersTally(e, s, address, start);
    var h := Headers(e, s, address, start);
    if h.Answered? {
      TallyNeutral(h.s.trace, TbitOps(frame, false));
      var s2 := if h.ack then EmitAll(h.s, TbitOps(frame, false)) else h.s;
      TallyEmit(s2.trace, SendStop);
      TallyEmit(Emit(s2, SendStop).trace, GiveBus);
    }
  }

  /** What reaches the target after its header is the whole frame, or nothing if the header is refused. */
  lemma CommandCarries(e: Env, s: Ctl, address: Address, frame: seq<Byte>, start: bool, stop: bool)
    ensures var r := SendCommand(e, s, address, frame, start, stop);
      r.Through? ==>
        && Carried(r.s.trace).bytes == (if r.ack then frame else [])
        && (address != RSVD_ADDR ==> Carried(r.s.trace).header == Some(Header(address, false, false)))
  {
    hide Carried, SendByteArb, HandleIbi;
    var h := Headers(e, s, address, start);
    if h.Answered? {
      LastHeader(e, s, address, start);
      CarriedSends(h.s.trace, TbitOps(frame, false), frame);
      assert [] + frame == frame;
      var s2 := if h.ack then EmitAll(h.s, TbitOps(frame, false)) else h.s;
      CarriedEmit(s2.trace, SendStop);
      CarriedEmit(Emit(s2, SendStop).trace, GiveBus);
    }
  }

  lemma LastHeader(e: Env, s: Ctl, address: Address, start: bool)
    requires Headers(e, s, address, start).Answered?
    ensures var c := Carried(Headers(e, s, address, start).s.trace);
      c.bytes == [] && (address != RSVD_ADDR ==> c.header == Some(Header(address, false, false)))
  {
    hide Carried, SendByteArb, HandleIbi;
    var s0 := if start then Emit(s, TakeBus) else s;
    var h := AddrHeader(e, Emit(s0, SendStart), RSVD_ADDR, false);
    var s1 := Emit(h.s, SendStart);
    var arb := SendByteArb(e.contenders(|s1.trace|), RSVD_WRITE, e.readback);
    ArbitrationBound(e.contenders(|s1.trace|), RSVD_WRITE, e.readback);
    CarriedEmit(s1.trace, ArbHeader(arb.ok, arb.busByte));
    CarriedEmit(s1.trace, Header(address, false, false));
  }

  /**
    End to end: unless error injection is on, what an acknowledged command
    carries is decoded by length and PEC into that command and payload exactly
    when the payload has at most 65535 bytes; with a wrong PEC it never is.
   */
  lemma CommandReachesTarget(e: Env, s: Ctl, address: Address, command: Byte, data: seq<Byte>, forcePecError: bool,
                             badPec: Byte, start: bool, stop: bool)
    ensures var frame := R.InjectedFrame(address, command, data, forcePecError, badPec);
      var r, right := SendCommand(e, s, address, frame, start, stop), R.WriteFrame(address, command, data);
      r.Through? && r.ack ==>
        (R.Decode(address, Carried(r.s.trace).bytes) == Some((command, data)) <==>
         |data| <= 0xFFFF && (forcePecError ==> badPec == right[|right| - 1]))
  {
    hide SendCommand, Carried, R.Decode, R.WriteFrame;
    var frame := R.InjectedFrame(address, command, data, forcePecError, badPec);
    CommandCarries(e, s, address, frame, start, stop);
    InjectedDecodes(address, command, data, forcePecError, badPec);
  }

  lemma InjectedDecodes(address: Address, command: Byte, data: seq<Byte>, forcePecError: bool, badPec: Byte)
    ensures var right := R.WriteFrame(address, command, data);
      R.Decode(address, R.InjectedFrame(address, command, data, forcePecError, badPec)) == Some((command, data)) <==>
      |data| <= 0xFFFF && (forcePecError ==> badPec == right[|right| - 1])
  {
    hide R.Decode, Crc8.Pec;
    var right := R.WriteFrame(address, command, data);
    R.WriteRoundTrip(address, command, data);
    assert |right| == |data| + 4;
    if forcePecError && badPec != right[|right| - 1] {
      R.WrongPecRejected(address, command, data, badPec);
    } else {
      assert right[|right| - 1 := right[|right| - 1]] == right;
    }
  }
}
