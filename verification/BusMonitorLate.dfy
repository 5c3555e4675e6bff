/**
  Deadlines on the wires: a DUT that does not let go within 12 ns of a T-bit, of
  the last identity bit of an ENTDAA round or of the ACK of a write, or does not
  take over within 12 ns of the ACK of its IBI, ends the run at the first sample
  behind the deadline.
 */
module BusMonitorLate {
  import opened Wrappers
  import opened Bits
  import opened BusMonitorModel
  import opened BusMonitorInvariants
  import opened BusMonitorRuns
  import opened BusMonitorDecode
  import opened BusMonitorFrames
  import opened BusMonitorIbi
  import opened BusMonitorConduct
  import opened BusMonitorTransfers
  import opened BusMonitorArbitration

  /** `high[j]` is the first sample of the clock 12 ns behind its rise or later, and is defined. */
  predicate FirstLate(k: Clk, j: nat) {
    && j < |k.high| && k.high[j].Defined() && k.high[j].now >= k.rise.now + 12.0
    && forall i :: 0 <= i < j ==> k.high[i].now < k.rise.now + 12.0
  }

  /** The clock up to and including that sample. */
  function UpTo(k: Clk, j: nat): seq<Sample>
    requires j < |k.high|
  {
    k.low + ([k.rise] + (k.high[..j] + [k.high[j]]))
  }

  /** What the rise has left pending is due 12 ns behind it. */
  predicate Pends(d: Deadlines, k: Clk) {
    && (d.handoffTime.Some? ==> d.handoffTime == Some(k.rise.now + 12.0))
    && (d.takeoverTime.Some? ==> d.takeoverTime == Some(k.rise.now + 12.0))
  }

  /** Before the deadline nothing happens. */
  lemma {:induction false} EarlyHighs(c: Core, d: Deadlines, k: Clk, ss: seq<Sample>)
    requires Pends(d, k) && c.prevScl == 1 && IsHigh(ss, c.prevSda)
    requires forall i :: 0 <= i < |ss| ==> ss[i].now < k.rise.now + 12.0
    ensures FirstRaise(c, d, Clocks(ss), {}) == None && DeadlineRun(d, c, ss) == d && CoreRun(c, ss) == c
    decreases ss
  {
    hide OnStart, OnStop, OnHdrExit, OnRise, OnFall, RaisedBy, DeadlineStep;
    if ss != [] {
      EarlyHigh(c, d, k, ss[0]);
      EarlyHighs(c, d, k, ss[1..]);
      assert Clocks(ss)[1..] == Clocks(ss[1..]);
    }
  }

  lemma EarlyHigh(c: Core, d: Deadlines, k: Clk, s: Sample)
    requires Pends(d, k) && c.prevScl == 1 && (s.Defined() ==> At(s, 1, c.prevSda)) && s.now < k.rise.now + 12.0
    ensures RaisedBy(c, d, s, {}) == None && DeadlineStep(d, c, s) == d && CoreStep(c, s) == c
  {
    hide OnStart, OnStop, OnHdrExit, OnRise, OnFall;
  }

  /** At the deadline the checks are made. */
  lemma LateSample(c: Core, d: Deadlines, k: Clk, s: Sample)
    requires Pends(d, k) && c.prevScl == 1 && At(s, 1, c.prevSda) && s.now >= k.rise.now + 12.0
    ensures RaisedBy(c, d, s, {}) ==
            if d.handoffTime.Some? && s.dut.oe == Some(1) then Some(d.handoffId)
            else if d.takeoverTime.Some? && !(s.dut.oe == Some(1) && s.dut.odPp == Some(1)) then Some(IBI_ACK_HANDOFF)
            else None
  {
    hide OnFall;
  }

  lemma RiseLeaves(c: Core, d: Deadlines, s: Sample, b: Bit)
    requires c.prevScl == 0 && c.phase != HDR_MODE && At(s, 1, b) && NonePending(d)
    requires RiseChecks(c.phase, c.bitCount, c.hdr, c.ccc.entdaaBits, b, s.dut, {}) == None
    ensures RaisedBy(c, d, s, {}) == None
    ensures DeadlineStep(d, c, s) == Schedule(d, c.phase, c.hdr, c.ccc.entdaaBits, b, s.now)
  {
    hide RiseChecks;
  }

  lemma ScheduledPends(c: Core, d: Deadlines, k: Clk, b: Bit)
    requires NonePending(d)
    ensures Pends(Schedule(d, c.phase, c.hdr, c.ccc.entdaaBits, b, k.rise.now), k)
  {
  }

  lemma LowKeeps(c: Core, d: Deadlines, low: seq<Sample>)
    requires NonePending(d) && c.prevScl == 0 && IsLow(low)
    ensures DeadlineRun(d, c, low) == d
    decreases low
  {
    hide OnStart, OnStop, OnHdrExit, OnRise, OnFall, RaisedBy;
    if low != [] { LowKeeps(CoreStep(c, low[0]), DeadlineStep(d, c, low[0]), low[1..]); }
  }

  /**
    After a clean stretch, a clock whose rise is in order: what the first sample
    behind the deadline raises is what the rise has scheduled and the DUT has
    not done.
   */
  lemma DeadlineMet(c: Core, d: Deadlines, pre: seq<Sample>, k: Clk, b: Bit, j: nat)
    requires Clean(c, d, pre) && Carries(k, b) && FirstLate(k, j)
    requires var e := CoreRun(c, pre);
      && e.prevScl == 0 && e.phase != HDR_MODE
      && RiseChecks(e.phase, e.bitCount, e.hdr, e.ccc.entdaaBits, b, k.rise.dut, {}) == None
    ensures var e := CoreRun(c, pre);
      var p, late := Schedule(DeadlineRun(d, c, pre), e.phase, e.hdr, e.ccc.entdaaBits, b, k.rise.now), k.high[j].dut;
      FirstRaise(c, d, Clocks(pre + UpTo(k, j)), {}) ==
      if p.handoffTime.Some? && late.oe == Some(1) then Some(p.handoffId)
      else if p.takeoverTime.Some? && !(late.oe == Some(1) && late.odPp == Some(1)) then Some(IBI_ACK_HANDOFF)
      else None
  {
    hide CoreRun, DeadlineRun, FirstRaise, RaisedBy, IsLow, NonePending, RiseChecks, Schedule, CoreStep, DeadlineStep,
         OnRise, Pends;
    CleanEndsIdle(c, d, pre);
    CleanIsQuiet(c, d, pre);
    var e, f := CoreRun(c, pre), DeadlineRun(d, c, pre);
    SamplesRaise(c, d, pre, UpTo(k, j));
    LowClean(e, f, k.low);
    CleanIsQuiet(e, f, k.low);
    LowRun(e, k.low);
    LowKeeps(e, f, k.low);
    var e1 := CoreRun(e, k.low);
    var rest := k.high[..j] + [k.high[j]];
    SamplesRaise(e, f, k.low, [k.rise] + rest);
    RiseLeaves(e1, f, k.rise, b);
    RiseState(e1, k.rise, b);
    RisePrev(e1, k.rise, b);
    OneRaise(e1, f, k.rise, {});
    SampleAlone(f, e1, k.rise);
    SamplesRaise(e1, f, [k.rise], rest);
    var e2, p := CoreStep(e1, k.rise), DeadlineStep(f, e1, k.rise);
    ScheduledPends(e, f, k, b);
    EarlyHighs(e2, p, k, k.high[..j]);
    SamplesRaise(e2, p, k.high[..j], [k.high[j]]);
    OneRaise(e2, p, k.high[j], {});
    LateSample(e2, p, k, k.high[j]);
  }

  lemma RisePrev(c: Core, s: Sample, b: Bit)
    requires CoreStep(c, s) == OnRise(c, b, s.dut.Driving()).(prevScl := 1, prevSda := b)
    ensures CoreStep(c, s).prevScl == 1 && CoreStep(c, s).prevSda == b
  {
    hide OnRise, CoreStep;
  }

  // ---------------------------------------------------------------------
  // T-bits
  // ---------------------------------------------------------------------

  lemma TbitChecks(e: Core, d: Deadlines, b: Bit, k: Clk)
    requires e.phase in {READ_TBIT, IBI_DATA_TBIT} && e.hdr.isAddressed && Pushes(k.rise.dut, b) && NonePending(d)
    ensures RiseChecks(e.phase, e.bitCount, e.hdr, e.ccc.entdaaBits, b, k.rise.dut, {}) == None
    ensures var p := Schedule(d, e.phase, e.hdr, e.ccc.entdaaBits, b, k.rise.now);
      p == d.(handoffTime := Some(k.rise.now + 12.0), handoffAddr := e.hdr.addrAccum, handoffId := READ_TBIT_RELEASE)
  {
  }

  lemma TbitState(c: Core, e: Core, v: Byte)
    requires OwnByteStart(c) && c.phase == READ_DATA && InByte(c, e, v, 8)
    ensures e.phase == READ_TBIT && e.hdr == c.hdr && e.prevScl == 0
  {
    hide Shr;
  }

  lemma OwnByteIsByte(c: Core)
    requires OwnByteStart(c)
    ensures ByteStart(c)
  {
  }

  /**
    The T-bit behind a read byte: a DUT that still drives at the first sample
    12 ns behind its rise ends the run with READ_TBIT_RELEASE, and one that does
    not drive there passes.
   */
  lemma HeldTbitRaised(c: Core, d: Deadlines, ks: seq<Clk>, v: Byte, tbit: Clk, b: Bit, j: nat)
    requires OwnByteStart(c) && c.phase == READ_DATA && c.hdr.isAddressed && NonePending(d)
    requires CarriesByte(ks, v) && SendsByte(ks)
    requires Carries(tbit, b) && Pushes(tbit.rise.dut, b) && FirstLate(tbit, j)
    ensures FirstRaise(c, d, Clocks(Flat(ks[..8]) + UpTo(tbit, j)), {}) ==
            if tbit.high[j].dut.oe == Some(1) then Some(READ_TBIT_RELEASE) else None
  {
    hide BitAt, CoreRun, DeadlineRun, Clean, FirstRaise, IsLow, IsHigh, SendsByte, InByte, NonePending, RiseChecks,
         Schedule, OwnByteStart, Pushes, UpTo, FirstLate, Carries;
    OwnByteIsByte(c);
    ByteBitsClean(c, d, ks, v, 8);
    DataBits(c, ks, v, 8);
    CleanEndsIdle(c, d, Flat(ks[..8]));
    TbitState(c, CoreRun(c, Flat(ks[..8])), v);
    TbitChecks(CoreRun(c, Flat(ks[..8])), DeadlineRun(d, c, Flat(ks[..8])), b, tbit);
    NoTakeoverPending(DeadlineRun(d, c, Flat(ks[..8])));
    DeadlineMet(c, d, Flat(ks[..8]), tbit, b, j);
  }

  lemma NoTakeoverPending(d: Deadlines)
    requires NonePending(d)
    ensures d.takeoverTime == None && d.handoffTime == None
  {
  }

  /** So it is behind every byte of an IBI. */
  lemma HeldIbiTbitRaised(c: Core, d: Deadlines, ks: seq<Clk>, v: Byte, tbit: Clk, b: Bit, j: nat)
    requires IbiByteStart(c) && c.hdr.isAddressed && NonePending(d)
    requires CarriesByte(ks, v) && SendsByte(ks)
    requires Carries(tbit, b) && Pushes(tbit.rise.dut, b) && FirstLate(tbit, j)
    ensures FirstRaise(c, d, Clocks(Flat(ks[..8]) + UpTo(tbit, j)), {}) ==
            if tbit.high[j].dut.oe == Some(1) then Some(READ_TBIT_RELEASE) else None
  {
    hide BitAt, CoreRun, DeadlineRun, Clean, FirstRaise, IsLow, IsHigh, SendsByte, NonePending, RiseChecks, Schedule,
         Pushes, UpTo, FirstLate, Carries;
    IbiBitsClean(c, d, ks, v, 8);
    IbiBits(c, ks, v, 8);
    CleanEndsIdle(c, d, Flat(ks[..8]));
    TbitChecks(CoreRun(c, Flat(ks[..8])), DeadlineRun(d, c, Flat(ks[..8])), b, tbit);
    NoTakeoverPending(DeadlineRun(d, c, Flat(ks[..8])));
    DeadlineMet(c, d, Flat(ks[..8]), tbit, b, j);
  }

  // ---------------------------------------------------------------------
  // The last identity bit
  // ---------------------------------------------------------------------

  lemma IdentityChecks(e: Core, d: Deadlines, b: Bit, k: Clk)
    requires e.phase == ENTDAA && e.ccc.entdaaBits == 63 && OpenDrainOnly(k.rise.dut) && NonePending(d)
    ensures RiseChecks(e.phase, e.bitCount, e.hdr, e.ccc.entdaaBits, b, k.rise.dut, {}) == None
    ensures Schedule(d, e.phase, e.hdr, e.ccc.entdaaBits, b, k.rise.now) ==
            d.(handoffTime := Some(k.rise.now + 12.0), handoffAddr := 0x7E, handoffId := ENTDAA_DA_HANDOFF)
  {
  }

  /** A DUT that still drives 12 ns behind the rise of its 64th identity bit ends the run with ENTDAA_DA_HANDOFF. */
  lemma HeldIdentityRaised(c: Core, d: Deadlines, ks: seq<Clk>, last: Clk, b: Bit, j: nat)
    requires InRound(c, c, 0) && NonePending(d) && CarriesBits(ks) && IdentityConduct(ks)
    requires Carries(last, b) && OpenDrainOnly(last.rise.dut) && FirstLate(last, j)
    ensures FirstRaise(c, d, Clocks(Flat(ks[..63]) + UpTo(last, j)), {}) ==
            if last.high[j].dut.oe == Some(1) then Some(ENTDAA_DA_HANDOFF) else None
  {
    hide CoreRun, DeadlineRun, Clean, FirstRaise, IsLow, IsHigh, NonePending, RiseChecks, Schedule, OpenDrainOnly, UpTo,
         FirstLate, Carries, CarriesBits, IdentityConduct;
    assert |ks| == 73 by { RoundLength(ks); }
    IdentityClean(c, d, ks, 63);
    IdentityRun(c, ks, 63);
    CleanEndsIdle(c, d, Flat(ks[..63]));
    IdentityChecks(CoreRun(c, Flat(ks[..63])), DeadlineRun(d, c, Flat(ks[..63])), b, last);
    NoTakeoverPending(DeadlineRun(d, c, Flat(ks[..63])));
    DeadlineMet(c, d, Flat(ks[..63]), last, b, j);
  }

  lemma RoundLength(ks: seq<Clk>)
    requires IdentityConduct(ks)
    ensures |ks| == 73
  {
  }

  // ---------------------------------------------------------------------
  // ACKs
  // ---------------------------------------------------------------------

  lemma WriteAckChecks(e: Core, d: Deadlines, k: Clk)
    requires e.phase == ADDR_ACK && e.hdr.rnw == 0 && (e.hdr.isAddressed || e.hdr.isBroadcast)
    requires OpenDrainOnly(k.rise.dut) && NonePending(d)
    ensures RiseChecks(e.phase, e.bitCount, e.hdr, e.ccc.entdaaBits, 0, k.rise.dut, {}) == None
    ensures Schedule(d, e.phase, e.hdr, e.ccc.entdaaBits, 0, k.rise.now) ==
            d.(handoffTime := Some(k.rise.now + 12.0), handoffAddr := e.hdr.addrAccum)
  {
  }

  /**
    The ACK of a write to the DUT or to everybody: a DUT that still drives 12 ns
    behind its rise ends the run, under the name the monitor last gave to a
    release.
   */
  lemma HeldAckRaised(c: Core, d: Deadlines, ks: seq<Clk>, addr: Address, ack: Clk, j: nat)
    requires HeaderStart(c) && CarriesHeader(ks, addr, false) && NonePending(d)
    requires (c.own.dut == Some(addr) || c.own.virt == Some(addr) || addr == 0x7E)
    requires forall i :: 0 <= i < 8 ==> SilentClk(ks[i])
    requires Carries(ack, 0) && OpenDrainOnly(ack.rise.dut) && FirstLate(ack, j)
    ensures FirstRaise(c, d, Clocks(Flat(ks[..8]) + UpTo(ack, j)), {}) ==
            if ack.high[j].dut.oe == Some(1) then Some(DeadlineRun(d, c, Flat(ks[..8])).handoffId) else None
  {
    hide BitAt, CoreRun, DeadlineRun, Clean, FirstRaise, IsLow, IsHigh, NonePending, RiseChecks, Schedule,
         OpenDrainOnly, UpTo, FirstLate, Carries, SilentClk, HeaderStart;
    HeaderBitsClean(c, d, ks, addr, false, 8);
    HeaderDecoded(c, ks, addr, false);
    CleanEndsIdle(c, d, Flat(ks[..8]));
    WriteAckChecks(CoreRun(c, Flat(ks[..8])), DeadlineRun(d, c, Flat(ks[..8])), ack);
    NoTakeoverPending(DeadlineRun(d, c, Flat(ks[..8])));
    DeadlineMet(c, d, Flat(ks[..8]), ack, 0, j);
  }

  lemma IbiAckChecks(e: Core, d: Deadlines, b: Bit, k: Clk)
    requires e.phase == IBI_ADDR_ACK && OpenDrainOnly(k.rise.dut) && NonePending(d)
    ensures RiseChecks(e.phase, e.bitCount, e.hdr, e.ccc.entdaaBits, b, k.rise.dut, {}) == None
    ensures Schedule(d, e.phase, e.hdr, e.ccc.entdaaBits, b, k.rise.now) ==
            if b == 0 then d.(takeoverTime := Some(k.rise.now + 12.0), takeoverAddr := e.hdr.addrAccum) else d
  {
  }

  /**
    The ACK of an IBI: if it is given, a DUT that does not drive push-pull 12 ns
    behind its rise ends the run with IBI_ACK_HANDOFF; if it is refused, nothing
    is asked of it.
   */
  lemma MissedTakeoverRaised(c: Core, d: Deadlines, ks: seq<Clk>, addr: Address, ack: Clk, b: Bit, j: nat)
    requires HeaderStart(c) && c.hdr.dutDroveAddr == Some(false) && !c.hdr.isSr && NonePending(d)
    requires |ks| == 9 && CarriesAddress(ks, addr, 1)
    requires (c.own.dut == Some(addr) || c.own.virt == Some(addr)) && DroveAddress(ks, 7)
    requires forall i :: 0 <= i < 8 ==> OpenDrainOnly(ks[i].rise.dut) && Fits(ks[i].fall.dut)
    requires Carries(ack, b) && OpenDrainOnly(ack.rise.dut) && FirstLate(ack, j)
    ensures FirstRaise(c, d, Clocks(Flat(ks[..8]) + UpTo(ack, j)), {}) ==
            if b == 0 && !(ack.high[j].dut.oe == Some(1) && ack.high[j].dut.odPp == Some(1))
            then Some(IBI_ACK_HANDOFF) else None
  {
    hide CoreRun, DeadlineRun, Clean, FirstRaise, IsLow, IsHigh, NonePending, RiseChecks, Schedule, OpenDrainOnly, Fits,
         UpTo, FirstLate, Carries, HeaderStart, CarriesAddress, DroveAddress;
    IbiAddressClean(c, d, ks, addr);
    CleanEndsIdle(c, d, Flat(ks[..8]));
    IbiAckChecks(CoreRun(c, Flat(ks[..8])), DeadlineRun(d, c, Flat(ks[..8])), b, ack);
    NoTakeoverPending(DeadlineRun(d, c, Flat(ks[..8])));
    DeadlineMet(c, d, Flat(ks[..8]), ack, b, j);
  }
}
