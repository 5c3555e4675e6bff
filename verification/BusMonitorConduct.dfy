/**
  No false alarms, clock by clock: what a DUT may do in each kind of clock, told
  in terms of its outputs, the wires and the time, without the monitor raising.
 */
module BusMonitorConduct {
  import opened Wrappers
  import opened BusMonitorModel
  import opened BusMonitorInvariants
  import opened BusMonitorRuns
  import opened BusMonitorDecode

  // ---------------------------------------------------------------------
  // Conduct
  // ---------------------------------------------------------------------

  /** Outputs that fit together: open-drain drives zeros only, push-pull always drives. */
  predicate Fits(dut: Dut) {
    dut.oe.Some? && dut.odPp.Some? && dut.sdaO.Some? ==>
      if dut.odPp.value == 0 then dut.oe.value != dut.sdaO.value else dut.oe.value == 1
  }

  /** Not driving. */
  predicate Silent(dut: Dut) {
    Fits(dut) && dut.oe != Some(1)
  }

  /** Not driving push-pull. */
  predicate OpenDrainOnly(dut: Dut) {
    Fits(dut) && (dut.oe == Some(1) ==> dut.odPp == Some(0))
  }

  /** Driving the level `b` push-pull. */
  predicate Pushes(dut: Dut, b: Bit) {
    dut == Dut(Some(1), Some(1), Some(b))
  }

  /** From 12 ns behind the rise on the DUT does not drive, and a sample of the clock lies there. */
  predicate Releases(k: Clk) {
    && k.fall.now >= k.rise.now + 12.0
    && (forall s :: s in k.high + [k.fall] && s.now >= k.rise.now + 12.0 ==> s.dut.oe != Some(1))
  }

  /** From 12 ns behind the rise on the DUT drives push-pull. */
  predicate TakesOver(k: Clk) {
    && k.fall.now >= k.rise.now + 12.0
    && (forall s :: s in k.high + [k.fall] && s.now >= k.rise.now + 12.0 ==>
          s.dut.oe == Some(1) && s.dut.odPp == Some(1))
  }

  // ---------------------------------------------------------------------
  // Clean stretches
  // ---------------------------------------------------------------------

  predicate NonePending(d: Deadlines) {
    d.handoffTime == None && d.takeoverTime == None
  }

  /** Nothing is raised, and nothing is left pending. */
  predicate Clean(c: Core, d: Deadlines, ss: seq<Sample>) {
    FirstRaise(c, d, Clocks(ss), {}) == None && NonePending(DeadlineRun(d, c, ss))
  }

  lemma CleanIsQuiet(c: Core, d: Deadlines, ss: seq<Sample>)
    requires Clean(c, d, ss)
    ensures FirstRaise(c, d, Clocks(ss), {}) == None
  {
    hide FirstRaise;
  }

  lemma SamplesRaise(c: Core, d: Deadlines, x: seq<Sample>, y: seq<Sample>)
    requires FirstRaise(c, d, Clocks(x), {}) == None
    ensures FirstRaise(c, d, Clocks(x + y), {}) == FirstRaise(CoreRun(c, x), DeadlineRun(d, c, x), Clocks(y), {})
  {
    hide FirstRaise, CoreRun, DeadlineRun;
    assert Clocks(x + y) == Clocks(x) + Clocks(y);
    RaiseAppend(c, d, Clocks(x), Clocks(y), {});
    ClocksRun(c, d, x);
  }

  lemma CleanAppend(c: Core, d: Deadlines, x: seq<Sample>, y: seq<Sample>)
    requires Clean(c, d, x) && Clean(CoreRun(c, x), DeadlineRun(d, c, x), y)
    ensures Clean(c, d, x + y)
  {
    hide FirstRaise, CoreRun, DeadlineRun;
    SamplesRaise(c, d, x, y);
    SamplesAppend(d, c, x, y);
  }

  lemma OneClean(c: Core, d: Deadlines, s: Sample)
    requires RaisedBy(c, d, s, {}) == None && NonePending(DeadlineStep(d, c, s))
    ensures Clean(c, d, [s])
  {
    hide RaisedBy, DeadlineStep;
    OneRaise(c, d, s, {});
    SampleAlone(d, c, s);
  }

  lemma NothingClean(c: Core, d: Deadlines)
    requires NonePending(d)
    ensures Clean(c, d, [])
  {
  }

  // ---------------------------------------------------------------------
  // Samples between edges
  // ---------------------------------------------------------------------

  /** Without an edge and without anything pending nothing happens. */
  lemma NoEdgeClean(c: Core, d: Deadlines, s: Sample)
    requires NonePending(d) && (s.Defined() ==> EdgeOf(c, s.scl.value, s.sda.value) == NoEdge)
    ensures RaisedBy(c, d, s, {}) == None && NonePending(DeadlineStep(d, c, s))
  {
  }

  lemma {:induction false} LowClean(c: Core, d: Deadlines, ss: seq<Sample>)
    requires NonePending(d) && c.prevScl == 0 && IsLow(ss)
    ensures Clean(c, d, ss)
    decreases ss
  {
    hide OnStart, OnStop, OnHdrExit, OnRise, OnFall, RaisedBy, DeadlineStep, NonePending;
    if ss == [] {
      NothingClean(c, d);
    } else {
      var s := ss[0];
      NoEdgeClean(c, d, s);
      LowClean(CoreStep(c, s), DeadlineStep(d, c, s), ss[1..]);
      ConsClean(c, d, s, ss);
    }
  }

  lemma ConsClean(c: Core, d: Deadlines, s: Sample, ss: seq<Sample>)
    requires ss != [] && s == ss[0] && RaisedBy(c, d, s, {}) == None
    requires Clean(CoreStep(c, s), DeadlineStep(d, c, s), ss[1..])
    ensures Clean(c, d, ss)
  {
    hide RaisedBy, CoreStep, DeadlineStep, NonePending;
    assert Clocks(ss)[1..] == Clocks(ss[1..]);
  }

  lemma {:induction false} HighClean(c: Core, d: Deadlines, ss: seq<Sample>)
    requires NonePending(d) && c.prevScl == 1 && IsHigh(ss, c.prevSda)
    ensures Clean(c, d, ss)
    decreases ss
  {
    hide OnStart, OnStop, OnHdrExit, OnRise, OnFall, RaisedBy, DeadlineStep, NonePending;
    if ss == [] {
      NothingClean(c, d);
    } else {
      var s := ss[0];
      NoEdgeClean(c, d, s);
      HighClean(CoreStep(c, s), DeadlineStep(d, c, s), ss[1..]);
      ConsClean(c, d, s, ss);
    }
  }

  // ---------------------------------------------------------------------
  // A clock
  // ---------------------------------------------------------------------

  /** What the rise of a clock may leave pending, and what the rest of the clock does about it. */
  predicate Settled(d: Deadlines, k: Clk) {
    || NonePending(d)
    || (d.handoffTime == Some(k.rise.now + 12.0) && d.takeoverTime == None && Releases(k))
    || (d.takeoverTime == Some(k.rise.now + 12.0) && d.handoffTime == None && TakesOver(k))
  }

  /** The high of a clock and its fall, with `rest` still to come. */
  predicate Rest(k: Clk, rest: seq<Sample>) {
    forall s :: s in rest ==> s in k.high + [k.fall]
  }

  /** A sample of the high keeps to it. */
  lemma HighSettles(c: Core, d: Deadlines, k: Clk, s: Sample)
    requires Settled(d, k) && s in k.high + [k.fall]
    requires s.Defined() ==> EdgeOf(c, s.scl.value, s.sda.value) == NoEdge
    ensures RaisedBy(c, d, s, {}) == None && Settled(DeadlineStep(d, c, s), k)
  {
    hide OnFall;
  }

  lemma {:induction false} HighsSettle(c: Core, d: Deadlines, k: Clk, ss: seq<Sample>)
    requires Settled(d, k) && Rest(k, ss) && c.prevScl == 1 && IsHigh(ss, c.prevSda)
    ensures FirstRaise(c, d, Clocks(ss), {}) == None && Settled(DeadlineRun(d, c, ss), k)
    decreases ss
  {
    hide OnStart, OnStop, OnHdrExit, OnRise, OnFall, RaisedBy, DeadlineStep, Settled;
    if ss != [] {
      var s := ss[0];
      assert s in k.high + [k.fall];
      HighSettles(c, d, k, s);
      HighsSettle(CoreStep(c, s), DeadlineStep(d, c, s), k, ss[1..]);
      assert Clocks(ss)[1..] == Clocks(ss[1..]);
    }
  }

  /** The fall finds the outputs in order, and nothing is pending behind it. */
  lemma FallSettles(c: Core, d: Deadlines, k: Clk, b: Bit)
    requires Settled(d, k) && c.prevScl == 1 && c.phase != HDR_MODE && At(k.fall, 0, b)
    requires Fits(k.fall.dut) && Aimed(OnFall(c, b))
    ensures RaisedBy(c, d, k.fall, {}) == None && NonePending(DeadlineStep(d, c, k.fall))
  {
    hide OnFall;
    assert k.fall in k.high + [k.fall];
  }

  /** Whatever data phase the monitor is in, the transfer is one for the DUT. */
  predicate Aimed(c: Core) {
    c.phase in {WRITE_DATA, WRITE_TBIT, READ_DATA, READ_TBIT} ==> c.hdr.isAddressed || c.hdr.isBroadcast
  }

  /** The checks and deadlines of a rise. */
  predicate RiseFine(c: Core, d: Deadlines, k: Clk, b: Bit) {
    && RiseChecks(c.phase, c.bitCount, c.hdr, c.ccc.entdaaBits, b, k.rise.dut, {}) == None
    && Settled(Schedule(d, c.phase, c.hdr, c.ccc.entdaaBits, b, k.rise.now), k)
  }

  lemma RiseSettles(c: Core, d: Deadlines, k: Clk, b: Bit)
    requires NonePending(d) && c.prevScl == 0 && c.phase != HDR_MODE && At(k.rise, 1, b) && RiseFine(c, d, k, b)
    ensures RaisedBy(c, d, k.rise, {}) == None && Settled(DeadlineStep(d, c, k.rise), k)
  {
    hide RiseChecks, Schedule, Releases, TakesOver;
  }

  /** A clock whose rise is in order and whose fall finds the outputs in order raises nothing. */
  lemma ClkClean(c: Core, d: Deadlines, k: Clk, b: Bit)
    requires NonePending(d) && c.prevScl == 0 && c.phase != HDR_MODE && Carries(k, b) && RiseFine(c, d, k, b)
    requires Fits(k.fall.dut) && Aimed(Pulse(c, b, k.rise.dut.Driving()))
    ensures Clean(c, d, ClkSamples(k))
  {
    hide OnRise, OnFall, CoreRun, DeadlineRun, CoreStep, DeadlineStep, RaisedBy, FirstRaise, IsLow, IsHigh, Settled,
         RiseFine, NonePending, Fits;
    LowClean(c, d, k.low);
    LowRun(c, k.low);
    var c1, d1 := CoreRun(c, k.low), DeadlineRun(d, c, k.low);
    SameRise(c, c1, d, d1, k, b);
    RiseSettles(c1, d1, k, b);
    RiseState(c1, k.rise, b);
    var c2, d2 := CoreStep(c1, k.rise), DeadlineStep(d1, c1, k.rise);
    HighIsRest(k);
    HighsSettle(c2, d2, k, k.high);
    HighRun(c2, k.high);
    var d3 := DeadlineRun(d2, c2, k.high);
    SameAim(c, c1, c2, b, k.rise.dut.Driving());
    FallSettles(c2, d3, k, b);
    OneClean(c2, d3, k.fall);
    Pieces(c, d, k);
  }

  lemma HighIsRest(k: Clk)
    ensures Rest(k, k.high)
  {
  }

  lemma RiseState(c: Core, s: Sample, b: Bit)
    requires c.prevScl == 0 && c.phase != HDR_MODE && At(s, 1, b)
    ensures CoreStep(c, s) == OnRise(c, b, s.dut.Driving()).(prevScl := 1, prevSda := b)
    ensures CoreStep(c, s).phase == c.phase
  {
    hide OnFall, OnStart, OnStop, OnHdrExit;
    RisePhase(c, b, s.dut.Driving());
  }

  lemma SameRise(c: Core, c1: Core, d: Deadlines, d1: Deadlines, k: Clk, b: Bit)
    requires c1 == c.(prevSda := c1.prevSda) && NonePending(d) && NonePending(d1) && RiseFine(c, d, k, b)
    ensures RiseFine(c1, d1, k, b)
  {
    hide RiseChecks, Releases, TakesOver;
  }

  lemma SameAim(c: Core, c1: Core, c2: Core, b: Bit, driving: bool)
    requires c1 == c.(prevSda := c1.prevSda) && c2 == OnRise(c1, b, driving).(prevScl := 1, prevSda := b)
    requires Aimed(Pulse(c, b, driving))
    ensures Aimed(OnFall(c2, b))
  {
    hide OnRise, OnFall;
    RiseIgnoresSda(c, c1.prevSda, b, driving);
  }

  lemma RiseIgnoresSda(c: Core, sda: Bit, b: Bit, driving: bool)
    ensures OnRise(c.(prevSda := sda), b, driving).(prevScl := 1, prevSda := b) ==
            OnRise(c, b, driving).(prevScl := 1, prevSda := b)
  {
  }

  /** The four pieces of a clock, put together. */
  lemma Pieces(c: Core, d: Deadlines, k: Clk)
    requires Clean(c, d, k.low)
    requires var c1, d1 := CoreRun(c, k.low), DeadlineRun(d, c, k.low);
      && RaisedBy(c1, d1, k.rise, {}) == None
      && var c2, d2 := CoreStep(c1, k.rise), DeadlineStep(d1, c1, k.rise);
         && FirstRaise(c2, d2, Clocks(k.high), {}) == None
         && Clean(CoreRun(c2, k.high), DeadlineRun(d2, c2, k.high), [k.fall])
    ensures Clean(c, d, ClkSamples(k))
  {
    hide CoreRun, DeadlineRun, CoreStep, DeadlineStep, RaisedBy, FirstRaise, NonePending;
    var c1, d1 := CoreRun(c, k.low), DeadlineRun(d, c, k.low);
    SampleAlone(d1, c1, k.rise);
    OneRaise(c1, d1, k.rise, {});
    var c2, d2 := CoreStep(c1, k.rise), DeadlineStep(d1, c1, k.rise);
    SamplesRaise(c2, d2, k.high, [k.fall]);
    SamplesAppend(d2, c2, k.high, [k.fall]);
    SamplesRaise(c1, d1, [k.rise], k.high + [k.fall]);
    SamplesAppend(d1, c1, [k.rise], k.high + [k.fall]);
    SamplesRaise(c, d, k.low, [k.rise] + (k.high + [k.fall]));
    SamplesAppend(d, c, k.low, [k.rise] + (k.high + [k.fall]));
  }

  // ---------------------------------------------------------------------
  // Rises, by phase
  // ---------------------------------------------------------------------

  /** A silent DUT passes in every phase that schedules nothing for it. */
  lemma SilentRise(c: Core, d: Deadlines, k: Clk, b: Bit)
    requires NonePending(d) && Silent(k.rise.dut)
    requires c.phase in {IDLE, ADDR_BITS, WRITE_DATA, WRITE_TBIT, CCC_BYTE, CCC_TBIT, READ_DATA} ||
             (c.phase == ENTDAA && c.ccc.entdaaBits != 63)
    ensures RiseFine(c, d, k, b)
  {
    hide Releases, TakesOver;
  }

  /** Address bits after a START: arbitration is open-drain. */
  lemma ArbitratedRise(c: Core, d: Deadlines, k: Clk, b: Bit)
    requires NonePending(d) && OpenDrainOnly(k.rise.dut) && c.phase == ADDR_BITS && !c.hdr.isSr
    ensures RiseFine(c, d, k, b)
  {
    hide Releases, TakesOver;
  }

  /** The ACK of a header; a write that is acknowledged must be released. */
  lemma AckRise(c: Core, d: Deadlines, k: Clk, b: Bit)
    requires NonePending(d) && OpenDrainOnly(k.rise.dut) && c.phase == ADDR_ACK
    requires c.hdr.rnw == 0 && b == 0 ==> Releases(k)
    ensures RiseFine(c, d, k, b)
  {
    hide Releases, TakesOver;
  }

  /** Read data and the T-bit behind it are pushed at the level on SDA. */
  lemma PushedRise(c: Core, d: Deadlines, k: Clk, b: Bit)
    requires NonePending(d) && Pushes(k.rise.dut, b)
    requires c.phase in {READ_DATA, IBI_MDB, IBI_DATA} || (c.phase in {READ_TBIT, IBI_DATA_TBIT} && Releases(k))
    ensures RiseFine(c, d, k, b)
  {
    hide Releases, TakesOver;
  }

  /** The ACK of an IBI is not the DUT's; if it is given, the DUT takes over. */
  lemma IbiAckRise(c: Core, d: Deadlines, k: Clk, b: Bit)
    requires NonePending(d) && OpenDrainOnly(k.rise.dut) && c.phase == IBI_ADDR_ACK && (b == 0 ==> TakesOver(k))
    ensures RiseFine(c, d, k, b)
  {
    hide Releases, TakesOver;
  }

  /** Identity bits are open-drain, address bits not the DUT's, and its ACK is open-drain again. */
  lemma EntdaaRise(c: Core, d: Deadlines, k: Clk, b: Bit)
    requires NonePending(d) && c.phase == ENTDAA && OpenDrainOnly(k.rise.dut)
    requires c.ccc.entdaaBits == 63 ==> Releases(k)
    requires 64 <= c.ccc.entdaaBits < 72 ==> Silent(k.rise.dut)
    ensures RiseFine(c, d, k, b)
  {
    hide Releases, TakesOver;
  }
}
