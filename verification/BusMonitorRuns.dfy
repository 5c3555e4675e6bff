/**
  Whole runs of the bus monitor: clock samples, with the DUT's addresses told
  to it at any moment in between.
 */
module BusMonitorRuns {
  import opened Wrappers
  import opened BusMonitorModel
  import opened BusMonitorInvariants

  function DeadlineNext(d: Deadlines, c: Core, e: Event): Deadlines {
    if e.Clock? then DeadlineStep(d, c, e.s) else d
  }

  function DeadlineAfter(d: Deadlines, c: Core, events: seq<Event>): Deadlines
    decreases events
  {
    if events == [] then d else DeadlineAfter(DeadlineNext(d, c, events[0]), Next(c, events[0]), events[1..])
  }

  function RaisedAt(c: Core, d: Deadlines, e: Event, sup: set<CheckId>): Raise {
    if e.Clock? then RaisedBy(c, d, e.s, sup) else None
  }

  /** The check that ends the monitor in a run, if any. */
  function FirstRaise(c: Core, d: Deadlines, events: seq<Event>, sup: set<CheckId>): Raise
    decreases events
  {
    if events == [] then None
    else
      var r := RaisedAt(c, d, events[0], sup);
      if r.Some? then r else FirstRaise(Next(c, events[0]), DeadlineNext(d, c, events[0]), events[1..], sup)
  }

  /** Samples alone. */
  function Clocks(ss: seq<Sample>): seq<Event> {
    seq(|ss|, i requires 0 <= i < |ss| => Clock(ss[i]))
  }

  lemma {:induction false} ClocksRun(c: Core, d: Deadlines, ss: seq<Sample>)
    ensures After(c, Clocks(ss)) == CoreRun(c, ss) && DeadlineAfter(d, c, Clocks(ss)) == DeadlineRun(d, c, ss)
    decreases ss
  {
    hide CoreStep, DeadlineStep;
    if ss != [] {
      assert Clocks(ss)[1..] == Clocks(ss[1..]);
      ClocksRun(CoreStep(c, ss[0]), DeadlineStep(d, c, ss[0]), ss[1..]);
    }
  }

  /** The loop gets through all samples exactly when no check ends the run. */
  lemma {:induction false} ClocksRaise(c: Core, d: Deadlines, ss: seq<Sample>, sup: set<CheckId>)
    ensures Survives(c, d, ss, sup) == |ss| <==> FirstRaise(c, d, Clocks(ss), sup) == None
    decreases ss
  {
    hide CoreStep, DeadlineStep, RaisedBy;
    if ss != [] {
      assert Clocks(ss)[1..] == Clocks(ss[1..]);
      ClocksRaise(CoreStep(c, ss[0]), DeadlineStep(d, c, ss[0]), ss[1..], sup);
    }
  }

  lemma {:induction false} RunAppend(c: Core, d: Deadlines, x: seq<Event>, y: seq<Event>)
    ensures After(c, x + y) == After(After(c, x), y)
    ensures DeadlineAfter(d, c, x + y) == DeadlineAfter(DeadlineAfter(d, c, x), After(c, x), y)
    decreases x
  {
    hide Next, DeadlineNext;
    if x == [] {
      assert x + y == y;
    } else {
      assert (x + y)[0] == x[0] && (x + y)[1..] == x[1..] + y;
      RunAppend(Next(c, x[0]), DeadlineNext(d, c, x[0]), x[1..], y);
    }
  }

  lemma SampleAlone(d: Deadlines, c: Core, s: Sample)
    ensures CoreRun(c, [s]) == CoreStep(c, s) && DeadlineRun(d, c, [s]) == DeadlineStep(d, c, s)
  {
    hide CoreStep, DeadlineStep;
    assert CoreRun(CoreStep(c, s), []) == CoreStep(c, s);
    assert DeadlineRun(DeadlineStep(d, c, s), CoreStep(c, s), []) == DeadlineStep(d, c, s);
  }

  lemma SamplesAppend(d: Deadlines, c: Core, x: seq<Sample>, y: seq<Sample>)
    ensures CoreRun(c, x + y) == CoreRun(CoreRun(c, x), y)
    ensures DeadlineRun(d, c, x + y) == DeadlineRun(DeadlineRun(d, c, x), CoreRun(c, x), y)
  {
    hide After, DeadlineAfter, CoreRun, DeadlineRun;
    assert Clocks(x + y) == Clocks(x) + Clocks(y);
    RunAppend(c, d, Clocks(x), Clocks(y));
    ClocksRun(c, d, x + y);
    ClocksRun(c, d, x);
    ClocksRun(CoreRun(c, x), DeadlineRun(d, c, x), y);
  }

  lemma {:induction false} RaiseAppend(c: Core, d: Deadlines, x: seq<Event>, y: seq<Event>, sup: set<CheckId>)
    ensures var r := FirstRaise(c, d, x, sup);
      FirstRaise(c, d, x + y, sup) == if r.Some? then r else FirstRaise(After(c, x), DeadlineAfter(d, c, x), y, sup)
    decreases x
  {
    hide Next, DeadlineNext, RaisedAt;
    if x == [] {
      assert x + y == y;
    } else {
      assert (x + y)[0] == x[0] && (x + y)[1..] == x[1..] + y;
      RaiseAppend(Next(c, x[0]), DeadlineNext(d, c, x[0]), x[1..], y, sup);
    }
  }

  lemma OneRaise(c: Core, d: Deadlines, s: Sample, sup: set<CheckId>)
    ensures FirstRaise(c, d, Clocks([s]), sup) == RaisedBy(c, d, s, sup)
  {
    hide CoreStep, DeadlineStep, RaisedBy;
    assert Clocks([s])[0] == Clock(s) && Clocks([s])[1..] == [];
    assert FirstRaise(CoreStep(c, s), DeadlineStep(d, c, s), [], sup) == None;
  }

  // ---------------------------------------------------------------------
  // Time
  // ---------------------------------------------------------------------

  /** The same samples, taken at other times. */
  function Retimed(ss: seq<Sample>, times: nat -> real): seq<Sample> {
    seq(|ss|, i requires 0 <= i < |ss| => ss[i].(now := times(i)))
  }

  function Later(times: nat -> real, n: nat): nat -> real {
    (i: nat) => times(n + i)
  }

  lemma RetimedAppend(x: seq<Sample>, y: seq<Sample>, times: nat -> real)
    ensures Retimed(x + y, times) == Retimed(x, times) + Retimed(y, Later(times, |x|))
  {
  }

  lemma StepIgnoresTime(c: Core, s: Sample, t: real)
    ensures CoreStep(c, s.(now := t)) == CoreStep(c, s)
  {
    hide OnEdge;
  }

  /** What is decoded does not depend on when the samples are taken. */
  lemma {:induction false} RetimedRun(c: Core, ss: seq<Sample>, times: nat -> real)
    ensures CoreRun(c, Retimed(ss, times)) == CoreRun(c, ss)
    decreases ss
  {
    hide CoreStep;
    if ss != [] {
      StepIgnoresTime(c, ss[0], times(0));
      assert Retimed(ss, times)[1..] == Retimed(ss[1..], Later(times, 1));
      RetimedRun(CoreStep(c, ss[0]), ss[1..], Later(times, 1));
    }
  }

  // ---------------------------------------------------------------------
  // Suppressed checks
  // ---------------------------------------------------------------------

  /** `with` is `without` when `id` is suppressed as well. */
  predicate Hides(with: Raise, without: Raise, id: CheckId) {
    with != Some(id) && (without != Some(id) ==> with == without)
  }

  lemma HidesThen(a: Raise, a1: Raise, b: Raise, b1: Raise, id: CheckId)
    requires Hides(a, a1, id) && Hides(b, b1, id)
    ensures Hides(Then(a, b), Then(a1, b1), id)
  {
  }

  lemma HidesCommon(phase: Phase, isSr: bool, entdaaBits: nat, sda: Bit, dut: Dut, sup: set<CheckId>, id: CheckId)
    ensures Hides(TruthTable(dut, sup + {id}), TruthTable(dut, sup), id)
    ensures Hides(CommonRiseChecks(phase, isSr, entdaaBits, sda, dut, sup + {id}),
                  CommonRiseChecks(phase, isSr, entdaaBits, sda, dut, sup), id)
  {
  }

  lemma HidesPhase(phase: Phase, bitCount: nat, hdr: Header, entdaaBits: nat, dut: Dut, sup: set<CheckId>, id: CheckId)
    ensures Hides(PhaseRiseChecks(phase, bitCount, hdr, entdaaBits, dut, sup + {id}),
                  PhaseRiseChecks(phase, bitCount, hdr, entdaaBits, dut, sup), id)
  {
  }

  lemma HidesEdge(c: Core, e: Edge, s: Sample, sup: set<CheckId>, id: CheckId)
    requires s.Defined()
    ensures Hides(EdgeChecks(c, e, s, sup + {id}), EdgeChecks(c, e, s, sup), id)
  {
    hide TruthTable, CommonRiseChecks, PhaseRiseChecks, OnFall, WrongResponse, Then, Hides;
    var sup1, sda := sup + {id}, s.sda.value;
    HidesCommon(c.phase, c.hdr.isSr, c.ccc.entdaaBits, sda, s.dut, sup, id);
    HidesPhase(c.phase, c.bitCount, c.hdr, c.ccc.entdaaBits, s.dut, sup, id);
    HidesThen(CommonRiseChecks(c.phase, c.hdr.isSr, c.ccc.entdaaBits, sda, s.dut, sup1),
              CommonRiseChecks(c.phase, c.hdr.isSr, c.ccc.entdaaBits, sda, s.dut, sup),
              PhaseRiseChecks(c.phase, c.bitCount, c.hdr, c.ccc.entdaaBits, s.dut, sup1),
              PhaseRiseChecks(c.phase, c.bitCount, c.hdr, c.ccc.entdaaBits, s.dut, sup), id);
    var d := OnFall(c, sda);
    HidesThen(TruthTable(s.dut, sup1), TruthTable(s.dut, sup),
              TargetSilent(d.phase, d.hdr, s.dut, sup1), TargetSilent(d.phase, d.hdr, s.dut, sup), id);
    HidesOne(c, d, s, sup, id);
  }

  lemma HidesOne(c: Core, d: Core, s: Sample, sup: set<CheckId>, id: CheckId)
    ensures Hides(None, None, id)
    ensures Hides(TargetSilent(d.phase, d.hdr, s.dut, sup + {id}), TargetSilent(d.phase, d.hdr, s.dut, sup), id)
    ensures Hides(ResponseCheck(c.ccc, c.own, s.sigs, sup + {id}), ResponseCheck(c.ccc, c.own, s.sigs, sup), id)
  {
    hide WrongResponse;
  }

  /** Without a suppressed check the same sample raises the same, or that check. */
  lemma SuppressionAt(c: Core, d: Deadlines, s: Sample, sup: set<CheckId>, id: CheckId)
    ensures Hides(RaisedBy(c, d, s, sup + {id}), RaisedBy(c, d, s, sup), id)
  {
    hide EdgeChecks, DeadlinesAtEdge, EdgeOf;
    if s.Defined() {
      var e := EdgeOf(c, s.scl.value, s.sda.value);
      HidesEdge(c, e, s, sup, id);
    }
  }

  lemma {:induction false} SuppressionHides(c: Core, d: Deadlines, events: seq<Event>, sup: set<CheckId>, id: CheckId)
    ensures Hides(FirstRaise(c, d, events, sup + {id}), FirstRaise(c, d, events, sup), id)
    decreases events
  {
    hide Next, DeadlineNext, RaisedBy, Hides;
    if events != [] {
      var e := events[0];
      if e.Clock? { SuppressionAt(c, d, e.s, sup, id); }
      SuppressionHides(Next(c, e), DeadlineNext(d, c, e), events[1..], sup, id);
      HidesEarlier(RaisedAt(c, d, e, sup + {id}), RaisedAt(c, d, e, sup),
                   FirstRaise(Next(c, e), DeadlineNext(d, c, e), events[1..], sup + {id}),
                   FirstRaise(Next(c, e), DeadlineNext(d, c, e), events[1..], sup), id);
    } else {
      HidesNothing(id);
    }
  }

  lemma HidesNothing(id: CheckId)
    ensures Hides(None, None, id)
  {
  }

  lemma HidesEarlier(a: Raise, a1: Raise, b: Raise, b1: Raise, id: CheckId)
    requires Hides(b, b1, id) && (Hides(a, a1, id) || (a == None && a1 == None))
    ensures Hides(if a.Some? then a else b, if a1.Some? then a1 else b1, id)
  {
  }

  /**
    Suppressing a check, or no longer suppressing it, changes that check's
    verdict and nothing else: while suppressed it never ends a run, and a run
    that another check ends, or none, ends the same way with and without it.
   */
  lemma SuppressionHidesOne(c: Core, d: Deadlines, events: seq<Event>, sup: set<CheckId>, id: CheckId)
    ensures Hides(FirstRaise(c, d, events, sup + {id}), FirstRaise(c, d, events, sup - {id}), id)
  {
    assert sup + {id} == (sup - {id}) + {id};
    SuppressionHides(c, d, events, sup - {id}, id);
  }

  // ---------------------------------------------------------------------
  // Addresses
  // ---------------------------------------------------------------------

  /** The sample that completes a header, which is when the DUT's addresses are looked at. */
  predicate CompletesHeader(c: Core, s: Sample) {
    && s.Defined() && c.phase in {ADDR_BITS, IBI_ADDR_BITS} && c.bitCount >= 8
    && EdgeOf(c, s.scl.value, s.sda.value) == FallEdge
  }

  predicate NoHeader(c: Core, ss: seq<Sample>)
    decreases ss
  {
    ss != [] ==> !CompletesHeader(c, ss[0]) && NoHeader(CoreStep(c, ss[0]), ss[1..])
  }

  lemma AddressUnused(c: Core, own: Own, s: Sample)
    requires !CompletesHeader(c, s)
    ensures CoreStep(c.(own := own), s) == CoreStep(c, s).(own := own)
  {
    hide OnRise, OnFall, OnStart, OnStop, OnHdrExit;
    if s.Defined() {
      EdgesIgnoreOwn(c, own, s.sda.value, s.dut.Driving());
      if EdgeOf(c, s.scl.value, s.sda.value) == FallEdge { FallIgnoresOwn(c, own, s.sda.value); }
    }
  }

  lemma EdgesIgnoreOwn(c: Core, own: Own, sda: Bit, driving: bool)
    ensures OnRise(c.(own := own), sda, driving) == OnRise(c, sda, driving).(own := own)
    ensures OnStart(c.(own := own)) == OnStart(c).(own := own)
    ensures OnStop(c.(own := own)) == OnStop(c).(own := own)
    ensures OnHdrExit(c.(own := own)) == OnHdrExit(c).(own := own)
  {
  }

  lemma FallIgnoresOwn(c: Core, own: Own, sda: Bit)
    requires c.phase in {ADDR_BITS, IBI_ADDR_BITS} ==> c.bitCount < 8
    ensures OnFall(c.(own := own), sda) == OnFall(c, sda).(own := own)
  {
    hide AddrAckFall, IbiAckFall, CccTbitFall, WriteTbitFall, ReadTbitFall, EntdaaFall, IbiDataTbitFall, DataBitFall;
    AckIgnoresOwn(c, own);
  }

  lemma AckIgnoresOwn(c: Core, own: Own)
    ensures forall sda :: AddrAckFall(c.(own := own), sda) == AddrAckFall(c, sda).(own := own)
    ensures forall sda :: IbiAckFall(c.(own := own), sda) == IbiAckFall(c, sda).(own := own)
    ensures CccTbitFall(c.(own := own)) == CccTbitFall(c).(own := own)
    ensures WriteTbitFall(c.(own := own)) == WriteTbitFall(c).(own := own)
    ensures ReadTbitFall(c.(own := own)) == ReadTbitFall(c).(own := own)
    ensures EntdaaFall(c.(own := own)) == EntdaaFall(c).(own := own)
    ensures IbiDataTbitFall(c.(own := own)) == IbiDataTbitFall(c).(own := own)
    ensures forall t :: DataBitFall(c.(own := own), t) == DataBitFall(c, t).(own := own)
  {
  }

  /**
    An address counts from the next header on: told before or after a stretch
    in which no header is completed, it makes no difference to what is decoded,
    so the transfer under way is not disturbed.
   */
  lemma {:induction false} AddressWaitsForHeader(c: Core, own: Own, ss: seq<Sample>)
    requires NoHeader(c, ss)
    ensures CoreRun(c.(own := own), ss) == CoreRun(c, ss).(own := own)
    decreases ss
  {
    hide CoreStep, CompletesHeader;
    if ss != [] {
      AddressUnused(c, own, ss[0]);
      AddressWaitsForHeader(CoreStep(c, ss[0]), own, ss[1..]);
    }
  }

  lemma HeaderDecides(c: Core, own: Own, s: Sample)
    requires CompletesHeader(c, s)
    ensures var d := CoreStep(c.(own := own), s);
      && (d.hdr.isAddressed <==> own.dut == Some(c.hdr.addrAccum) || own.virt == Some(c.hdr.addrAccum))
      && (d.hdr.isVirt <==> own.virt == Some(c.hdr.addrAccum))
  {
  }

  /**
    Told at any moment since the last header was completed, an address decides
    the next one: the DUT is addressed there exactly under the addresses told.
   */
  lemma AddressDecidesHeader(c: Core, own: Own, ss: seq<Sample>, s: Sample)
    requires NoHeader(c, ss) && CompletesHeader(CoreRun(c, ss), s)
    ensures var addr, d := CoreRun(c, ss).hdr.addrAccum, CoreStep(CoreRun(c.(own := own), ss), s);
      && (d.hdr.isAddressed <==> own.dut == Some(addr) || own.virt == Some(addr))
      && (d.hdr.isVirt <==> own.virt == Some(addr))
  {
    hide CoreStep, CompletesHeader;
    AddressWaitsForHeader(c, own, ss);
    HeaderDecides(CoreRun(c, ss), own, s);
  }

  // ---------------------------------------------------------------------
  // The log
  // ---------------------------------------------------------------------

  function LogNext(log: Log, c: Core, d: Deadlines, e: Event, sup: set<CheckId>): Log {
    if e.Clock? then LogStep(log, c, d, e.s, sup) else log
  }

  /** The log after a run, which ends with the first violation that raises. */
  function LogAfter(log: Log, c: Core, d: Deadlines, events: seq<Event>, sup: set<CheckId>): Log
    decreases events
  {
    if events == [] then log
    else
      var e := events[0];
      var log1 := LogNext(log, c, d, e, sup);
      if RaisedAt(c, d, e, sup).Some? then log1 else LogAfter(log1, Next(c, e), DeadlineNext(d, c, e), events[1..], sup)
  }

  lemma {:induction false} ClocksLog(log: Log, c: Core, d: Deadlines, ss: seq<Sample>, sup: set<CheckId>)
    ensures LogAfter(log, c, d, Clocks(ss), sup) == LogRun(log, c, d, ss, sup)
    decreases ss
  {
    hide CoreStep, DeadlineStep, RaisedBy, LogStep;
    if ss != [] {
      assert Clocks(ss)[1..] == Clocks(ss[1..]);
      ClocksLog(LogStep(log, c, d, ss[0], sup), CoreStep(c, ss[0]), DeadlineStep(d, c, ss[0]), ss[1..], sup);
    }
  }

  /** A STOP outside HDR mode after a direct SET whose register does not hold what was written. */
  predicate Mismatch(c: Core, e: Event, sup: set<CheckId>) {
    && e.Clock? && e.s.Defined() && c.phase != HDR_MODE
    && EdgeOf(c, e.s.scl.value, e.s.sda.value) == StopEdge
    && WrongCsr(c.ccc, e.s.sigs) && SET_CSR_CONSISTENCY !in sup
    && !(WrongResponse(c.ccc, c.own, e.s.sigs) && CCC_RESPONSE_DATA !in sup)
  }

  /** How many of them a run meets up to the first violation that raises. */
  function Mismatches(c: Core, d: Deadlines, events: seq<Event>, sup: set<CheckId>): nat
    decreases events
  {
    if events == [] then 0
    else
      var e := events[0];
      (if Mismatch(c, e, sup) then 1 else 0) +
      if RaisedAt(c, d, e, sup).Some? then 0 else Mismatches(Next(c, e), DeadlineNext(d, c, e), events[1..], sup)
  }

  function Repeated(n: nat): seq<CheckId> {
    seq(n, _ => SET_CSR_CONSISTENCY)
  }

  /** `n` swallowed mismatches, and what was raised. */
  function Extended(log: Log, n: nat, r: Raise): Log {
    Log(log.violations + Repeated(n) + (if r.Some? then [r.value] else []), log.count + n + if r.Some? then 1 else 0)
  }

  lemma ExtendedTwice(log: Log, n: nat, m: nat, r: Raise)
    ensures Extended(Extended(log, n, None), m, r) == Extended(log, n + m, r)
  {
    assert Repeated(n) + Repeated(m) == Repeated(n + m);
    assert log.violations + Repeated(n) + Repeated(m) == log.violations + (Repeated(n) + Repeated(m));
  }

  lemma RecordedAt(log: Log, c: Core, d: Deadlines, e: Event, sup: set<CheckId>)
    ensures LogNext(log, c, d, e, sup) ==
            Extended(log, if Mismatch(c, e, sup) then 1 else 0, RaisedAt(c, d, e, sup))
  {
    hide EdgeOf, RaisedBy, WrongCsr, WrongResponse;
    if e.Clock? { UndefinedRaisesNothing(c, d, e.s, sup); }
  }

  lemma UndefinedRaisesNothing(c: Core, d: Deadlines, s: Sample, sup: set<CheckId>)
    ensures RaisedBy(c, d, s, sup).Some? ==> s.Defined()
  {
  }

  /**
    What a run writes to the log, with addresses told at any moment: one record
    for every register mismatch it meets, none of which ends the monitor, and
    then the one violation that does.
   */
  lemma {:induction false} LogShape(log: Log, c: Core, d: Deadlines, events: seq<Event>, sup: set<CheckId>)
    ensures LogAfter(log, c, d, events, sup) ==
            Extended(log, Mismatches(c, d, events, sup), FirstRaise(c, d, events, sup))
    decreases events
  {
    hide Next, DeadlineNext, RaisedAt, LogNext, Mismatch, Extended;
    if events != [] {
      var e := events[0];
      RecordedAt(log, c, d, e, sup);
      if RaisedAt(c, d, e, sup).None? {
        LogShape(LogNext(log, c, d, e, sup), Next(c, e), DeadlineNext(d, c, e), events[1..], sup);
        ExtendedTwice(log, if Mismatch(c, e, sup) then 1 else 0,
                      Mismatches(Next(c, e), DeadlineNext(d, c, e), events[1..], sup),
                      FirstRaise(c, d, events, sup));
      }
    } else {
      NothingAdded(log);
    }
  }

  lemma NothingAdded(log: Log)
    ensures Extended(log, 0, None) == log
  {
  }

  /** The mismatch itself never raises. */
  lemma {:induction false} MismatchNeverRaises(c: Core, d: Deadlines, events: seq<Event>, sup: set<CheckId>)
    requires d.handoffId != SET_CSR_CONSISTENCY
    ensures FirstRaise(c, d, events, sup) != Some(SET_CSR_CONSISTENCY)
    decreases events
  {
    hide CoreStep, DeadlineStep, RaisedBy;
    if events != [] {
      var e := events[0];
      if e.Clock? { SwallowedAt(c, d, e.s, sup); }
      MismatchNeverRaises(Next(c, e), DeadlineNext(d, c, e), events[1..], sup);
    }
  }

  lemma SwallowedAt(c: Core, d: Deadlines, s: Sample, sup: set<CheckId>)
    ensures d.handoffId != SET_CSR_CONSISTENCY ==> RaisedBy(c, d, s, sup) != Some(SET_CSR_CONSISTENCY)
    ensures d.handoffId != SET_CSR_CONSISTENCY ==> DeadlineStep(d, c, s).handoffId != SET_CSR_CONSISTENCY
  {
    hide OnFall, EdgeOf, ResponseCheck;
    ResponseId(c, s, sup);
  }

  lemma ResponseId(c: Core, s: Sample, sup: set<CheckId>)
    ensures ResponseCheck(c.ccc, c.own, s.sigs, sup) in {None, Some(CCC_RESPONSE_DATA)}
  {
  }

  lemma {:induction false} LogAppend(log: Log, c: Core, d: Deadlines, x: seq<Event>, y: seq<Event>, sup: set<CheckId>)
    requires FirstRaise(c, d, x, sup) == None
    ensures LogAfter(log, c, d, x + y, sup) ==
            LogAfter(LogAfter(log, c, d, x, sup), After(c, x), DeadlineAfter(d, c, x), y, sup)
    ensures FirstRaise(c, d, x + y, sup) == FirstRaise(After(c, x), DeadlineAfter(d, c, x), y, sup)
    decreases x
  {
    hide Next, DeadlineNext, RaisedAt, LogNext;
    if x == [] {
      assert x + y == y;
    } else {
      assert (x + y)[0] == x[0] && (x + y)[1..] == x[1..] + y;
      LogAppend(LogNext(log, c, d, x[0], sup), Next(c, x[0]), DeadlineNext(d, c, x[0]), x[1..], y, sup);
    }
  }

  lemma {:induction false} MismatchesAppend(c: Core, d: Deadlines, x: seq<Event>, y: seq<Event>, sup: set<CheckId>)
    requires FirstRaise(c, d, x, sup) == None
    ensures Mismatches(c, d, x + y, sup) ==
            Mismatches(c, d, x, sup) + Mismatches(After(c, x), DeadlineAfter(d, c, x), y, sup)
    decreases x
  {
    hide Next, DeadlineNext, RaisedAt, Mismatch;
    if x == [] {
      assert x + y == y;
    } else {
      assert (x + y)[0] == x[0] && (x + y)[1..] == x[1..] + y;
      MismatchesAppend(Next(c, x[0]), DeadlineNext(d, c, x[0]), x[1..], y, sup);
    }
  }
}
