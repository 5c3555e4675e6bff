/**
  The two tSCO checks over whole runs: when they are pending, when they are
  made, and under which name a missed handoff is reported; and what is left
  unchecked while a transfer is meant for somebody else.
 */
module BusMonitorDeadlines {
  import opened Wrappers
  import opened BusMonitorModel
  import opened BusMonitorInvariants
  import opened BusMonitorClocking
  import opened BusMonitorRuns

  // ---------------------------------------------------------------------
  // Pending checks
  // ---------------------------------------------------------------------

  predicate PendingIn(t: Option<real>, last: real) {
    t.Some? ==> last < t.value <= last + TSCO_MAX_NS
  }

  /** Whatever is pending is still ahead, by at most tSCO. */
  predicate Ahead(d: Deadlines, last: real) {
    PendingIn(d.handoffTime, last) && PendingIn(d.takeoverTime, last)
  }

  /** Simulated time does not run backwards. */
  predicate InOrder(events: seq<Event>, last: real)
    decreases events
  {
    events != [] ==>
      && (events[0].Clock? ==> last <= events[0].s.now)
      && InOrder(events[1..], if events[0].Clock? then events[0].s.now else last)
  }

  /** The time of the last defined sample. */
  function LastTime(events: seq<Event>, last: real): real
    decreases events
  {
    if events == [] then last
    else LastTime(events[1..], if events[0].Clock? && events[0].s.Defined() then events[0].s.now else last)
  }

  lemma AheadStep(d: Deadlines, c: Core, s: Sample, last: real)
    requires Ahead(d, last) && last <= s.now
    ensures Ahead(DeadlineStep(d, c, s), if s.Defined() then s.now else last)
  {
  }

  /**
    In every run, with addresses told at any moment, a pending check lies after
    the last defined sample, at most 12 ns after it.
   */
  lemma {:induction false} PendingAhead(d: Deadlines, c: Core, events: seq<Event>, seen: real, last: real)
    requires Ahead(d, last) && last <= seen && InOrder(events, seen)
    ensures Ahead(DeadlineAfter(d, c, events), LastTime(events, last))
    decreases events
  {
    hide Next, DeadlineStep, Ahead;
    if events != [] {
      var e := events[0];
      if e.Clock? {
        AheadStep(d, c, e.s, last);
        PendingAhead(DeadlineNext(d, c, e), Next(c, e), events[1..], e.s.now, if e.s.Defined() then e.s.now else last);
      } else {
        PendingAhead(d, Next(c, e), events[1..], seen, last);
      }
    }
  }

  // ---------------------------------------------------------------------
  // The check is made, once, at the deadline
  // ---------------------------------------------------------------------

  /** The sample neither cancels nor replaces what is pending. */
  predicate LeavesPending(d: Deadlines, c: Core, s: Sample) {
    s.Defined() ==> DeadlinesAtEdge(d, c, EdgeOf(c, s.scl.value, s.sda.value), s.sda.value, s.now) == d
  }

  /** Nothing on the bus touches the pending checks, and none comes due at `t` or before. */
  predicate Waiting(d: Deadlines, c: Core, ss: seq<Sample>, t: real)
    decreases ss
  {
    ss != [] ==>
      && LeavesPending(d, c, ss[0])
      && (ss[0].Defined() ==> ss[0].now < t)
      && Waiting(DeadlineStep(d, c, ss[0]), CoreStep(c, ss[0]), ss[1..], t)
  }

  lemma {:induction false} HandoffWaits(d: Deadlines, c: Core, ss: seq<Sample>, t: real)
    requires d.handoffTime == Some(t) && Waiting(d, c, ss, t)
    ensures DeadlineRun(d, c, ss).handoffTime == Some(t) && DeadlineRun(d, c, ss).handoffId == d.handoffId
    decreases ss
  {
    hide CoreStep, DeadlinesAtEdge;
    if ss != [] {
      HandoffWaits(DeadlineStep(d, c, ss[0]), CoreStep(c, ss[0]), ss[1..], t);
    }
  }

  /**
    The release check is made at the first defined sample at or after its
    deadline and then forgotten.  What the sample raises is what its edge
    raises, or else the release check if the DUT still drives, or else a
    takeover that is due as well.
   */
  lemma HandoffCheckedAtDeadline(d: Deadlines, c: Core, ss: seq<Sample>, s: Sample, t: real, sup: set<CheckId>)
    requires d.handoffTime == Some(t) && Waiting(d, c, ss, t)
    requires s.Defined() && s.now >= t && LeavesPending(DeadlineRun(d, c, ss), CoreRun(c, ss), s)
    ensures var c1, d1 := CoreRun(c, ss), DeadlineRun(d, c, ss);
      && DeadlineStep(d1, c1, s).handoffTime == None
      && RaisedBy(c1, d1, s, sup) ==
         Then(EdgeChecks(c1, EdgeOf(c1, s.scl.value, s.sda.value), s, sup),
              if s.dut.Driving() && d.handoffId !in sup then Some(d.handoffId) else TakeoverCheck(d1, s, sup))
  {
    HandoffWaits(d, c, ss, t);
    hide CoreStep, DeadlinesAtEdge, EdgeChecks, CoreRun, DeadlineRun, EdgeOf;
  }

  function TakeoverCheck(d: Deadlines, s: Sample, sup: set<CheckId>): Raise {
    if Due(d.takeoverTime, s.now) && !(s.dut.Driving() && s.dut.PushPull()) && IBI_ACK_HANDOFF !in sup
    then Some(IBI_ACK_HANDOFF) else None
  }

  lemma {:induction false} TakeoverWaits(d: Deadlines, c: Core, ss: seq<Sample>, t: real)
    requires d.takeoverTime == Some(t) && Waiting(d, c, ss, t)
    ensures DeadlineRun(d, c, ss).takeoverTime == Some(t)
    decreases ss
  {
    hide CoreStep, DeadlinesAtEdge;
    if ss != [] {
      TakeoverWaits(DeadlineStep(d, c, ss[0]), CoreStep(c, ss[0]), ss[1..], t);
    }
  }

  /**
    The takeover check after an acknowledged IBI is made at the first defined
    sample at or after its deadline and then forgotten.  Unless the edge or a
    missed release raises first, it raises exactly when the DUT does not drive
    in Push-Pull.
   */
  lemma TakeoverCheckedAtDeadline(d: Deadlines, c: Core, ss: seq<Sample>, s: Sample, t: real, sup: set<CheckId>)
    requires d.takeoverTime == Some(t) && Waiting(d, c, ss, t)
    requires s.Defined() && s.now >= t && LeavesPending(DeadlineRun(d, c, ss), CoreRun(c, ss), s)
    ensures var c1, d1 := CoreRun(c, ss), DeadlineRun(d, c, ss);
      var edge := EdgeChecks(c1, EdgeOf(c1, s.scl.value, s.sda.value), s, sup);
      var release := Due(d1.handoffTime, s.now) && s.dut.Driving() && d1.handoffId !in sup;
      && DeadlineStep(d1, c1, s).takeoverTime == None
      && (edge == None && !release && IBI_ACK_HANDOFF !in sup ==>
            (RaisedBy(c1, d1, s, sup) == Some(IBI_ACK_HANDOFF) <==> !(s.dut.Driving() && s.dut.PushPull())))
      && (RaisedBy(c1, d1, s, sup) == None ==> IBI_ACK_HANDOFF in sup || (s.dut.Driving() && s.dut.PushPull()))
  {
    TakeoverWaits(d, c, ss, t);
    hide CoreStep, DeadlinesAtEdge, EdgeChecks, CoreRun, DeadlineRun, EdgeOf;
  }

  // ---------------------------------------------------------------------
  // The name of a missed handoff
  // ---------------------------------------------------------------------

  /** An SCL rise that renames the handoff check: a read or IBI T-bit, or the last ENTDAA identity bit. */
  predicate Renames(c: Core, s: Sample) {
    && s.Defined() && c.phase != HDR_MODE && EdgeOf(c, s.scl.value, s.sda.value) == RiseEdge
    && (((c.phase == READ_TBIT || c.phase == IBI_DATA_TBIT) && c.hdr.isAddressed) ||
        (c.phase == ENTDAA && c.ccc.entdaaBits == 63))
  }

  predicate Renamed(c: Core, events: seq<Event>)
    decreases events
  {
    events != [] && ((events[0].Clock? && Renames(c, events[0].s)) || Renamed(Next(c, events[0]), events[1..]))
  }

  lemma RenameStep(d: Deadlines, c: Core, s: Sample)
    ensures DeadlineStep(d, c, s).handoffId == WRITE_ACK_HANDOFF <==>
            d.handoffId == WRITE_ACK_HANDOFF && !Renames(c, s)
    ensures !Renames(c, s) ==> DeadlineStep(d, c, s).handoffId == d.handoffId
  {
  }

  lemma {:induction false} RenameRun(d: Deadlines, c: Core, events: seq<Event>)
    ensures DeadlineAfter(d, c, events).handoffId == WRITE_ACK_HANDOFF <==>
            d.handoffId == WRITE_ACK_HANDOFF && !Renamed(c, events)
    ensures !Renamed(c, events) ==> DeadlineAfter(d, c, events).handoffId == d.handoffId
    decreases events
  {
    hide Next, DeadlineStep, Renames;
    if events != [] {
      var e := events[0];
      if e.Clock? { RenameStep(d, c, e.s); }
      RenameRun(DeadlineNext(d, c, e), Next(c, e), events[1..]);
    }
  }

  /** An acknowledged write header to this DUT or to everyone, at the rise of its ACK. */
  predicate WriteAck(c: Core, s: Sample) {
    && s.Defined() && EdgeOf(c, s.scl.value, s.sda.value) == RiseEdge && c.phase == ADDR_ACK
    && (c.hdr.isAddressed || c.hdr.isBroadcast) && c.hdr.rnw == 0 && s.sda.value == 0
  }

  /**
    A write ACK schedules its release check but does not name it: in every run,
    with addresses told at any moment, the check is reported as
    WRITE_ACK_HANDOFF if and only if no read, IBI or ENTDAA bit has renamed it
    earlier in the run.
   */
  lemma WriteAckNamedIff(events: seq<Event>, s: Sample)
    requires WriteAck(After(INITIAL_CORE, events), s)
    ensures var c, d := After(INITIAL_CORE, events), DeadlineAfter(INITIAL_DEADLINES, INITIAL_CORE, events);
      var d1 := DeadlineStep(d, c, s);
      && d1.handoffTime == Some(s.now + TSCO_MAX_NS) && d1.handoffAddr == c.hdr.addrAccum
      && (d1.handoffId == WRITE_ACK_HANDOFF <==> !Renamed(INITIAL_CORE, events))
  {
    RenameRun(INITIAL_DEADLINES, INITIAL_CORE, events);
    hide CoreStep, After, DeadlineAfter, Renamed;
  }

  // ---------------------------------------------------------------------
  // Somebody else's transfer
  // ---------------------------------------------------------------------

  lemma {:induction false} IdleStaysIdle(c: Core, ss: seq<Sample>)
    requires c.phase == IDLE && !c.ccc.inRead && Quiet(c.prevScl, c.prevSda, ss)
    ensures CoreRun(c, ss).phase == IDLE && !CoreRun(c, ss).ccc.inRead
    decreases ss
  {
    if ss != [] {
      PrevLevels(c, ss[0]);
      IdleStep(c, ss[0]);
      hide CoreStep;
      IdleStaysIdle(CoreStep(c, ss[0]), ss[1..]);
    }
  }

  lemma IdleStep(c: Core, s: Sample)
    requires c.phase == IDLE && !c.ccc.inRead && Quiet(c.prevScl, c.prevSda, [s])
    ensures CoreStep(c, s).phase == IDLE && !CoreStep(c, s).ccc.inRead
  {
    hide OnStart, OnStop, OnHdrExit;
  }

  /**
    After the header of a transfer to another address, in any run, whatever the
    DUT drives until the next START or STOP, no edge check but the OD/PP table
    can fire.
   */
  lemma ForeignTransferUnchecked(events: seq<Event>, sda: Bit, ss: seq<Sample>, s: Sample, sup: set<CheckId>)
    requires var c := After(INITIAL_CORE, events);
      && c.phase == ADDR_ACK && !c.hdr.isAddressed && !c.hdr.isBroadcast && c.prevScl == 1
      && Quiet(0, sda, ss) && s.Defined()
    ensures var c := After(INITIAL_CORE, events);
      var d := CoreRun(OnFall(c, sda).(prevScl := 0, prevSda := sda), ss);
      EdgeChecks(d, EdgeOf(d, s.scl.value, s.sda.value), s, sup) in {None, Some(OD_PP_TABLE)}
  {
    hide After, CoreRun;
    var c := After(INITIAL_CORE, events);
    Reachable(events);
    ForeignAck(c, sda);
    var c0 := OnFall(c, sda).(prevScl := 0, prevSda := sda);
    IdleStaysIdle(c0, ss);
    IdleChecks(CoreRun(c0, ss), s, sup);
  }

  lemma ForeignAck(c: Core, sda: Bit)
    requires Inv(c) && c.phase == ADDR_ACK && !c.hdr.isAddressed && !c.hdr.isBroadcast
    ensures OnFall(c, sda).phase == IDLE && !OnFall(c, sda).ccc.inRead
  {
  }

  lemma IdleChecks(c: Core, s: Sample, sup: set<CheckId>)
    requires c.phase == IDLE && !c.ccc.inRead && s.Defined()
    ensures EdgeChecks(c, EdgeOf(c, s.scl.value, s.sda.value), s, sup) in {None, Some(OD_PP_TABLE)}
  {
  }
}
