/**
  False alarms: what the monitor can hold against a DUT that never drives the
  bus, whatever the controller and the other targets do.
 */
module BusMonitorSilence {
  import opened Wrappers
  import opened BusMonitorModel
  import opened BusMonitorInvariants
  import opened BusMonitorRuns

  predicate NeverDrives(events: seq<Event>) {
    forall i :: 0 <= i < |events| ==> (events[i].Clock? ==> !events[i].s.dut.Driving())
  }

  /** The DUT has not taken part in a header, so nothing is taken for its IBI and no takeover is due. */
  predicate Uninvolved(c: Core, d: Deadlines) {
    c.hdr.dutDroveAddr != Some(true) && !IbiPhase(c.phase) && d.takeoverTime == None
  }

  lemma UninvolvedRise(c: Core, sda: Bit)
    requires c.hdr.dutDroveAddr != Some(true) && !IbiPhase(c.phase)
    ensures var e := OnRise(c, sda, false); e.hdr.dutDroveAddr != Some(true) && !IbiPhase(e.phase)
  {
  }

  lemma UninvolvedFall(c: Core, sda: Bit)
    requires c.hdr.dutDroveAddr != Some(true) && !IbiPhase(c.phase)
    ensures var e := OnFall(c, sda); e.hdr.dutDroveAddr != Some(true) && !IbiPhase(e.phase)
  {
  }

  lemma UninvolvedStart(c: Core)
    ensures OnStart(c).hdr.dutDroveAddr != Some(true) && !IbiPhase(OnStart(c).phase)
    ensures OnStop(c).hdr.dutDroveAddr == c.hdr.dutDroveAddr && !IbiPhase(OnStop(c).phase)
    ensures OnHdrExit(c).hdr.dutDroveAddr == c.hdr.dutDroveAddr && !IbiPhase(OnHdrExit(c).phase)
  {
  }

  lemma UninvolvedStep(c: Core, d: Deadlines, s: Sample)
    requires Uninvolved(c, d) && !s.dut.Driving()
    ensures Uninvolved(CoreStep(c, s), DeadlineStep(d, c, s))
  {
    hide OnRise, OnFall, OnStart, OnStop, OnHdrExit;
    if s.Defined() {
      UninvolvedRise(c, s.sda.value);
      UninvolvedFall(c, s.sda.value);
      UninvolvedStart(c);
    }
  }

  // ---------------------------------------------------------------------
  // What remains
  // ---------------------------------------------------------------------

  /** Outputs that contradict the OD/PP table at a clock edge, or a STOP after a wrong GET response. */
  function Fault(c: Core, s: Sample, sup: set<CheckId>): Raise {
    if !s.Defined() || c.phase == HDR_MODE then None
    else match EdgeOf(c, s.scl.value, s.sda.value)
      case RiseEdge | FallEdge => TruthTable(s.dut, sup)
      case StopEdge => ResponseCheck(c.ccc, c.own, s.sigs, sup)
      case _ => None
  }

  lemma OnlyFaults(c: Core, d: Deadlines, s: Sample, sup: set<CheckId>)
    requires Uninvolved(c, d) && !s.dut.Driving()
    ensures RaisedBy(c, d, s, sup) == Fault(c, s, sup)
  {
    hide OnFall, ResponseCheck;
  }

  /** The first fault of a run. */
  function FirstFault(c: Core, events: seq<Event>, sup: set<CheckId>): Raise
    decreases events
  {
    if events == [] then None
    else
      var f := if events[0].Clock? then Fault(c, events[0].s, sup) else None;
      if f.Some? then f else FirstFault(Next(c, events[0]), events[1..], sup)
  }

  /**
    In every run from the start, with addresses told at any moment, a DUT that
    never drives is flagged exactly for its first fault.
   */
  lemma SilentDutVerdict(events: seq<Event>, sup: set<CheckId>)
    requires NeverDrives(events)
    ensures FirstRaise(INITIAL_CORE, INITIAL_DEADLINES, events, sup) == FirstFault(INITIAL_CORE, events, sup)
  {
    SilentRun(INITIAL_CORE, INITIAL_DEADLINES, events, sup);
  }

  lemma {:induction false} SilentRun(c: Core, d: Deadlines, events: seq<Event>, sup: set<CheckId>)
    requires Uninvolved(c, d) && NeverDrives(events)
    ensures FirstRaise(c, d, events, sup) == FirstFault(c, events, sup)
    decreases events
  {
    hide CoreStep, DeadlineStep, RaisedBy, Fault;
    if events != [] {
      var e := events[0];
      if e.Clock? {
        OnlyFaults(c, d, e.s, sup);
        hide Uninvolved;
        UninvolvedStep(c, d, e.s);
      }
      SilentRun(Next(c, e), DeadlineNext(d, c, e), events[1..], sup);
    }
  }

  lemma {:induction false} UninvolvedAfter(c: Core, d: Deadlines, events: seq<Event>)
    requires Uninvolved(c, d) && NeverDrives(events)
    ensures Uninvolved(After(c, events), DeadlineAfter(d, c, events))
    decreases events
  {
    hide CoreStep, DeadlineStep;
    if events != [] {
      var e := events[0];
      if e.Clock? {
        hide Uninvolved;
        UninvolvedStep(c, d, e.s);
      }
      UninvolvedAfter(Next(c, e), DeadlineNext(d, c, e), events[1..]);
    }
  }

  /** The DUT's outputs and the registers its responses come from are undefined. */
  predicate Undefined(ss: seq<Sample>) {
    forall i :: 0 <= i < |ss| ==> ss[i].dut == Dut(None, None, None) && ss[i].sigs.responses.None?
  }

  lemma {:induction false} UndefinedRaisesNone(c: Core, d: Deadlines, ss: seq<Sample>, sup: set<CheckId>)
    requires Uninvolved(c, d) && Undefined(ss)
    ensures FirstRaise(c, d, Clocks(ss), sup) == None
    ensures Uninvolved(CoreRun(c, ss), DeadlineRun(d, c, ss))
    decreases ss
  {
    if ss != [] {
      var s := ss[0];
      assert s.dut == Dut(None, None, None) && s.sigs.responses.None?;
      assert Clocks(ss)[1..] == Clocks(ss[1..]);
      hide CoreStep, DeadlineStep, RaisedBy, EdgeOf;
      OnlyFaults(c, d, s, sup);
      UninvolvedStep(c, d, s);
      hide Uninvolved;
      UndefinedRaisesNone(CoreStep(c, s), DeadlineStep(d, c, s), ss[1..], sup);
    }
  }

  // ---------------------------------------------------------------------
  // No false alarms
  // ---------------------------------------------------------------------

  /** A read header to the DUT or to everyone that somebody acknowledges; a silent DUT does not. */
  predicate AnsweredRead(c: Core, s: Sample) {
    && s.Defined() && c.phase == ADDR_ACK && c.hdr.rnw != 0 && s.sda.value == 0
    && (c.hdr.isAddressed || c.hdr.isBroadcast) && EdgeOf(c, s.scl.value, s.sda.value) == FallEdge
  }

  predicate Unanswered(c: Core, events: seq<Event>)
    decreases events
  {
    events != [] ==>
      !(events[0].Clock? && AnsweredRead(c, events[0].s)) && Unanswered(Next(c, events[0]), events[1..])
  }

  /** Outputs as the OD/PP table wants them. */
  predicate ObeysTable(events: seq<Event>) {
    forall i :: 0 <= i < |events| ==> (events[i].Clock? ==> TruthTable(events[i].s.dut, {}) == None)
  }

  lemma NotReading(c: Core, s: Sample)
    requires !c.ccc.inRead && !AnsweredRead(c, s)
    ensures !CoreStep(c, s).ccc.inRead
  {
    hide OnRise, OnFall, OnStart, OnStop, OnHdrExit;
    if s.Defined() {
      EdgesDoNotRead(c, s.sda.value, s.dut.Driving());
      if EdgeOf(c, s.scl.value, s.sda.value) == FallEdge { FallDoesNotRead(c, s.sda.value); }
    }
  }

  lemma EdgesDoNotRead(c: Core, sda: Bit, driving: bool)
    requires !c.ccc.inRead
    ensures !OnRise(c, sda, driving).ccc.inRead && !OnStart(c).ccc.inRead
    ensures !OnStop(c).ccc.inRead && !OnHdrExit(c).ccc.inRead
  {
  }

  lemma FallDoesNotRead(c: Core, sda: Bit)
    requires !c.ccc.inRead
    requires !(c.phase == ADDR_ACK && c.hdr.rnw != 0 && sda == 0 && (c.hdr.isAddressed || c.hdr.isBroadcast))
    ensures !OnFall(c, sda).ccc.inRead
  {
    hide MatchesDut, MatchesVirt;
  }

  lemma NoFault(c: Core, s: Sample, sup: set<CheckId>)
    requires !c.ccc.inRead && TruthTable(s.dut, {}) == None
    ensures Fault(c, s, sup) == None
  {
  }

  lemma {:induction false} NoFaults(c: Core, events: seq<Event>, sup: set<CheckId>)
    requires !c.ccc.inRead && ObeysTable(events) && Unanswered(c, events)
    ensures FirstFault(c, events, sup) == None
    decreases events
  {
    hide CoreStep, Fault, AnsweredRead, TruthTable;
    if events != [] {
      var e := events[0];
      if e.Clock? {
        NoFault(c, e.s, sup);
        NotReading(c, e.s);
      }
      NoFaults(Next(c, e), events[1..], sup);
    }
  }

  /**
    A DUT that never drives, whose outputs agree with that, and whose reads
    nobody else answers, is never flagged.
   */
  lemma SilentDutNeverFlagged(events: seq<Event>, sup: set<CheckId>)
    requires NeverDrives(events) && ObeysTable(events) && Unanswered(INITIAL_CORE, events)
    ensures FirstRaise(INITIAL_CORE, INITIAL_DEADLINES, events, sup) == None
  {
    SilentDutVerdict(events, sup);
    NoFaults(INITIAL_CORE, events, sup);
  }
}
