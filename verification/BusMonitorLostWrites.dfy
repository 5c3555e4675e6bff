/**
  A run that records two violations: the DUT is told two values for a register
  which does not take them, and the monitor goes on.
 */
module BusMonitorLostWrites {
  import opened Wrappers
  import opened BusMonitorModel
  import opened BusMonitorInvariants
  import opened BusMonitorRuns
  import opened BusMonitorSilence
  import opened BusMonitorDecode
  import opened BusMonitorFrames
  import opened BusMonitorResponses

  /** Samples with undefined outputs and registers. */
  predicate Blank(ss: seq<Sample>) {
    forall i :: 0 <= i < |ss| ==> ss[i].dut == Dut(None, None, None) && ss[i].sigs == NO_SIGNALS
  }

  lemma BlankAppend(x: seq<Sample>, y: seq<Sample>)
    requires Blank(x) && Blank(y)
    ensures Blank(x + y)
  {
  }

  lemma {:induction false} FlatIsBlank(ks: seq<Clk>)
    requires forall i :: 0 <= i < |ks| ==> ks[i] == ClkOf(0) || ks[i] == ClkOf(1)
    ensures Blank(Flat(ks))
    decreases ks
  {
    if ks != [] { FlatIsBlank(ks[1..]); }
  }

  lemma ByteIsBlank(v: Byte)
    ensures Blank(Flat(ByteOf(v)))
  {
    hide Flat, BitAt, Blank;
    FlatIsBlank(ByteOf(v));
  }

  lemma {:induction false} BytesAreBlank(bs: seq<Byte>)
    ensures Blank(FlatBytes(BytesOf(bs)))
    decreases bs
  {
    hide Flat, ByteOf;
    if bs != [] {
      assert BytesOf(bs)[0] == ByteOf(bs[0]) && BytesOf(bs)[1..] == BytesOf(bs[1..]);
      ByteIsBlank(bs[0]);
      BytesAreBlank(bs[1..]);
    }
  }

  lemma SegIsBlank(s: Seg)
    ensures Blank(SegSamples(SegOf(s)))
  {
    hide Flat, FlatBytes, ByteOf, BytesOf;
    ByteIsBlank(s.addr * 2 + if s.read then 1 else 0);
    BytesAreBlank(s.bytes);
  }

  lemma {:induction false} SegsAreBlank(ws: seq<SegWave>, ss: seq<Seg>)
    requires |ws| == |ss| && forall i :: 0 <= i < |ss| ==> ws[i] == SegOf(ss[i])
    ensures Blank(FlatSegs(ws))
    decreases ss
  {
    hide SegSamples, SegOf;
    if ss != [] {
      SegIsBlank(ss[0]);
      SegsAreBlank(ws[1..], ss[1..]);
    }
  }

  lemma FrameIsBlank(f: Frame)
    ensures Blank(FrameSamples(WaveOf(f)))
  {
    hide Flat, FlatBytes, FlatSegs, ByteOf, BytesOf, SegOf;
    ByteIsBlank(BROADCAST_ADDR * 2);
    ByteIsBlank(f.code);
    BytesAreBlank(f.extra);
    var w := WaveOf(f);
    SegsAreBlank(w.segs, f.segs);
    assert Blank(StartSamples(w.start)) && Blank(w.low + ([w.rise] + w.high)) && Blank(w.idle);
    BlankAppend(Flat(w.code), FlatBytes(w.extra));
    BlankAppend(Flat(w.header), Flat(w.code) + FlatBytes(w.extra));
    BlankAppend(StartSamples(w.start), Flat(w.header) + (Flat(w.code) + FlatBytes(w.extra)));
    assert Blank(CommandSamples(w));
    BlankAppend(FlatSegs(w.segs), w.low + ([w.rise] + w.high));
  }

  /** Without registers nothing is recorded. */
  lemma {:induction false} BlankRecordsNone(c: Core, d: Deadlines, ss: seq<Sample>)
    requires Blank(ss)
    ensures Mismatches(c, d, Clocks(ss), {}) == 0
    decreases ss
  {
    hide CoreStep, DeadlineStep, RaisedBy, EdgeOf, WrongResponse;
    if ss != [] {
      assert ss[0].sigs == NO_SIGNALS;
      assert Clocks(ss)[1..] == Clocks(ss[1..]);
      BlankRecordsNone(CoreStep(c, ss[0]), DeadlineStep(d, c, ss[0]), ss[1..]);
    }
  }

  // ---------------------------------------------------------------------
  // One frame
  // ---------------------------------------------------------------------

  /** SETMWL to the DUT. */
  function SetMwl(addr: Address, b0: Byte, b1: Byte): Frame {
    Frame(0x89, [], [Seg(addr, false, [b0, b1])])
  }

  /** The frame and its STOP, at which the register holds `held`. */
  function OneSet(addr: Address, b0: Byte, b1: Byte, held: nat): seq<Sample> {
    FrameSamples(WaveOf(SetMwl(addr, b0, b1))) + [StopWith(held)]
  }

  function StopWith(held: nat): Sample {
    Sample(Some(1), Some(1), Dut(None, None, None), Signals(None, Some(held), None), 0.0)
  }

  /** The bus is idle and high, and the DUT has its address. */
  predicate Waiting(c: Core, d: Deadlines, addr: Address) {
    && Inv(c) && Uninvolved(c, d) && c.own.dut == Some(addr)
    && c.prevScl == 1 && c.prevSda == 1 && c.phase == IDLE
  }

  lemma SetFrameFits(c: Core, addr: Address, b0: Byte, b1: Byte)
    requires c.own.dut == Some(addr) && addr != BROADCAST_ADDR
    ensures var f := SetMwl(addr, b0, b1);
      forall i :: 0 <= i < |f.segs| ==> Addressable(c.own, f.segs[i])
  {
  }

  lemma LostOnce(c: Core, d: Deadlines, addr: Address, b0: Byte, b1: Byte, held: nat, times: nat -> real)
    requires Waiting(c, d, addr) && addr != BROADCAST_ADDR && held != b0 as int * 256 + b1
    ensures var x := Clocks(Retimed(OneSet(addr, b0, b1, held), times));
      && FirstRaise(c, d, x, {}) == None && Mismatches(c, d, x, {}) == 1
      && Waiting(After(c, x), DeadlineAfter(d, c, x), addr)
  {
    hide FrameSamples, WaveOf, CoreRun, DeadlineRun, Inv, FirstRaise, Mismatches, Uninvolved, After, DeadlineAfter,
         IsFrame;
    var f, ss := SetMwl(addr, b0, b1), FrameSamples(WaveOf(SetMwl(addr, b0, b1)));
    var stop := StopWith(held).(now := times(|ss|));
    var x, y := Retimed(ss, times), [stop];
    RetimedAppend(ss, [StopWith(held)], times);
    assert Retimed(OneSet(addr, b0, b1, held), times) == x + y;
    FrameIsBlank(f);
    NothingFlagged(c, d, x, y);
    MismatchesAppend(c, d, Clocks(x), Clocks(y), {});
    assert Clocks(x + y) == Clocks(x) + Clocks(y);
    BlankRecordsNone(c, d, x);
    ClocksRun(c, d, x);
    RetimedRun(c, ss, times);
    WaveOfIsFrame(f);
    SetFrameFits(c, addr, b0, b1);
    DecodesFrame(c, WaveOf(f), f, stop);
    SetIsRecorded(c, WaveOf(f), f, d, stop);
    var e, de := CoreRun(c, ss), DeadlineRun(d, c, x);
    RecordedAtStop(e, de, stop);
    InvRun(c, x + y);
    ClocksRun(c, d, x + y);
    RunAppend(c, d, Clocks(x), Clocks(y));
    AfterStopWaits(e, de, stop, addr);
  }

  /** The blank frame and its STOP raise nothing. */
  lemma NothingFlagged(c: Core, d: Deadlines, x: seq<Sample>, y: seq<Sample>)
    requires Uninvolved(c, d) && Blank(x) && |y| == 1 && y[0].dut == Dut(None, None, None) && y[0].sigs.responses.None?
    ensures FirstRaise(c, d, Clocks(x), {}) == None && FirstRaise(c, d, Clocks(x + y), {}) == None
    ensures Uninvolved(CoreRun(c, x + y), DeadlineRun(d, c, x + y))
  {
    hide Uninvolved, FirstRaise, CoreRun, DeadlineRun;
    UndefinedRaisesNone(c, d, x, {});
    UndefinedRaisesNone(c, d, x + y, {});
  }

  lemma RecordedAtStop(c: Core, d: Deadlines, stop: Sample)
    requires Mismatch(c, Clock(stop), {}) && RaisedBy(c, d, stop, {}) == None
    ensures Mismatches(c, d, Clocks([stop]), {}) == 1
  {
    hide Mismatch, RaisedBy, CoreStep, DeadlineStep;
    assert Clocks([stop])[0] == Clock(stop) && Clocks([stop])[1..] == [];
    assert Mismatches(CoreStep(c, stop), DeadlineStep(d, c, stop), [], {}) == 0;
  }

  lemma AfterStopWaits(e: Core, d: Deadlines, stop: Sample, addr: Address)
    requires CoreStep(e, stop) == OnStop(e).(prevScl := 1, prevSda := 1) && e.own.dut == Some(addr)
    ensures var c := After(e, Clocks([stop]));
      c.own.dut == Some(addr) && c.prevScl == 1 && c.prevSda == 1 && c.phase == IDLE
  {
    hide CoreStep;
    ClocksRun(e, d, [stop]);
    RunOne(e, stop);
  }

  // ---------------------------------------------------------------------
  // Two frames
  // ---------------------------------------------------------------------

  /** The address is told, and the register is written twice. */
  function TwoSets(addr: Address, b0: Byte, b1: Byte, held: nat, times: nat -> real): seq<Event> {
    var once := OneSet(addr, b0, b1, held);
    [SetDut(addr)] + Clocks(Retimed(once + once, times))
  }

  /**
    For any DUT address, any value written, any other value held and any times
    of the samples: nothing is raised, and the log ends with two violations.
   */
  lemma TwoRecorded(addr: Address, b0: Byte, b1: Byte, held: nat, times: nat -> real)
    requires addr != BROADCAST_ADDR && held != b0 as int * 256 + b1
    ensures var events := TwoSets(addr, b0, b1, held, times);
      && FirstRaise(INITIAL_CORE, INITIAL_DEADLINES, events, {}) == None
      && LogAfter(Log([], 0), INITIAL_CORE, INITIAL_DEADLINES, events, {}) ==
         Log([SET_CSR_CONSISTENCY, SET_CSR_CONSISTENCY], 2)
  {
    hide OneSet, FirstRaise, Mismatches, After, DeadlineAfter, LogAfter, Waiting;
    var once := OneSet(addr, b0, b1, held);
    var x, y := Clocks(Retimed(once, times)), Clocks(Retimed(once, Later(times, |once|)));
    RetimedAppend(once, once, times);
    assert TwoSets(addr, b0, b1, held, times) == [SetDut(addr)] + (x + y);
    var c, d := Next(INITIAL_CORE, SetDut(addr)), INITIAL_DEADLINES;
    Begins(addr, x + y);
    LostOnce(c, d, addr, b0, b1, held, times);
    LostOnce(After(c, x), DeadlineAfter(d, c, x), addr, b0, b1, held, Later(times, |once|));
    MismatchesAppend(c, d, x, y, {});
    RaiseAppend(c, d, x, y, {});
    LogShape(Log([], 0), INITIAL_CORE, INITIAL_DEADLINES, [SetDut(addr)] + (x + y), {});
    assert Repeated(2) == [SET_CSR_CONSISTENCY, SET_CSR_CONSISTENCY];
  }

  lemma Begins(addr: Address, events: seq<Event>)
    ensures var c, d := Next(INITIAL_CORE, SetDut(addr)), INITIAL_DEADLINES;
      && Waiting(c, d, addr)
      && FirstRaise(INITIAL_CORE, d, [SetDut(addr)] + events, {}) == FirstRaise(c, d, events, {})
      && Mismatches(INITIAL_CORE, d, [SetDut(addr)] + events, {}) == Mismatches(c, d, events, {})
  {
    assert ([SetDut(addr)] + events)[1..] == events;
    Reachable([]);
    InvAddresses(INITIAL_CORE, Next(INITIAL_CORE, SetDut(addr)).own);
  }
}
