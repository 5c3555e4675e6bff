/**
  A run that misnames a violation: the DUT's address is told to the monitor, the
  DUT is read and then written to, it does not release the ACK of the write, and
  what is raised bears the name of the read.
 */
module BusMonitorStaleName {
  import opened Wrappers
  import opened Bits
  import opened BusMonitorModel
  import opened BusMonitorInvariants
  import opened BusMonitorRuns
  import opened BusMonitorSilence
  import opened BusMonitorDecode
  import opened BusMonitorFrames
  import opened BusMonitorDeadlines

  lemma {:induction false} RenamedAppend(c: Core, x: seq<Event>, y: seq<Event>)
    ensures Renamed(c, x + y) <==> Renamed(c, x) || Renamed(After(c, x), y)
    decreases x
  {
    hide Next, Renames;
    if x == [] {
      assert x + y == y;
    } else {
      assert (x + y)[0] == x[0] && (x + y)[1..] == x[1..] + y;
      RenamedAppend(Next(c, x[0]), x[1..], y);
    }
  }

  /** The samples name no check. */
  predicate NamesNothing(c: Core, ss: seq<Sample>) {
    !Renamed(c, Clocks(ss))
  }

  lemma NamesNothingAppend(c: Core, x: seq<Sample>, y: seq<Sample>)
    requires NamesNothing(c, x) && NamesNothing(CoreRun(c, x), y)
    ensures NamesNothing(c, x + y)
  {
    hide Renamed, After;
    assert Clocks(x + y) == Clocks(x) + Clocks(y);
    RenamedAppend(c, Clocks(x), Clocks(y));
    ClocksRun(c, INITIAL_DEADLINES, x);
  }

  lemma OneNamesNothing(c: Core, s: Sample)
    requires !Renames(c, s)
    ensures NamesNothing(c, [s])
  {
    hide Renames;
    assert Clocks([s])[0] == Clock(s) && Clocks([s])[1..] == [];
    assert !Renamed(Next(c, Clock(s)), []);
  }

  predicate NamingPhase(p: Phase) {
    p == READ_TBIT || p == IBI_DATA_TBIT || p == ENTDAA
  }

  lemma SamplePhase(c: Core, s: Sample)
    ensures !NamingPhase(c.phase) ==> !Renames(c, s)
    ensures c.prevScl == 1 ==> !Renames(c, s)
  {
  }

  /** A clock in another phase. */
  lemma ClkNamesNothing(c: Core, b: Bit)
    requires c.prevScl == 0 && c.phase != HDR_MODE && !NamingPhase(c.phase)
    ensures NamesNothing(c, ClkSamples(ClkOf(b)))
  {
    hide Renames, CoreStep, NamesNothing;
    var k := ClkOf(b);
    assert ClkSamples(k) == [k.rise] + [k.fall];
    SamplePhase(c, k.rise);
    OneNamesNothing(c, k.rise);
    RunOne(c, k.rise);
    RiseLevel(c, k.rise);
    SamplePhase(CoreStep(c, k.rise), k.fall);
    OneNamesNothing(CoreStep(c, k.rise), k.fall);
    NamesNothingAppend(c, [k.rise], [k.fall]);
  }

  lemma RiseLevel(c: Core, s: Sample)
    requires s.Defined()
    ensures CoreStep(c, s).prevScl == s.scl.value
  {
    hide OnEdge;
  }

  lemma {:induction false} HeaderNamesNothing(c: Core, v: Byte, n: nat)
    requires HeaderStart(c) && n <= 8
    ensures NamesNothing(c, Flat(ByteOf(v)[..n]))
    decreases n
  {
    hide CoreRun, NamesNothing, HeaderStart, Clocks, Shr, BitAt, MatchesDut;
    if n == 0 {
      assert ByteOf(v)[..0] == [] && Flat([]) == [];
      EmptyNamesNothing(c);
    } else {
      var init, k := ByteOf(v)[..n - 1], ByteOf(v)[n - 1];
      HeaderNamesNothing(c, v, n - 1);
      assert ByteOf(v)[..n] == init + [k];
      FlatAppend(init, k);
      ByteOfCarries(v);
      AddrBits(c, ByteOf(v), v, n - 1);
      var d := CoreRun(c, Flat(init));
      ClkNamesNothing(d, BitAt(v, n - 1));
      NamesNothingAppend(c, Flat(init), ClkSamples(k));
    }
  }

  lemma EmptyNamesNothing(c: Core)
    ensures NamesNothing(c, [])
  {
  }

  // ---------------------------------------------------------------------
  // The run
  // ---------------------------------------------------------------------

  /** SCL rises, Repeated START, and the eight bits of a header. */
  function SrHeader(addr: Address, read: bool): seq<Sample> {
    [Level(1, 1)] + (StartSamples(SHORTEST_START) + Flat(ByteOf(addr * 2 + if read then 1 else 0)[..8]))
  }

  predicate AtHeaderAck(e: Core, addr: Address, read: bool) {
    && e.phase == ADDR_ACK && e.hdr.addrAccum == addr && e.hdr.rnw == (if read then 1 else 0)
    && e.hdr.isAddressed && !e.hdr.isBroadcast && e.busActive && e.prevScl == 0
  }

  lemma SrHeaderEffect(c: Core, addr: Address, read: bool)
    requires c.prevScl == 0 && AccumulatesByte(c.phase) && c.busActive
    requires c.own.dut == Some(addr) && addr != BROADCAST_ADDR
    ensures var e := CoreRun(c, SrHeader(addr, read));
      && AtHeaderAck(e, addr, read) && e.own == c.own && e.ccc.code == c.ccc.code
      && NamesNothing(c, SrHeader(addr, read))
  {
    hide StartSamples, Flat, ByteOf, NamesNothing, CoreRun, AtHeaderAck, HeaderStart;
    var up, v := Level(1, 1), addr * 2 + if read then 1 else 0;
    ByteOfCarries(v);
    var st, hd := StartSamples(SHORTEST_START), Flat(ByteOf(v)[..8]);
    var c1 := CoreRun(c, [up]);
    var c2 := CoreRun(c1, st);
    SrRise(c);
    SrStart(c1);
    SrBits(c2, addr, read);
    CoreRunAppend(c, [up], st + hd);
    CoreRunAppend(c1, st, hd);
    HeaderNamesNothing(c2, v, 8);
    NamesNothingAppend(c1, st, hd);
    NamesNothingAppend(c, [up], st + hd);
  }

  lemma SrStart(c: Core)
    requires c.prevScl == 1 && c.prevSda == 1 && c.busActive && c.phase != HDR_MODE
    ensures var d := CoreRun(c, StartSamples(SHORTEST_START));
      && HeaderStart(d) && d.hdr.isSr && d.busActive && d.own == c.own && d.ccc.code == c.ccc.code
      && NamesNothing(c, StartSamples(SHORTEST_START))
  {
    hide StartSamples, NamesNothing, OnStart, CoreRun;
    StartEffect(c, SHORTEST_START);
    RepeatedStart(c);
    StartNamesNothing(c);
  }

  lemma SrBits(c: Core, addr: Address, read: bool)
    requires HeaderStart(c) && c.hdr.isSr && c.busActive && c.own.dut == Some(addr) && addr != BROADCAST_ADDR
    ensures var e := CoreRun(c, Flat(ByteOf(addr * 2 + if read then 1 else 0)[..8]));
      AtHeaderAck(e, addr, read) && e.own == c.own && e.ccc.code == c.ccc.code
  {
    hide ByteOf, Flat, CoreRun, CarriesByte;
    ByteOfCarries(addr * 2 + if read then 1 else 0);
    HeaderDecoded(c, ByteOf(addr * 2 + if read then 1 else 0), addr, read);
  }

  lemma SrRise(c: Core)
    requires c.prevScl == 0 && AccumulatesByte(c.phase) && c.busActive
    ensures var d := CoreRun(c, [Level(1, 1)]);
      && d.phase == c.phase && d.ccc == c.ccc && d.busActive && d.own == c.own && d.prevScl == 1 && d.prevSda == 1
    ensures NamesNothing(c, [Level(1, 1)])
  {
    RunOne(c, Level(1, 1));
    OneNamesNothing(c, Level(1, 1));
  }

  lemma StartNamesNothing(c: Core)
    requires c.prevScl == 1
    ensures NamesNothing(c, StartSamples(SHORTEST_START))
  {
    hide NamesNothing, CoreStep, Renames;
    var a, b := Level(1, 0), Level(0, 0);
    assert StartSamples(SHORTEST_START) == [a] + [b];
    SamplePhase(c, a);
    OneNamesNothing(c, a);
    RunOne(c, a);
    RiseLevel(c, a);
    SamplePhase(CoreStep(c, a), b);
    OneNamesNothing(CoreStep(c, a), b);
    NamesNothingAppend(c, [a], [b]);
  }

  /** START, a broadcast header, and the header that reads the DUT, up to its ACK bit. */
  function ToReadAck(addr: Address): seq<Sample> {
    (StartSamples(SHORTEST_START) + Flat(ByteOf(BROADCAST_ADDR * 2))) + SrHeader(addr, true)
  }

  lemma ReachesReadAck(c: Core, addr: Address)
    requires c.prevScl == 1 && c.prevSda == 1 && c.phase != HDR_MODE
    requires c.own.dut == Some(addr) && addr != BROADCAST_ADDR
    ensures var e := CoreRun(c, ToReadAck(addr)); AtHeaderAck(e, addr, true) && e.own == c.own && e.ccc.code == None
  {
    hide StartSamples, Flat, ByteOf, SrHeader, AddrAckFall, MatchesDut, OnStart;
    StartEffect(c, SHORTEST_START);
    AnyStart(c);
    var st, hd := StartSamples(SHORTEST_START), Flat(ByteOf(BROADCAST_ADDR * 2));
    var c1 := CoreRun(c, st);
    ByteOfCarries(BROADCAST_ADDR * 2);
    var e := HeaderEffect(c1, ByteOf(BROADCAST_ADDR * 2), BROADCAST_ADDR, false);
    BroadcastAck(e);
    CoreRunAppend(c, st, hd);
    var c2 := CoreRun(c1, hd);
    SrHeaderEffect(c2, addr, true);
    CoreRunAppend(c, st + hd, SrHeader(addr, true));
  }

  /** An ACK and the eight bits of a byte, up to the T-bit. */
  function ToTbit(v: Byte): seq<Sample> {
    ClkSamples(ClkOf(0)) + Flat(ByteOf(v)[..8])
  }

  lemma ReachesTbit(c: Core, addr: Address, v: Byte)
    requires AtHeaderAck(c, addr, true) && c.ccc.code == None
    ensures var e := CoreRun(c, ToTbit(v));
      && e.phase == READ_TBIT && e.hdr.isAddressed && e.prevScl == 0 && e.busActive && e.own == c.own
  {
    hide Flat, ByteOf, ClkSamples, Shr, BitAt, Pulse;
    ClkEffect(c, ClkOf(0), 0);
    var c1 := CoreRun(c, ClkSamples(ClkOf(0)));
    ReadAckPulse(c);
    ByteOfCarries(v);
    DataBits(c1, ByteOf(v), v, 8);
    CoreRunAppend(c, ClkSamples(ClkOf(0)), Flat(ByteOf(v)[..8]));
  }

  lemma ReadAckPulse(c: Core)
    requires c.phase == ADDR_ACK && c.hdr.rnw == 1 && c.hdr.isAddressed && !c.hdr.isBroadcast
    ensures var d := Pulse(c, 0, false);
      && ByteStart(d) && d.phase == READ_DATA && d.hdr == c.hdr && d.busActive == c.busActive && d.own == c.own
  {
  }

  /** After the T-bit: its fall, and the header that writes to the DUT. */
  lemma TbitThenWrite(c: Core, addr: Address)
    requires c.phase == READ_TBIT && c.prevScl == 1 && c.prevSda == 0 && c.busActive
    requires c.own.dut == Some(addr) && addr != BROADCAST_ADDR
    ensures var rest := [Level(0, 0)] + SrHeader(addr, false);
      AtHeaderAck(CoreRun(c, rest), addr, false) && NamesNothing(c, rest)
  {
    hide SrHeader, NamesNothing;
    TbitFall(c);
    OneNamesNothing(c, Level(0, 0));
    SrHeaderEffect(CoreRun(c, [Level(0, 0)]), addr, false);
    CoreRunAppend(c, [Level(0, 0)], SrHeader(addr, false));
    NamesNothingAppend(c, [Level(0, 0)], SrHeader(addr, false));
  }

  lemma TbitFall(c: Core)
    requires c.phase == READ_TBIT && c.prevScl == 1
    ensures var d := CoreRun(c, [Level(0, 0)]);
      d.phase == READ_DATA && d.prevScl == 0 && d.busActive == c.busActive && d.own == c.own
    ensures !Renames(c, Level(0, 0))
  {
    RunOne(c, Level(0, 0));
  }

  lemma TbitRise(c: Core, d: Deadlines)
    requires c.phase == READ_TBIT && c.hdr.isAddressed && c.prevScl == 0
    ensures var e := CoreStep(c, Level(1, 0));
      e.phase == READ_TBIT && e.prevScl == 1 && e.prevSda == 0 && e.busActive == c.busActive && e.own == c.own
    ensures DeadlineStep(d, c, Level(1, 0)).handoffId == READ_TBIT_RELEASE
  {
  }

  /** Everything after the address has been told. */
  function StaleRun(addr: Address, v: Byte): seq<Sample> {
    (ToReadAck(addr) + ToTbit(v)) + ([Level(1, 0)] + ([Level(0, 0)] + SrHeader(addr, false)))
  }

  /** At the end of the run the write is acknowledged, and its release check is named after the read. */
  lemma StaleScheduled(addr: Address, v: Byte)
    requires addr != BROADCAST_ADDR
    ensures var events, ack := [SetDut(addr)] + Clocks(StaleRun(addr, v)), Level(1, 0);
      var c, d := After(INITIAL_CORE, events), DeadlineAfter(INITIAL_DEADLINES, INITIAL_CORE, events);
      && WriteAck(c, ack) && c.hdr.isAddressed
      && DeadlineStep(d, c, ack).handoffTime == Some(ack.now + TSCO_MAX_NS)
      && DeadlineStep(d, c, ack).handoffId == READ_TBIT_RELEASE
  {
    hide ToReadAck, ToTbit, SrHeader, NamesNothing, After, DeadlineAfter, CoreStep, DeadlineStep, Renamed;
    var c0 := Next(INITIAL_CORE, SetDut(addr));
    StartsWithAddress(addr, Clocks(StaleRun(addr, v)));
    ClocksRun(c0, INITIAL_DEADLINES, StaleRun(addr, v));
    ReachesReadAck(c0, addr);
    var c1 := CoreRun(c0, ToReadAck(addr));
    ReachesTbit(c1, addr, v);
    var c2 := CoreRun(c1, ToTbit(v));
    CoreRunAppend(c0, ToReadAck(addr), ToTbit(v));
    var rest := [Level(0, 0)] + SrHeader(addr, false);
    StaleTail(c0, ToReadAck(addr) + ToTbit(v), c2, addr, rest);
  }

  lemma StartsWithAddress(addr: Address, events: seq<Event>)
    ensures var c0 := Next(INITIAL_CORE, SetDut(addr));
      && After(INITIAL_CORE, [SetDut(addr)] + events) == After(c0, events)
      && DeadlineAfter(INITIAL_DEADLINES, INITIAL_CORE, [SetDut(addr)] + events) ==
         DeadlineAfter(INITIAL_DEADLINES, c0, events)
  {
    assert ([SetDut(addr)] + events)[1..] == events;
  }

  lemma StaleTail(c0: Core, head: seq<Sample>, c2: Core, addr: Address, rest: seq<Sample>)
    requires c2 == CoreRun(c0, head) && rest == [Level(0, 0)] + SrHeader(addr, false)
    requires c2.phase == READ_TBIT && c2.hdr.isAddressed && c2.prevScl == 0 && c2.busActive
    requires c2.own.dut == Some(addr) && addr != BROADCAST_ADDR
    ensures var ss, ack := head + ([Level(1, 0)] + rest), Level(1, 0);
      var c, d := CoreRun(c0, ss), DeadlineRun(INITIAL_DEADLINES, c0, ss);
      && WriteAck(c, ack) && c.hdr.isAddressed
      && DeadlineStep(d, c, ack).handoffTime == Some(ack.now + TSCO_MAX_NS)
      && DeadlineStep(d, c, ack).handoffId == READ_TBIT_RELEASE
  {
    hide SrHeader, CoreStep, DeadlineStep, CoreRun, DeadlineRun;
    var d2 := DeadlineRun(INITIAL_DEADLINES, c0, head);
    var t := Level(1, 0);
    SamplesAppend(INITIAL_DEADLINES, c0, head, [t] + rest);
    SamplesAppend(d2, c2, [t], rest);
    SampleAlone(d2, c2, t);
    TbitRise(c2, d2);
    var c3, d3 := CoreStep(c2, t), DeadlineStep(d2, c2, t);
    TbitThenWrite(c3, addr);
    RenameRun(d3, c3, Clocks(rest));
    ClocksRun(c3, d3, rest);
    AckNamed(DeadlineRun(d3, c3, rest), CoreRun(c3, rest), addr);
  }

  lemma AckNamed(d: Deadlines, c: Core, addr: Address)
    requires AtHeaderAck(c, addr, false)
    ensures WriteAck(c, Level(1, 0)) && DeadlineStep(d, c, Level(1, 0)).handoffId == d.handoffId
    ensures DeadlineStep(d, c, Level(1, 0)).handoffTime == Some(0.0 + TSCO_MAX_NS)
  {
  }

  // ---------------------------------------------------------------------
  // The violation
  // ---------------------------------------------------------------------

  lemma IdAt(d: Deadlines, d1: Deadlines, c: Core, s: Sample, t: real)
    requires d.handoffId == d1.handoffId
    ensures DeadlineStep(d1, c, s.(now := t)).handoffId == DeadlineStep(d, c, s).handoffId
  {
  }

  /** The name of the release check does not depend on when the samples are taken. */
  lemma {:induction false} IdIgnoresTime(d: Deadlines, d1: Deadlines, c: Core, ss: seq<Sample>, times: nat -> real)
    requires d.handoffId == d1.handoffId
    ensures DeadlineRun(d1, c, Retimed(ss, times)).handoffId == DeadlineRun(d, c, ss).handoffId
    decreases ss
  {
    hide CoreStep, DeadlineStep;
    if ss != [] {
      var s := ss[0].(now := times(0));
      IdAt(d, d1, c, ss[0], times(0));
      StepIgnoresTime(c, ss[0], times(0));
      assert Retimed(ss, times)[0] == s && Retimed(ss, times)[1..] == Retimed(ss[1..], Later(times, 1));
      IdIgnoresTime(DeadlineStep(d, c, ss[0]), DeadlineStep(d1, c, s), CoreStep(c, ss[0]), ss[1..], Later(times, 1));
    }
  }

  /** The DUT still holds SDA low at `now`. */
  function StillDriving(now: real): Sample {
    Sample(Some(1), Some(0), Dut(Some(1), Some(0), Some(0)), NO_SIGNALS, now)
  }

  /** The read, the write and its ACK, at the given times, and the DUT still driving at `late`. */
  function StaleEvents(addr: Address, v: Byte, times: nat -> real, late: real): seq<Event> {
    [SetDut(addr)] + Clocks(Retimed(StaleRun(addr, v) + [Level(1, 0)], times) + [StillDriving(late)])
  }

  /**
    For any DUT address, any byte read and any times of the samples: a DUT that
    drives on for 12 ns behind the ACK of the write is flagged, as the first
    violation of the run, for not releasing a read T-bit.
   */
  lemma StaleName(addr: Address, v: Byte, times: nat -> real, late: real)
    requires addr != BROADCAST_ADDR && late >= times(|StaleRun(addr, v)|) + TSCO_MAX_NS
    ensures FirstRaise(INITIAL_CORE, INITIAL_DEADLINES, StaleEvents(addr, v, times, late), {}) ==
            Some(READ_TBIT_RELEASE)
  {
    hide StaleRun, After, DeadlineAfter, CoreRun, DeadlineRun, CoreStep, DeadlineStep, FirstRaise, Uninvolved;
    var c0, run, n := Next(INITIAL_CORE, SetDut(addr)), StaleRun(addr, v), |StaleRun(addr, v)|;
    var ack, before := Level(1, 0).(now := times(n)), Retimed(run, times);
    RetimedAppend(run, [Level(1, 0)], times);
    assert Retimed(run + [Level(1, 0)], times) == before + [ack];
    StaleScheduled(addr, v);
    StartsWithAddress(addr, Clocks(run));
    ClocksRun(c0, INITIAL_DEADLINES, run);
    RetimedRun(c0, run, times);
    IdIgnoresTime(INITIAL_DEADLINES, INITIAL_DEADLINES, c0, run, times);
    var c, d := CoreRun(c0, before), DeadlineRun(INITIAL_DEADLINES, c0, before);
    IdAt(DeadlineRun(INITIAL_DEADLINES, c0, run), d, c, Level(1, 0), times(n));
    StartUninvolved(addr);
    RunIsUndefined(addr, v, times);
    UndefinedRaisesNone(c0, INITIAL_DEADLINES, before + [ack], {});
    SamplesAppend(INITIAL_DEADLINES, c0, before, [ack]);
    SampleAlone(d, c, ack);
    AckPending(d, c, ack);
    var c1, d1 := CoreStep(c, ack), DeadlineStep(d, c, ack);
    StillDrivingRaises(c1, d1, late);
    FirstIsLast(addr, c0, before + [ack], StillDriving(late));
  }

  lemma StartUninvolved(addr: Address)
    ensures Uninvolved(Next(INITIAL_CORE, SetDut(addr)), INITIAL_DEADLINES)
  {
  }

  lemma AckPending(d: Deadlines, c: Core, s: Sample)
    requires WriteAck(c, s)
    ensures var c1, d1 := CoreStep(c, s), DeadlineStep(d, c, s);
      && d1.handoffTime == Some(s.now + TSCO_MAX_NS) && c1.prevScl == 1 && c1.prevSda == 0
  {
    hide OnRise;
  }

  lemma StillDrivingRaises(c: Core, d: Deadlines, late: real)
    requires c.prevScl == 1 && c.prevSda == 0 && d.handoffTime.Some? && late >= d.handoffTime.value
    ensures RaisedBy(c, d, StillDriving(late), {}) == Some(d.handoffId)
  {
  }

  lemma FirstIsLast(addr: Address, c0: Core, ss: seq<Sample>, s: Sample)
    requires c0 == Next(INITIAL_CORE, SetDut(addr)) && FirstRaise(c0, INITIAL_DEADLINES, Clocks(ss), {}) == None
    ensures FirstRaise(INITIAL_CORE, INITIAL_DEADLINES, [SetDut(addr)] + Clocks(ss + [s]), {}) ==
            RaisedBy(CoreRun(c0, ss), DeadlineRun(INITIAL_DEADLINES, c0, ss), s, {})
  {
    hide RaisedBy, CoreStep, DeadlineStep, CoreRun, DeadlineRun;
    assert ([SetDut(addr)] + Clocks(ss + [s]))[1..] == Clocks(ss) + Clocks([s]);
    LogAppend(Log([], 0), c0, INITIAL_DEADLINES, Clocks(ss), Clocks([s]), {});
    ClocksRun(c0, INITIAL_DEADLINES, ss);
    var c, d := CoreRun(c0, ss), DeadlineRun(INITIAL_DEADLINES, c0, ss);
    assert Clocks([s])[0] == Clock(s) && Clocks([s])[1..] == [];
    assert FirstRaise(CoreStep(c, s), DeadlineStep(d, c, s), [], {}) == None;
  }

  lemma UndefinedAppend(x: seq<Sample>, y: seq<Sample>)
    requires Undefined(x) && Undefined(y)
    ensures Undefined(x + y)
  {
  }

  lemma {:induction false} FlatIsUndefined(ks: seq<Clk>)
    requires forall i :: 0 <= i < |ks| ==> ks[i] == ClkOf(0) || ks[i] == ClkOf(1)
    ensures Undefined(Flat(ks))
    decreases ks
  {
    if ks != [] { FlatIsUndefined(ks[1..]); }
  }

  lemma BitsAreUndefined(v: Byte, n: nat)
    requires n <= 9
    ensures Undefined(Flat(ByteOf(v)[..n]))
  {
    hide BitAt, Flat;
    FlatIsUndefined(ByteOf(v)[..n]);
  }

  lemma SrIsUndefined(addr: Address, read: bool)
    ensures Undefined(SrHeader(addr, read))
  {
    hide Flat, ByteOf;
    BitsAreUndefined(addr * 2 + if read then 1 else 0, 8);
  }

  lemma RunIsUndefined(addr: Address, v: Byte, times: nat -> real)
    ensures Undefined(Retimed(StaleRun(addr, v) + [Level(1, 0)], times))
  {
    hide Flat, BitAt, SrHeader;
    BitsAreUndefined(BROADCAST_ADDR * 2, 9);
    assert ByteOf(BROADCAST_ADDR * 2)[..9] == ByteOf(BROADCAST_ADDR * 2);
    BitsAreUndefined(v, 8);
    SrIsUndefined(addr, true);
    SrIsUndefined(addr, false);
    UndefinedAppend(StartSamples(SHORTEST_START), Flat(ByteOf(BROADCAST_ADDR * 2)));
    UndefinedAppend(StartSamples(SHORTEST_START) + Flat(ByteOf(BROADCAST_ADDR * 2)), SrHeader(addr, true));
    UndefinedAppend(ClkSamples(ClkOf(0)), Flat(ByteOf(v)[..8]));
    UndefinedAppend(ToReadAck(addr), ToTbit(v));
    UndefinedAppend([Level(0, 0)], SrHeader(addr, false));
    UndefinedAppend([Level(1, 0)], [Level(0, 0)] + SrHeader(addr, false));
    UndefinedAppend(ToReadAck(addr) + ToTbit(v), [Level(1, 0)] + ([Level(0, 0)] + SrHeader(addr, false)));
    UndefinedAppend(StaleRun(addr, v), [Level(1, 0)]);
  }
}
