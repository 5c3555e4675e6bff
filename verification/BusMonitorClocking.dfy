/**
  What the monitor's state depends on, and how it counts clocks: the wire
  levels alone drive it, and between START and STOP every nine SCL falls are a byte.
 */
module BusMonitorClocking {
  import opened Wrappers
  import opened BusMonitorModel

  // ---------------------------------------------------------------------
  // Stutter insensitivity
  // ---------------------------------------------------------------------

  /** A change of the wires; `driving` is kept only where the monitor looks at it, on an SCL rise. */
  datatype Wire = Wire(scl: Bit, sda: Bit, driving: bool)

  /** The changes in a stream of samples that starts from the given levels. */
  function Wires(scl: Bit, sda: Bit, ss: seq<Sample>): seq<Wire>
    decreases ss
  {
    if ss == [] then []
    else
      var s := ss[0];
      if !s.Defined() || (s.scl.value == scl && s.sda.value == sda) then Wires(scl, sda, ss[1..])
      else
        [Wire(s.scl.value, s.sda.value, s.scl.value == 1 && scl == 0 && s.dut.Driving())] +
        Wires(s.scl.value, s.sda.value, ss[1..])
  }

  function WireStep(c: Core, w: Wire): Core {
    OnEdge(c, EdgeOf(c, w.scl, w.sda), w.sda, w.driving).(prevScl := w.scl, prevSda := w.sda)
  }

  function WireRun(c: Core, ws: seq<Wire>): Core
    decreases ws
  {
    if ws == [] then c else WireRun(WireStep(c, ws[0]), ws[1..])
  }

  lemma DrivingMattersOnRiseOnly(c: Core, s: Sample)
    requires s.Defined()
    ensures CoreStep(c, s) ==
            WireStep(c, Wire(s.scl.value, s.sda.value, s.scl.value == 1 && c.prevScl == 0 && s.dut.Driving()))
    ensures CoreStep(c, s).prevScl == s.scl.value && CoreStep(c, s).prevSda == s.sda.value
  {
    hide OnStart, OnStop, OnHdrExit, OnRise, OnFall;
  }

  lemma StutterStep(c: Core, s: Sample)
    requires s.Defined() ==> s.scl.value == c.prevScl && s.sda.value == c.prevSda
    ensures CoreStep(c, s) == c
  {
    hide OnStart, OnStop, OnHdrExit, OnRise, OnFall;
  }

  /** A run is the run over its wire changes. */
  lemma {:induction false} RunIsWireRun(c: Core, ss: seq<Sample>)
    ensures CoreRun(c, ss) == WireRun(c, Wires(c.prevScl, c.prevSda, ss))
    decreases ss
  {
    hide CoreStep, WireStep;
    if ss != [] {
      var s, rest := ss[0], ss[1..];
      RunIsWireRun(CoreStep(c, s), rest);
      if !s.Defined() || (s.scl.value == c.prevScl && s.sda.value == c.prevSda) {
        StutterStep(c, s);
      } else {
        DrivingMattersOnRiseOnly(c, s);
        var w := Wire(s.scl.value, s.sda.value, s.scl.value == 1 && c.prevScl == 0 && s.dut.Driving());
        var ws := Wires(s.scl.value, s.sda.value, rest);
        assert ([w] + ws)[1..] == ws;
      }
    }
  }

  /** Streams with the same wire changes drive the monitor to the same state. */
  lemma StutterInsensitive(c: Core, s1: seq<Sample>, s2: seq<Sample>)
    requires Wires(c.prevScl, c.prevSda, s1) == Wires(c.prevScl, c.prevSda, s2)
    ensures CoreRun(c, s1) == CoreRun(c, s2)
  {
    RunIsWireRun(c, s1);
    RunIsWireRun(c, s2);
  }

  // ---------------------------------------------------------------------
  // The nine-clock law
  // ---------------------------------------------------------------------

  function Falls(scl: Bit, ss: seq<Sample>): nat
    decreases ss
  {
    if ss == [] then 0
    else if !ss[0].Defined() then Falls(scl, ss[1..])
    else (if scl == 1 && ss[0].scl.value == 0 then 1 else 0) + Falls(ss[0].scl.value, ss[1..])
  }

  /** SDA is stable while SCL is high: no START and no STOP. */
  predicate Quiet(scl: Bit, sda: Bit, ss: seq<Sample>)
    decreases ss
  {
    ss != [] ==>
      if !ss[0].Defined() then Quiet(scl, sda, ss[1..])
      else
        && (scl == 1 && ss[0].scl.value == 1 ==> ss[0].sda.value == sda)
        && Quiet(ss[0].scl.value, ss[0].sda.value, ss[1..])
  }

  predicate AtClock(c: Core, k: nat, data: Phase, tbit: Phase) {
    if k % 9 == 8 then c.phase == tbit && c.bitCount == 0 else c.phase == data && c.bitCount == k % 9
  }

  /** State `c` is `k` SCL falls after the ACK fall that left the monitor in `c0`. */
  predicate Clocked(c0: Core, c: Core, k: nat) {
    match c0.phase
    case WRITE_DATA =>
      && AtClock(c, k, WRITE_DATA, WRITE_TBIT)
      && c.stats.writeBytes == c0.stats.writeBytes + k / 9 && c.stats.readBytes == c0.stats.readBytes
    case READ_DATA =>
      && AtClock(c, k, READ_DATA, READ_TBIT)
      && c.stats.readBytes == c0.stats.readBytes + k / 9 && c.stats.writeBytes == c0.stats.writeBytes
    case IBI_MDB =>
      && AtClock(c, k, if k < 8 then IBI_MDB else IBI_DATA, IBI_DATA_TBIT)
      && c.stats.readBytes == c0.stats.readBytes + k / 9 && c.stats.writeBytes == c0.stats.writeBytes
    case CCC_BYTE =>
      if c.phase == HDR_MODE then k >= 9 && !c.busActive && IsEnthdr(c.ccc.lastCode)
      else
        && AtClock(c, k, CCC_BYTE, CCC_TBIT) && c.byteInMsg == k / 9
        && (k >= 9 ==> c.ccc.code.Some? && !IsEnthdr(c.ccc.code.value))
    case ENTDAA =>
      if k < 73 then c.phase == ENTDAA && c.ccc.entdaaBits == k else c.phase == IDLE
    case _ => true
  }

  /** The state an ACK fall leaves at the head of a segment. */
  predicate SegmentEntry(c: Core) {
    match c.phase
    case WRITE_DATA | READ_DATA | IBI_MDB => c.bitCount == 0
    case CCC_BYTE => c.bitCount == 0 && c.byteInMsg == 0
    case ENTDAA => c.ccc.entdaaBits == 0
    case _ => false
  }

  lemma AckFallEntersSegment(c: Core, sda: Bit)
    requires c.phase == ADDR_ACK || c.phase == IBI_ADDR_ACK
    ensures OnFall(c, sda).phase == IDLE || SegmentEntry(OnFall(c, sda))
  {
  }

  lemma ClockedRise(c0: Core, c: Core, k: nat, sda: Bit, driving: bool)
    requires SegmentEntry(c0) && Clocked(c0, c, k) && c.phase != HDR_MODE
    ensures Clocked(c0, OnRise(c, sda, driving), k)
  {
    hide AddrBitRise;
  }

  lemma ClockedFall(c0: Core, c: Core, k: nat, sda: Bit)
    requires SegmentEntry(c0) && Clocked(c0, c, k) && c.phase != HDR_MODE
    ensures Clocked(c0, OnFall(c, sda), k + 1)
  {
    hide AddrBitFall, AddrAckFall, IbiAckFall;
  }

  lemma ClockedWires(c0: Core, c: Core, k: nat, scl: Bit, sda: Bit)
    requires Clocked(c0, c, k)
    ensures Clocked(c0, c.(prevScl := scl, prevSda := sda), k)
  {
  }

  lemma ClockedEdge(c0: Core, c: Core, k: nat, e: Edge, sda: Bit, driving: bool)
    requires SegmentEntry(c0) && Clocked(c0, c, k) && e != StartEdge && e != StopEdge
    ensures Clocked(c0, OnEdge(c, e, sda, driving), if e == FallEdge then k + 1 else k)
  {
    if c.phase == HDR_MODE {
      HdrIsFinal(c0, c, k);
    }
    hide OnRise, OnFall, SegmentEntry, Clocked;
    if c.phase != HDR_MODE {
      match e
      case RiseEdge => ClockedRise(c0, c, k, sda, driving);
      case FallEdge => ClockedFall(c0, c, k, sda);
      case _ =>
    }
  }

  lemma HdrIsFinal(c0: Core, c: Core, k: nat)
    requires SegmentEntry(c0) && Clocked(c0, c, k) && c.phase == HDR_MODE
    ensures Clocked(c0, c, k + 1)
  {
  }

  lemma ClockedStep(c0: Core, c: Core, k: nat, s: Sample)
    requires SegmentEntry(c0) && Clocked(c0, c, k) && Quiet(c.prevScl, c.prevSda, [s])
    ensures Clocked(c0, CoreStep(c, s), k + Falls(c.prevScl, [s]))
  {
    hide OnEdge, SegmentEntry, Clocked;
    if s.Defined() {
      var e := EdgeOf(c, s.scl.value, s.sda.value);
      ClockedEdge(c0, c, k, e, s.sda.value, s.dut.Driving());
      ClockedWires(c0, OnEdge(c, e, s.sda.value, s.dut.Driving()), k + Falls(c.prevScl, [s]), s.scl.value, s.sda.value);
    }
  }

  lemma {:induction false} ClockedRun(c0: Core, c: Core, k: nat, ss: seq<Sample>)
    requires SegmentEntry(c0) && Clocked(c0, c, k) && Quiet(c.prevScl, c.prevSda, ss)
    ensures Clocked(c0, CoreRun(c, ss), k + Falls(c.prevScl, ss))
    decreases ss
  {
    hide CoreStep, Clocked, SegmentEntry;
    if ss != [] {
      ClockedStep(c0, c, k, ss[0]);
      PrevLevels(c, ss[0]);
      ClockedRun(c0, CoreStep(c, ss[0]), k + Falls(c.prevScl, [ss[0]]), ss[1..]);
    }
  }

  lemma PrevLevels(c: Core, s: Sample)
    ensures s.Defined() ==> CoreStep(c, s).prevScl == s.scl.value && CoreStep(c, s).prevSda == s.sda.value
    ensures !s.Defined() ==> CoreStep(c, s) == c
  {
    hide OnEdge;
  }

  /** After `k` falls with no START or STOP a segment is exactly `k / 9` bytes and `k % 9` bits in. */
  lemma NineClockLaw(c: Core, ss: seq<Sample>)
    requires SegmentEntry(c) && Quiet(c.prevScl, c.prevSda, ss)
    ensures Clocked(c, CoreRun(c, ss), Falls(c.prevScl, ss))
  {
    ClockedRun(c, c, 0, ss);
  }
}
