/**
  What every reachable state of the bus monitor satisfies, for every stream of
  samples and every moment at which the DUT's addresses become known.
 */
module BusMonitorInvariants {
  import opened Wrappers
  import opened Bits
  import opened BusMonitorModel

  predicate AccumulatesByte(p: Phase) {
    p == WRITE_DATA || p == READ_DATA || p == CCC_BYTE
  }

  predicate CountsEightBits(p: Phase) {
    AccumulatesByte(p) || p == IBI_MDB || p == IBI_DATA
  }

  predicate NinthBit(p: Phase) {
    p == WRITE_TBIT || p == READ_TBIT || p == CCC_TBIT || p == IBI_DATA_TBIT
  }

  predicate IbiPhase(p: Phase) {
    p == IBI_ADDR_ACK || p == IBI_MDB || p == IBI_DATA || p == IBI_DATA_TBIT
  }

  predicate WritePhase(p: Phase) { p == WRITE_DATA || p == WRITE_TBIT }

  predicate ReadPhase(p: Phase) { p == READ_DATA || p == READ_TBIT }

  predicate CccPhase(p: Phase) { p == CCC_BYTE || p == CCC_TBIT }

  predicate IsByte(v: int) { 0 <= v < 256 }

  predicate AllBytes(s: seq<int>) { forall i :: 0 <= i < |s| ==> IsByte(s[i]) }

  /** Accumulators and counters are as wide as the bits clocked so far. */
  predicate Widths(c: Core) {
    && 0 <= c.hdr.addrAccum < 128 && IsByte(c.dataAccum)
    && (c.phase == ADDR_BITS ==>
          && c.bitCount <= 8 && (c.bitCount == 8 ==> c.prevScl == 1)
          && c.hdr.addrAccum < Pow2(Min(c.bitCount, 7)))
    && (CountsEightBits(c.phase) ==> c.bitCount < 8)
    && (NinthBit(c.phase) ==> c.bitCount == 0)
    && (AccumulatesByte(c.phase) ==> c.dataAccum < Pow2(c.bitCount + c.prevScl))
    && (c.phase == ENTDAA ==> c.ccc.entdaaBits <= 72)
  }

  /** Where a phase can be entered, and what the header said when it was. */
  predicate Phases(c: Core) {
    && c.phase != START && c.phase != IBI_ADDR_BITS && 0 <= c.hdr.rnw <= 1
    && (c.phase != IDLE && c.phase != HDR_MODE ==> c.busActive && c.hdr.dutDroveAddr.Some?)
    && (c.phase == HDR_MODE ==> !c.busActive)
    && (WritePhase(c.phase) || ReadPhase(c.phase) ==> c.hdr.isAddressed || c.hdr.isBroadcast)
    && (WritePhase(c.phase) || CccPhase(c.phase) ==> c.hdr.rnw == 0)
    && (ReadPhase(c.phase) || c.phase == ENTDAA ==> c.hdr.rnw == 1)
    && (IbiPhase(c.phase) ==> c.hdr.isIbi && c.hdr.isAddressed && c.hdr.rnw == 1 && !c.hdr.isSr)
  }

  /** The CCC context names a command and a target whenever it says a direct phase is on. */
  predicate Context(c: Core) {
    && (c.ccc.inRead || c.ccc.inWrite ==> c.ccc.code.Some? && c.ccc.directAddr.Some?)
    && (c.ccc.inRead ==> ReadPhase(c.phase))
    && (c.ccc.code.Some? ==> c.busActive && IsByte(c.ccc.code.value) && !IsEnthdr(c.ccc.code.value))
    && (CccPhase(c.phase) ==> !c.ccc.inRead && !c.ccc.inWrite && (c.ccc.code.Some? <==> c.byteInMsg > 0))
    && (c.ccc.writeBytes != [] || c.ccc.readBytes != [] ==> c.ccc.directAddr.Some?)
    && (c.ccc.directAddr.Some? ==> 0 <= c.ccc.directAddr.value < 128)
    && (c.ccc.definingByte.Some? ==> c.ccc.code.Some? && IsByte(c.ccc.definingByte.value))
    && AllBytes(c.ccc.writeBytes) && AllBytes(c.ccc.readBytes)
  }

  predicate Inv(c: Core) {
    Widths(c) && Phases(c) && Context(c)
  }

  // Each of the three parts is kept handler by handler; the lemmas above a
  // handler hide its body, and the step lemma hides the parts.

  // What each part depends on.

  lemma WidthsFrame(c: Core, d: Core)
    requires Widths(c)
    requires d.phase == c.phase && d.bitCount == c.bitCount && d.dataAccum == c.dataAccum && d.hdr == c.hdr
    requires d.ccc == c.ccc && (d.prevScl == c.prevScl || (!AccumulatesByte(c.phase) && c.phase != ADDR_BITS))
    ensures Widths(d)
  {
  }

  lemma PhasesFrame(c: Core, d: Core)
    requires Phases(c) && d.phase == c.phase && d.hdr == c.hdr && d.busActive == c.busActive
    ensures Phases(d)
  {
  }

  lemma ContextFrame(c: Core, d: Core)
    requires Context(c) && d.phase == c.phase && d.ccc == c.ccc && d.busActive == c.busActive
    requires d.byteInMsg == c.byteInMsg
    ensures Context(d)
  {
  }

  lemma WidthsStartStop(c: Core, sda: Bit)
    requires Widths(c)
    ensures Widths(OnStart(c).(prevScl := 1, prevSda := sda))
    ensures Widths(OnStop(c).(prevScl := 1, prevSda := sda))
    ensures c.ccc.code == None ==> Widths(OnHdrExit(c).(prevScl := 1, prevSda := sda))
  {
  }

  lemma PhasesStartStop(c: Core, sda: Bit)
    requires Phases(c)
    ensures Phases(OnStart(c).(prevScl := 1, prevSda := sda))
    ensures Phases(OnStop(c).(prevScl := 1, prevSda := sda))
    ensures c.ccc.code == None ==> Phases(OnHdrExit(c).(prevScl := 1, prevSda := sda))
  {
  }

  lemma ContextStartStop(c: Core, sda: Bit)
    requires Context(c)
    ensures Context(OnStart(c).(prevScl := 1, prevSda := sda))
    ensures Context(OnStop(c).(prevScl := 1, prevSda := sda))
    ensures c.ccc.code == None ==> Context(OnHdrExit(c).(prevScl := 1, prevSda := sda))
  {
  }

  lemma WidthsAddrBitRise(c: Core, sda: Bit, driving: bool)
    requires Widths(c) && c.prevScl == 0 && c.phase == ADDR_BITS
    ensures Widths(AddrBitRise(c, sda, driving).(prevScl := 1, prevSda := sda))
  {
    Pow2Small();
    Pow2Monotone(Min(c.bitCount + 1, 7), 7);
  }

  lemma WidthsByteRise(c: Core, sda: Bit)
    requires Widths(c) && c.prevScl == 0 && AccumulatesByte(c.phase)
    ensures Widths(c.(dataAccum := c.dataAccum * 2 + sda, prevScl := 1, prevSda := sda))
  {
    Pow2Small();
    Pow2Monotone(c.bitCount + 1, 8);
  }

  lemma WidthsRise(c: Core, sda: Bit, driving: bool)
    requires Widths(c) && c.prevScl == 0 && c.phase != IBI_ADDR_BITS
    ensures Widths(OnRise(c, sda, driving).(prevScl := 1, prevSda := sda))
  {
    hide Widths, AddrBitRise;
    var c1 := c.(stats := c.stats.(sclEdges := c.stats.sclEdges + 1));
    WidthsFrame(c, c1);
    if c.phase == ADDR_BITS {
      WidthsAddrBitRise(c1, sda, driving);
    } else if AccumulatesByte(c.phase) {
      WidthsByteRise(c1, sda);
    } else {
      WidthsFrame(c, c1.(prevScl := 1, prevSda := sda));
    }
  }

  lemma PhasesAddrBitRise(c: Core, sda: Bit, driving: bool)
    requires Phases(c) && c.phase == ADDR_BITS
    ensures Phases(AddrBitRise(c, sda, driving))
  {
  }

  lemma PhasesRise(c: Core, sda: Bit, driving: bool)
    requires Phases(c) && c.phase != IBI_ADDR_BITS
    ensures Phases(OnRise(c, sda, driving).(prevScl := 1, prevSda := sda))
  {
    hide AddrBitRise, Phases;
    var d := OnRise(c, sda, driving).(prevScl := 1, prevSda := sda);
    if c.phase == ADDR_BITS {
      var c1 := c.(stats := c.stats.(sclEdges := c.stats.sclEdges + 1));
      PhasesFrame(c, c1);
      PhasesAddrBitRise(c1, sda, driving);
      PhasesFrame(AddrBitRise(c1, sda, driving), d);
    } else {
      PhasesFrame(c, d);
    }
  }

  lemma ContextRise(c: Core, sda: Bit, driving: bool)
    requires Context(c)
    ensures Context(OnRise(c, sda, driving).(prevScl := 1, prevSda := sda))
  {
    hide Context;
    ContextFrame(c, OnRise(c, sda, driving).(prevScl := 1, prevSda := sda));
  }

  predicate NinthBitOf(p: Phase, tbit: Phase) {
    (p == WRITE_DATA && tbit == WRITE_TBIT) || (p == READ_DATA && tbit == READ_TBIT) ||
    (p == CCC_BYTE && tbit == CCC_TBIT) || ((p == IBI_MDB || p == IBI_DATA) && tbit == IBI_DATA_TBIT)
  }

  lemma WidthsDataBitFall(c: Core, tbit: Phase, sda: Bit)
    requires Widths(c) && c.prevScl == 1 && NinthBitOf(c.phase, tbit)
    ensures Widths(DataBitFall(c, tbit).(prevScl := 0, prevSda := sda))
  {
    hide Pow2;
  }

  lemma WidthsAddrBitFall(c: Core, sda: Bit)
    requires Widths(c) && c.prevScl == 1 && c.phase == ADDR_BITS
    ensures Widths(AddrBitFall(c).(prevScl := 0, prevSda := sda))
  {
  }

  lemma WidthsAckFall(c: Core, sda: Bit)
    requires Widths(c) && c.prevScl == 1 && (c.phase == ADDR_ACK || c.phase == IBI_ADDR_ACK)
    ensures Widths(OnFall(c, sda).(prevScl := 0, prevSda := sda))
  {
    hide DataBitFall, AddrBitFall, WriteTbitFall, ReadTbitFall, IbiDataTbitFall, CccTbitFall, EntdaaFall;
  }

  lemma WidthsTbitFall(c: Core, sda: Bit)
    requires Widths(c) && c.prevScl == 1 && NinthBit(c.phase)
    ensures Widths(OnFall(c, sda).(prevScl := 0, prevSda := sda))
  {
    hide DataBitFall, AddrBitFall, AddrAckFall, IbiAckFall, EntdaaFall;
  }

  lemma WidthsOtherFall(c: Core, sda: Bit)
    requires Widths(c) && c.prevScl == 1 && c.phase in {IDLE, START, ENTDAA, HDR_MODE}
    ensures Widths(OnFall(c, sda).(prevScl := 0, prevSda := sda))
  {
    hide Pow2, DataBitFall, AddrBitFall, AddrAckFall, IbiAckFall, WriteTbitFall, ReadTbitFall, IbiDataTbitFall,
         CccTbitFall;
  }

  lemma WidthsFall(c: Core, sda: Bit)
    requires Widths(c) && c.prevScl == 1 && c.phase != IBI_ADDR_BITS
    ensures Widths(OnFall(c, sda).(prevScl := 0, prevSda := sda))
  {
    hide Widths, DataBitFall, AddrBitFall, AddrAckFall, IbiAckFall, WriteTbitFall, ReadTbitFall, IbiDataTbitFall,
         CccTbitFall, EntdaaFall;
    match c.phase
    case ADDR_BITS => WidthsAddrBitFall(c, sda);
    case WRITE_DATA => WidthsDataBitFall(c, WRITE_TBIT, sda);
    case READ_DATA => WidthsDataBitFall(c, READ_TBIT, sda);
    case CCC_BYTE => WidthsDataBitFall(c, CCC_TBIT, sda);
    case IBI_MDB | IBI_DATA => WidthsDataBitFall(c, IBI_DATA_TBIT, sda);
    case ADDR_ACK | IBI_ADDR_ACK => WidthsAckFall(c, sda);
    case WRITE_TBIT | READ_TBIT | IBI_DATA_TBIT | CCC_TBIT => WidthsTbitFall(c, sda);
    case _ => WidthsOtherFall(c, sda);
  }

  lemma PhasesDataBitFall(c: Core, tbit: Phase, sda: Bit)
    requires Phases(c) && c.prevScl == 1 && NinthBitOf(c.phase, tbit)
    ensures Phases(DataBitFall(c, tbit).(prevScl := 0, prevSda := sda))
  {
  }

  lemma PhasesAddrBitFall(c: Core, sda: Bit)
    requires Phases(c) && c.prevScl == 1 && c.phase == ADDR_BITS
    ensures Phases(AddrBitFall(c).(prevScl := 0, prevSda := sda))
  {
  }

  lemma PhasesAddrAckFall(c: Core, sda: Bit)
    requires Phases(c) && c.prevScl == 1 && c.phase == ADDR_ACK
    ensures Phases(AddrAckFall(c, sda).(prevScl := 0, prevSda := sda))
  {
  }

  lemma PhasesCccTbitFall(c: Core, sda: Bit)
    requires Phases(c) && c.prevScl == 1 && c.phase == CCC_TBIT
    ensures Phases(CccTbitFall(c).(prevScl := 0, prevSda := sda))
  {
  }

  lemma PhasesFall(c: Core, sda: Bit)
    requires Phases(c) && c.prevScl == 1
    ensures Phases(OnFall(c, sda).(prevScl := 0, prevSda := sda))
  {
    hide AddrAckFall, AddrBitFall, CccTbitFall, DataBitFall;
    assert c.phase != IBI_ADDR_BITS;
    match c.phase
    case ADDR_BITS => PhasesAddrBitFall(c, sda);
    case ADDR_ACK => PhasesAddrAckFall(c, sda);
    case WRITE_DATA => PhasesDataBitFall(c, WRITE_TBIT, sda);
    case READ_DATA => PhasesDataBitFall(c, READ_TBIT, sda);
    case CCC_BYTE => PhasesDataBitFall(c, CCC_TBIT, sda);
    case IBI_MDB | IBI_DATA => PhasesDataBitFall(c, IBI_DATA_TBIT, sda);
    case CCC_TBIT => PhasesCccTbitFall(c, sda);
    case _ =>
  }

  lemma ContextAddrAckFall(c: Core, sda: Bit)
    requires Context(c) && c.prevScl == 1 && c.phase == ADDR_ACK && c.busActive && 0 <= c.hdr.addrAccum < 128
    ensures Context(AddrAckFall(c, sda).(prevScl := 0, prevSda := sda))
  {
  }

  lemma ContextWriteTbitFall(c: Core, sda: Bit)
    requires Context(c) && c.prevScl == 1 && c.phase == WRITE_TBIT
    ensures Context(WriteTbitFall(c).(prevScl := 0, prevSda := sda))
  {
  }

  lemma ContextReadTbitFall(c: Core, sda: Bit)
    requires Context(c) && c.prevScl == 1 && c.phase == READ_TBIT
    ensures Context(ReadTbitFall(c).(prevScl := 0, prevSda := sda))
  {
  }

  lemma ContextCccTbitFall(c: Core, sda: Bit)
    requires Context(c) && c.prevScl == 1 && c.phase == CCC_TBIT && c.busActive
    ensures Context(CccTbitFall(c).(prevScl := 0, prevSda := sda))
  {
  }

  lemma ContextFall(c: Core, sda: Bit)
    requires Context(c) && c.prevScl == 1 && 0 <= c.hdr.addrAccum < 128 && c.phase != IBI_ADDR_BITS
    requires c.phase == ADDR_ACK || c.phase == CCC_TBIT ==> c.busActive
    ensures Context(OnFall(c, sda).(prevScl := 0, prevSda := sda))
  {
    hide AddrAckFall, CccTbitFall, WriteTbitFall, ReadTbitFall;
    match c.phase
    case ADDR_ACK => ContextAddrAckFall(c, sda);
    case WRITE_TBIT => ContextWriteTbitFall(c, sda);
    case READ_TBIT => ContextReadTbitFall(c, sda);
    case CCC_TBIT => ContextCccTbitFall(c, sda);
    case _ =>
  }

  lemma InvStep(c: Core, s: Sample)
    requires Inv(c)
    ensures Inv(CoreStep(c, s))
  {
    assert c.phase != IBI_ADDR_BITS && 0 <= c.hdr.addrAccum < 128 && (c.phase == HDR_MODE ==> c.ccc.code == None);
    StepParts(c, s);
  }

  lemma StepParts(c: Core, s: Sample)
    requires Widths(c) && Phases(c) && Context(c)
    requires c.phase != IBI_ADDR_BITS && 0 <= c.hdr.addrAccum < 128 && (c.phase == HDR_MODE ==> c.ccc.code == None)
    requires c.phase == ADDR_ACK || c.phase == CCC_TBIT ==> c.busActive
    ensures Widths(CoreStep(c, s)) && Phases(CoreStep(c, s)) && Context(CoreStep(c, s))
  {
    hide Widths, Phases, Context, OnStart, OnStop, OnHdrExit, OnRise, OnFall, EdgeOf;
    if s.Defined() {
      var scl, sda, driving := s.scl.value, s.sda.value, s.dut.Driving();
      EdgeLevels(c, scl, sda);
      match EdgeOf(c, scl, sda)
      case NoEdge => FrameParts(c, scl, sda);
      case StartEdge =>
        FrameParts(c, scl, sda);
        WidthsStartStop(c, sda); PhasesStartStop(c, sda); ContextStartStop(c, sda);
      case StopEdge =>
        WidthsStartStop(c, sda); PhasesStartStop(c, sda); ContextStartStop(c, sda);
      case RiseEdge =>
        if c.phase == HDR_MODE { FrameParts(c, scl, sda); }
        WidthsRise(c, sda, driving); PhasesRise(c, sda, driving); ContextRise(c, sda, driving);
      case FallEdge =>
        if c.phase == HDR_MODE { FrameParts(c, scl, sda); }
        WidthsFall(c, sda); PhasesFall(c, sda); ContextFall(c, sda);
    }
  }

  lemma EdgeLevels(c: Core, scl: Bit, sda: Bit)
    ensures var e := EdgeOf(c, scl, sda);
      && (e == NoEdge ==> scl == c.prevScl) && (e == StartEdge || e == StopEdge ==> scl == c.prevScl == 1)
      && (e == RiseEdge ==> c.prevScl == 0 && scl == 1) && (e == FallEdge ==> c.prevScl == 1 && scl == 0)
  {
  }

  /** Levels alone: in HDR mode they change nothing else, and elsewhere SCL stays. */
  lemma FrameParts(c: Core, scl: Bit, sda: Bit)
    requires Widths(c) && Phases(c) && Context(c) && (scl == c.prevScl || c.phase == HDR_MODE)
    ensures var d := c.(prevScl := scl, prevSda := sda); Widths(d) && Phases(d) && Context(d)
  {
    hide Widths, Phases, Context;
    var d := c.(prevScl := scl, prevSda := sda);
    WidthsFrame(c, d); PhasesFrame(c, d); ContextFrame(c, d);
  }

  // ---------------------------------------------------------------------
  // Runs
  // ---------------------------------------------------------------------

  /** A clock sample, or the monitor being told an address that was assigned. */
  datatype Event = Clock(s: Sample) | SetDut(addr: Address) | SetVirt(addr: Address)

  function Next(c: Core, e: Event): Core {
    match e
    case Clock(s) => CoreStep(c, s)
    case SetDut(addr) => c.(own := c.own.(dut := Some(addr)))
    case SetVirt(addr) => c.(own := c.own.(virt := Some(addr)))
  }

  function After(c: Core, events: seq<Event>): Core
    decreases events
  {
    if events == [] then c else After(Next(c, events[0]), events[1..])
  }

  lemma InvAddresses(c: Core, own: Own)
    requires Inv(c)
    ensures Inv(c.(own := own))
  {
    hide Widths, Phases, Context;
    var d := c.(own := own);
    WidthsFrame(c, d); PhasesFrame(c, d); ContextFrame(c, d);
  }

  lemma {:induction false} InvAfter(c: Core, events: seq<Event>)
    requires Inv(c)
    ensures Inv(After(c, events))
    decreases events
  {
    hide Inv, CoreStep;
    if events != [] {
      var e := events[0];
      if e.Clock? { InvStep(c, e.s); } else { InvAddresses(c, Next(c, e).own); }
      InvAfter(Next(c, e), events[1..]);
    }
  }

  /** Every reachable state satisfies the invariant. */
  lemma Reachable(events: seq<Event>)
    ensures Inv(After(INITIAL_CORE, events))
  {
    InvAfter(INITIAL_CORE, events);
  }

  /** HDR mode is left by a STOP and by nothing else. */
  lemma HdrLeftOnlyByStop(c: Core, e: Event)
    requires c.phase == HDR_MODE
    ensures Next(c, e).phase == HDR_MODE <==>
            !(e.Clock? && e.s.Defined() && EdgeOf(c, e.s.scl.value, e.s.sda.value) == StopEdge)
    ensures Next(c, e).phase == HDR_MODE || Next(c, e).phase == IDLE
  {
  }

  /**
    Check 11 never fires: a transfer to a non-matching address leaves the
    monitor IDLE, so the data phases it looks at are always addressed ones.
   */
  lemma TargetSilentNeverRaised(events: seq<Event>, s: Sample, sup: set<CheckId>)
    ensures var c := After(INITIAL_CORE, events);
      s.Defined() && EdgeOf(c, s.scl.value, s.sda.value) == FallEdge && c.phase != HDR_MODE ==>
        TargetSilent(OnFall(c, s.sda.value).phase, OnFall(c, s.sda.value).hdr, s.dut, sup) == None
  {
    Reachable(events);
    InvStep(After(INITIAL_CORE, events), s);
  }
}
