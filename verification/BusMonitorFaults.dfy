/**
  Faults are found: a DUT that has kept to its part up to some clock and then
  drives where it must not, or in the wrong mode, ends the monitor at the rise
  of that clock, with the check that names the fault.
 */
module BusMonitorFaults {
  import opened Wrappers
  import opened Bits
  import opened BusMonitorModel
  import opened BusMonitorInvariants
  import opened BusMonitorRuns
  import opened BusMonitorDecode
  import opened BusMonitorFrames
  import opened BusMonitorIbi
  import opened BusMonitorConduct
  import opened BusMonitorTransfers
  import opened BusMonitorArbitration

  /** Driving, with outputs that fit together. */
  predicate Drives(dut: Dut) {
    Fits(dut) && dut.oe == Some(1) && dut.odPp.Some? && dut.sdaO.Some?
  }

  /** Pushing a one against a zero is contention, whatever else is wrong with it. */
  function Named(dut: Dut, sda: Bit, otherwise: CheckId): CheckId {
    if Pushes(dut, 1) && sda == 0 then BUS_CONTENTION else otherwise
  }

  /**
    In every state outside HDR mode, at every rise with outputs that fit
    together: contention is raised exactly where the DUT pushes a one onto a
    low SDA in a transfer.
   */
  lemma ContentionRaisedIff(c: Core, d: Deadlines, s: Sample, sda: Bit)
    requires c.phase != HDR_MODE && c.prevScl == 0 && At(s, 1, sda) && Fits(s.dut) && d.handoffId != BUS_CONTENTION
    ensures RaisedBy(c, d, s, {}) == Some(BUS_CONTENTION) <==> c.phase != IDLE && Pushes(s.dut, 1) && sda == 0
  {
  }

  /** Outputs that do not fit together are found first, at every edge of SCL. */
  lemma MisfitRaised(c: Core, d: Deadlines, s: Sample, sda: Bit)
    requires c.phase != HDR_MODE && !Fits(s.dut)
    requires (c.prevScl == 0 && At(s, 1, sda)) || (c.prevScl == 1 && At(s, 0, sda))
    ensures RaisedBy(c, d, s, {}) == Some(OD_PP_TABLE)
  {
    hide OnFall;
  }

  // ---------------------------------------------------------------------
  // From a rise to a run
  // ---------------------------------------------------------------------

  /** A clean stretch, then a rise whose checks raise. */
  lemma FaultEndsRun(c: Core, d: Deadlines, pre: seq<Sample>, low: seq<Sample>, rise: Sample, b: Bit, id: CheckId)
    requires Clean(c, d, pre) && IsLow(low) && At(rise, 1, b)
    requires var e := CoreRun(c, pre);
      && e.prevScl == 0 && e.phase != HDR_MODE
      && RiseChecks(e.phase, e.bitCount, e.hdr, e.ccc.entdaaBits, b, rise.dut, {}) == Some(id)
    ensures FirstRaise(c, d, Clocks(pre + (low + [rise])), {}) == Some(id)
  {
    hide CoreRun, DeadlineRun, FirstRaise, RaisedBy, IsLow, NonePending, RiseChecks;
    CleanEndsIdle(c, d, pre);
    var e, f := CoreRun(c, pre), DeadlineRun(d, c, pre);
    SamplesRaise(c, d, pre, low + [rise]);
    LowClean(e, f, low);
    SamplesRaise(e, f, low, [rise]);
    LowRun(e, low);
    var e1, f1 := CoreRun(e, low), DeadlineRun(f, e, low);
    OneRaise(e1, f1, rise, {});
    RiseRaises(e1, f1, rise, b);
  }

  lemma RiseRaises(c: Core, d: Deadlines, s: Sample, b: Bit)
    requires c.prevScl == 0 && c.phase != HDR_MODE && At(s, 1, b)
    ensures var r := RiseChecks(c.phase, c.bitCount, c.hdr, c.ccc.entdaaBits, b, s.dut, {});
      r.Some? ==> RaisedBy(c, d, s, {}) == r
  {
    hide RiseChecks;
  }

  // ---------------------------------------------------------------------
  // Headers
  // ---------------------------------------------------------------------

  lemma SrFault(e: Core, b: Bit, dut: Dut)
    requires e.phase == ADDR_BITS && e.bitCount < 7 && e.hdr.isSr && Drives(dut)
    ensures RiseChecks(e.phase, e.bitCount, e.hdr, e.ccc.entdaaBits, b, dut, {}) == Some(Named(dut, b, NO_ARB_AFTER_SR))
  {
  }

  /** After a Repeated START there is no arbitration: the first address bit the DUT drives ends the run. */
  lemma ArbitrationAfterSrRaised(c: Core, d: Deadlines, ks: seq<Clk>, addr: Address, read: bool, n: nat)
    requires HeaderStart(c) && c.hdr.isSr && NonePending(d) && |ks| >= 8 && n < 7
    requires var v := addr * 2 + if read then 1 else 0; forall i :: 0 <= i < 8 ==> Carries(ks[i], BitAt(v, i))
    requires (forall i :: 0 <= i < n ==> SilentClk(ks[i])) && Drives(ks[n].rise.dut)
    ensures var b := BitAt(addr * 2 + if read then 1 else 0, n);
      FirstRaise(c, d, Clocks(Flat(ks[..n]) + (ks[n].low + [ks[n].rise])), {}) ==
      Some(Named(ks[n].rise.dut, b, NO_ARB_AFTER_SR))
  {
    hide BitAt, CoreRun, Clean, HeaderStart, FirstRaise, IsLow, IsHigh, SilentClk, Drives, Shr, RiseChecks, Named;
    var v := addr * 2 + if read then 1 else 0;
    HeaderBitsClean(c, d, ks, addr, read, n);
    AddrBits(c, ks, v, n);
    SrFault(CoreRun(c, Flat(ks[..n])), BitAt(v, n), ks[n].rise.dut);
    FaultEndsRun(c, d, Flat(ks[..n]), ks[n].low, ks[n].rise, BitAt(v, n),
                 Named(ks[n].rise.dut, BitAt(v, n), NO_ARB_AFTER_SR));
  }

  lemma PushFault(e: Core, b: Bit, dut: Dut)
    requires (e.phase == ADDR_BITS && !e.hdr.isSr) || e.phase in {ADDR_ACK, IBI_ADDR_ACK}
             || (e.phase == ENTDAA && e.ccc.entdaaBits < 64)
    requires Drives(dut) && dut.odPp == Some(1)
    ensures RiseChecks(e.phase, e.bitCount, e.hdr, e.ccc.entdaaBits, b, dut, {}) == Some(Named(dut, b, PHASE_BUS_MODE))
  {
  }

  /** After a START arbitration is open-drain: the first address bit the DUT pushes ends the run. */
  lemma PushedArbitrationRaised(c: Core, d: Deadlines, ks: seq<Clk>, addr: Address, rnw: Bit, n: nat)
    requires HeaderStart(c) && c.hdr.dutDroveAddr == Some(false) && !c.hdr.isSr && NonePending(d) && n < 7
    requires |ks| == 9 && CarriesAddress(ks, addr, rnw)
    requires forall i :: 0 <= i < n ==> OpenDrainOnly(ks[i].rise.dut) && Fits(ks[i].fall.dut)
    requires Drives(ks[n].rise.dut) && ks[n].rise.dut.odPp == Some(1)
    ensures FirstRaise(c, d, Clocks(Flat(ks[..n]) + (ks[n].low + [ks[n].rise])), {}) ==
            Some(Named(ks[n].rise.dut, BitAt(addr * 2 + rnw, n), PHASE_BUS_MODE))
  {
    hide BitAt, CoreRun, Clean, HeaderStart, FirstRaise, IsLow, IsHigh, Drives, Shr, RiseChecks, Named, DroveAddress,
         OpenDrainOnly, Fits;
    var v := addr * 2 + rnw;
    ArbitrationClean(c, d, ks, v, n);
    AddressClocks(c, ks, v, n);
    PushFault(CoreRun(c, Flat(ks[..n])), BitAt(v, n), ks[n].rise.dut);
    FaultEndsRun(c, d, Flat(ks[..n]), ks[n].low, ks[n].rise, BitAt(v, n),
                 Named(ks[n].rise.dut, BitAt(v, n), PHASE_BUS_MODE));
  }

  lemma DirectionBitChecks(e: Core, d: Deadlines, b: Bit, s: Sample)
    requires e.phase == ADDR_BITS && e.bitCount == 7 && e.hdr.isSr && e.prevScl == 0
    requires At(s, 1, b) && Drives(s.dut) && NonePending(d)
    ensures RaisedBy(e, d, s, {}) == if Pushes(s.dut, 1) && b == 0 then Some(BUS_CONTENTION) else None
  {
  }

  /**
    The direction bit is not watched: after a Repeated START the DUT may drive
    it, in any mode, and is held to contention only.
   */
  lemma DirectionBitUnwatched(c: Core, d: Deadlines, ks: seq<Clk>, addr: Address, read: bool)
    requires HeaderStart(c) && c.hdr.isSr && NonePending(d) && |ks| >= 8
    requires var v := addr * 2 + if read then 1 else 0; forall i :: 0 <= i < 8 ==> Carries(ks[i], BitAt(v, i))
    requires (forall i :: 0 <= i < 7 ==> SilentClk(ks[i])) && Drives(ks[7].rise.dut)
    ensures FirstRaise(c, d, Clocks(Flat(ks[..7]) + (ks[7].low + [ks[7].rise])), {}) ==
            if Pushes(ks[7].rise.dut, 1) && !read then Some(BUS_CONTENTION) else None
  {
    hide BitAt, CoreRun, DeadlineRun, Clean, HeaderStart, FirstRaise, RaisedBy, IsLow, IsHigh, SilentClk, Drives, Shr,
         NonePending, Pushes;
    var v, pre := addr * 2 + (if read then 1 else 0), Flat(ks[..7]);
    LastBit(addr, if read then 1 else 0);
    HeaderBitsClean(c, d, ks, addr, read, 7);
    AddrBits(c, ks, v, 7);
    CleanEndsIdle(c, d, pre);
    CleanIsQuiet(c, d, pre);
    var e, f := CoreRun(c, pre), DeadlineRun(d, c, pre);
    SamplesRaise(c, d, pre, ks[7].low + [ks[7].rise]);
    LowClean(e, f, ks[7].low);
    CleanEndsIdle(e, f, ks[7].low);
    CleanIsQuiet(e, f, ks[7].low);
    SamplesRaise(e, f, ks[7].low, [ks[7].rise]);
    LowRun(e, ks[7].low);
    var e1, f1 := CoreRun(e, ks[7].low), DeadlineRun(f, e, ks[7].low);
    OneRaise(e1, f1, ks[7].rise, {});
    DirectionBitChecks(e1, f1, BitAt(v, 7), ks[7].rise);
  }

  /** An ACK is open-drain: one that the DUT pushes ends the run. */
  lemma PushedAckRaised(c: Core, d: Deadlines, ks: seq<Clk>, addr: Address, read: bool)
    requires HeaderStart(c) && CarriesHeader(ks, addr, read) && (c.hdr.isSr || !read) && NonePending(d)
    requires (forall i :: 0 <= i < 8 ==> SilentClk(ks[i])) && Drives(ks[8].rise.dut) && ks[8].rise.dut.odPp == Some(1)
    ensures FirstRaise(c, d, Clocks(Flat(ks[..8]) + (ks[8].low + [ks[8].rise])), {}) ==
            Some(Named(ks[8].rise.dut, 0, PHASE_BUS_MODE))
  {
    hide BitAt, CoreRun, Clean, HeaderStart, FirstRaise, IsLow, IsHigh, SilentClk, Drives, RiseChecks, Named;
    HeaderBitsClean(c, d, ks, addr, read, 8);
    HeaderDecoded(c, ks, addr, read);
    PushFault(CoreRun(c, Flat(ks[..8])), 0, ks[8].rise.dut);
    FaultEndsRun(c, d, Flat(ks[..8]), ks[8].low, ks[8].rise, 0, Named(ks[8].rise.dut, 0, PHASE_BUS_MODE));
  }

  // ---------------------------------------------------------------------
  // Bytes
  // ---------------------------------------------------------------------

  /** What is wrong with driving `dut` in a byte: reads must be pushed at the level on SDA, the rest not open-drain. */
  function ByteFault(read: bool, n: nat, dut: Dut, b: Bit): Option<CheckId> {
    if Pushes(dut, 1) && b == 0 then Some(BUS_CONTENTION)
    else if dut.odPp == Some(1) then None
    else if !read then Some(PHASE_BUS_MODE)
    else Some(if n < 8 then READ_PP else READ_TBIT_PP)
  }

  lemma ByteFaultFound(c: Core, e: Core, v: Byte, n: nat, b: Bit, dut: Dut)
    requires OwnByteStart(c) && n < 9 && InByte(c, e, v, if n < 8 then n else 8) && Drives(dut)
    requires c.phase == READ_DATA ==> c.hdr.isAddressed
    ensures RiseChecks(e.phase, e.bitCount, e.hdr, e.ccc.entdaaBits, b, dut, {}) ==
            ByteFault(c.phase == READ_DATA, n, dut, b)
  {
    hide Shr;
  }

  /**
    In any byte of a read from the DUT, a write to it or a command, at any bit
    or the T-bit: a DUT that has kept to its part and now drives ends the run
    exactly if it drives open-drain, or pushes a one against a zero.
   */
  lemma FaultInByteRaised(c: Core, d: Deadlines, ks: seq<Clk>, v: Byte, n: nat, bad: Clk, b: Bit)
    requires OwnByteStart(c) && CarriesByte(ks, v) && NonePending(d) && ByteConduct(c, ks) && n < 9
    requires c.phase == READ_DATA ==> c.hdr.isAddressed
    requires IsLow(bad.low) && At(bad.rise, 1, b) && Drives(bad.rise.dut)
    requires ByteFault(c.phase == READ_DATA, n, bad.rise.dut, b).Some?
    ensures FirstRaise(c, d, Clocks(Flat(ks[..n]) + (bad.low + [bad.rise])), {}) ==
            ByteFault(c.phase == READ_DATA, n, bad.rise.dut, b)
  {
    hide BitAt, CoreRun, Clean, FirstRaise, IsLow, IsHigh, Drives, Shr, RiseChecks, ByteFault, ByteConduct, InByte;
    ByteBitsClean(c, d, ks, v, n);
    DataBits(c, ks, v, n);
    var e := CoreRun(c, Flat(ks[..n]));
    InByteIsOpen(c, e, v, n);
    ByteFaultFound(c, e, v, n, b, bad.rise.dut);
    FaultEndsRun(c, d, Flat(ks[..n]), bad.low, bad.rise, b, ByteFault(c.phase == READ_DATA, n, bad.rise.dut, b).value);
  }

  lemma IbiFaultFound(c: Core, e: Core, n: nat, b: Bit, dut: Dut)
    requires IbiByteStart(c) && n < 9 && InIbiByte(c, e, if n < 8 then n else 8) && Drives(dut)
    requires dut.odPp == Some(0) || (Pushes(dut, 1) && b == 0)
    ensures RiseChecks(e.phase, e.bitCount, e.hdr, e.ccc.entdaaBits, b, dut, {}) == Some(Named(dut, b, PHASE_BUS_MODE))
  {
  }

  /** In any byte of an IBI, at any bit or the T-bit, open-drain driving ends the run, and so does contention. */
  lemma FaultInIbiByteRaised(c: Core, d: Deadlines, ks: seq<Clk>, v: Byte, n: nat, bad: Clk, b: Bit)
    requires IbiByteStart(c) && CarriesByte(ks, v) && SendsByte(ks) && NonePending(d) && n < 9
    requires IsLow(bad.low) && At(bad.rise, 1, b) && Drives(bad.rise.dut)
    requires bad.rise.dut.odPp == Some(0) || (Pushes(bad.rise.dut, 1) && b == 0)
    ensures FirstRaise(c, d, Clocks(Flat(ks[..n]) + (bad.low + [bad.rise])), {}) ==
            Some(Named(bad.rise.dut, b, PHASE_BUS_MODE))
  {
    hide BitAt, CoreRun, Clean, FirstRaise, IsLow, IsHigh, Drives, RiseChecks, Named, SendsByte, Pushes, InIbiByte;
    IbiBitsClean(c, d, ks, v, n);
    IbiBits(c, ks, v, n);
    var e := CoreRun(c, Flat(ks[..n]));
    InIbiByteIsOpen(c, e, n);
    IbiFaultFound(c, e, n, b, bad.rise.dut);
    FaultEndsRun(c, d, Flat(ks[..n]), bad.low, bad.rise, b, Named(bad.rise.dut, b, PHASE_BUS_MODE));
  }

  lemma InIbiByteIsOpen(c: Core, e: Core, n: nat)
    requires IbiByteStart(c) && n <= 8 && InIbiByte(c, e, n)
    ensures e.prevScl == 0 && e.phase != HDR_MODE
  {
  }

  // ---------------------------------------------------------------------
  // ENTDAA
  // ---------------------------------------------------------------------

  /** What is wrong with driving `dut` at clock `n` of a round. */
  function RoundFault(n: nat, dut: Dut, b: Bit): Option<CheckId> {
    if Pushes(dut, 1) && b == 0 then Some(BUS_CONTENTION)
    else if n < 64 then if dut.odPp == Some(1) then Some(PHASE_BUS_MODE) else None
    else if n < 72 then Some(ENTDAA_DA_HANDOFF)
    else None
  }

  lemma RoundFaultFound(c: Core, e: Core, n: nat, b: Bit, dut: Dut)
    requires n < 73 && InRound(c, e, n) && Drives(dut)
    ensures RiseChecks(e.phase, e.bitCount, e.hdr, e.ccc.entdaaBits, b, dut, {}) == RoundFault(n, dut, b)
  {
  }

  /**
    At any clock of an ENTDAA round: a DUT that has kept to its part and now
    drives ends the run exactly if it pushes an identity bit, drives an address
    bit in any mode, or pushes a one against a zero.
   */
  lemma FaultInRoundRaised(c: Core, d: Deadlines, ks: seq<Clk>, n: nat, bad: Clk, b: Bit)
    requires InRound(c, c, 0) && NonePending(d) && CarriesBits(ks) && IdentityConduct(ks) && n < 73
    requires IsLow(bad.low) && At(bad.rise, 1, b) && Drives(bad.rise.dut)
    requires RoundFault(n, bad.rise.dut, b).Some?
    ensures FirstRaise(c, d, Clocks(Flat(ks[..n]) + (bad.low + [bad.rise])), {}) == RoundFault(n, bad.rise.dut, b)
  {
    hide CoreRun, Clean, FirstRaise, IsLow, Drives, RiseChecks, RoundFault, InRound, CarriesBits;
    IdentityClean(c, d, ks, n);
    IdentityRun(c, ks, n);
    var e := CoreRun(c, Flat(ks[..n]));
    InRoundIsOpen(c, e, n);
    RoundFaultFound(c, e, n, b, bad.rise.dut);
    FaultEndsRun(c, d, Flat(ks[..n]), bad.low, bad.rise, b, RoundFault(n, bad.rise.dut, b).value);
  }

  // ---------------------------------------------------------------------
  // Checks behind the table of modes
  // ---------------------------------------------------------------------

  const SHADOWED: set<CheckId> := {ADDR_OD, ACK_OD, ENTDAA_OD, IBI_ACK_OD}

  /**
    The four open-drain checks of the single phases never speak, in any
    reachable state, while PHASE_BUS_MODE is armed: it is made before them and
    covers them.
   */
  lemma OpenDrainChecksShadowed(c: Core, d: Deadlines, s: Sample, sup: set<CheckId>)
    requires Inv(c) && PHASE_BUS_MODE !in sup && d.handoffId !in SHADOWED
    ensures var r := RaisedBy(c, d, s, sup); r.Some? ==> r.value !in SHADOWED
  {
    hide Widths, Context, WrongResponse, OnFall;
  }

  /** The check that a DUT driving push-pull meets once PHASE_BUS_MODE is suppressed. */
  function Unshadowed(c: Core): Option<CheckId> {
    match c.phase
    case ADDR_BITS =>
      if c.bitCount >= 7 then None else if c.hdr.isSr then Some(NO_ARB_AFTER_SR) else Some(ADDR_OD)
    case ADDR_ACK => if c.hdr.isAddressed || c.hdr.isBroadcast then Some(ACK_OD) else None
    case IBI_ADDR_ACK => Some(IBI_ACK_OD)
    case ENTDAA =>
      if c.ccc.entdaaBits < 64 then Some(ENTDAA_OD) else if c.ccc.entdaaBits < 72 then Some(ENTDAA_DA_HANDOFF) else None
    case _ => None
  }

  /** With PHASE_BUS_MODE suppressed they name the phase in which the DUT pushes the level on SDA. */
  lemma OpenDrainChecksSpeak(c: Core, d: Deadlines, s: Sample, sda: Bit)
    requires Inv(c) && c.phase != HDR_MODE && c.prevScl == 0 && At(s, 1, sda) && Pushes(s.dut, sda)
    requires Unshadowed(c).Some?
    ensures RaisedBy(c, d, s, {PHASE_BUS_MODE}) == Unshadowed(c)
  {
    hide Widths, Context;
  }
}
