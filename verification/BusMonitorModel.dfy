/**
  The protocol state of the I3C SDR bus monitor and the functions that say how
  one clock sample changes it.  The state is split in three: `Core` is what the
  monitor decodes from SCL and SDA, `Deadlines` are the two pending tSCO checks,
  and the checks on the DUT's own signals (`RaisedBy`) read both and change
  neither.
 */
module BusMonitorModel {
  import opened Wrappers

  datatype Phase =
    | IDLE
    | START
    | ADDR_BITS
    | ADDR_ACK
    | WRITE_DATA
    | WRITE_TBIT
    | READ_DATA
    | READ_TBIT
    | IBI_ADDR_BITS
    | IBI_ADDR_ACK
    | IBI_MDB
    | IBI_DATA
    | IBI_DATA_TBIT
    | CCC_BYTE
    | CCC_TBIT
    | ENTDAA
    | HDR_MODE

  const BROADCAST_ADDR: int := 0x7E
  const TSCO_MAX_NS: real := 12.0
  const ENTDAA_CODE: int := 0x07

  /** The CCC context, which survives a Repeated START. */
  datatype Ccc = Ccc(
    code: Option<int>,          // active command code
    definingByte: Option<int>,
    directAddr: Option<int>,    // target addressed by the direct phase
    readBytes: seq<int>,
    inRead: bool,
    writeBytes: seq<int>,
    inWrite: bool,
    aborted: bool,
    abortCount: nat,
    lastCode: int,              // last command byte seen, active or not
    isEntdaa: bool,             // the next 7E/R header opens an ENTDAA round
    entdaaBits: nat)

  /** The dynamic addresses the DUT answers to. */
  datatype Own = Own(dut: Option<Address>, virt: Option<Address>)

  datatype Stats = Stats(
    sclEdges: nat, starts: nat, stops: nat, addrPhases: nat,
    readBytes: nat, writeBytes: nat, ibiRequests: nat)

  /** The address header being clocked; each START begins a new one. */
  datatype Header = Header(
    addrAccum: int,
    rnw: int,
    isBroadcast: bool,
    isAddressed: bool,
    isVirt: bool,
    isIbi: bool,
    isSr: bool,
    dutDroveAddr: Option<bool>) // not assigned before the first address phase

  datatype Core = Core(
    phase: Phase,
    bitCount: nat,
    hdr: Header,
    dataAccum: int,
    byteInMsg: nat,
    prevScl: Bit,
    prevSda: Bit,
    busActive: bool,
    ccc: Ccc,
    stats: Stats,
    own: Own)

  const INITIAL_CCC := Ccc(None, None, None, [], false, [], false, false, 0, 0, false, 0)

  const INITIAL_HEADER := Header(0, 0, false, false, false, false, false, None)

  const INITIAL_CORE := Core(IDLE, 0, INITIAL_HEADER, 0, 0, 1, 1, false,
                             INITIAL_CCC, Stats(0, 0, 0, 0, 0, 0, 0), Own(None, None))

  /** The DUT's own outputs at a sample; `None` is X or Z. */
  datatype Dut = Dut(oe: Option<Bit>, odPp: Option<Bit>, sdaO: Option<Bit>) {
    predicate Driving() { oe == Some(1) }
    predicate PushPull() { odPp == Some(1) }
    predicate OpenDrain() { odPp == Some(0) }
  }

  /** Inputs of the DUT's CCC module that the GET responses come from; `None` is X or Z. */
  datatype Responses = Responses(
    bcr: Option<nat>, dcr: Option<nat>, status: Option<nat>, mwl: Option<nat>, mrl: Option<nat>,
    ibil: Option<nat>, pid: Option<nat>, virtBcr: Option<nat>, virtDcr: Option<nat>, virtPid: Option<nat>)

  /** The DUT's registers as far as they can be found. */
  datatype Signals = Signals(responses: Option<Responses>, csrMwl: Option<nat>, csrMrl: Option<nat>)

  const NO_SIGNALS := Signals(None, None, None)

  /** What the monitor reads at one rising edge of the system clock. */
  datatype Sample = Sample(scl: Option<Bit>, sda: Option<Bit>, dut: Dut, sigs: Signals, now: real) {
    predicate Defined() { scl.Some? && sda.Some? }
  }

  // ---------------------------------------------------------------------
  // Address phase
  // ---------------------------------------------------------------------

  function EnterAddrPhase(c: Core, isSr: bool): Core {
    c.(hdr := Header(0, 0, false, false, false, false, isSr, Some(false)),
       bitCount := 0, byteInMsg := 0, dataAccum := 0, phase := ADDR_BITS,
       stats := c.stats.(addrPhases := c.stats.addrPhases + 1))
  }

  function AddrBitRise(c: Core, sda: Bit, driving: bool): Core {
    var h := c.hdr;
    var h1 := if c.bitCount < 7 then
                h.(addrAccum := h.addrAccum * 2 + sda,
                   dutDroveAddr := if !h.isSr && driving then Some(true) else h.dutDroveAddr)
              else if c.bitCount == 7 then h.(rnw := sda)
              else h;
    c.(hdr := h1, bitCount := c.bitCount + 1)
  }

  predicate MatchesVirt(own: Own, addr: int) {
    own.virt.Some? && addr == own.virt.value
  }

  predicate MatchesDut(own: Own, addr: int) {
    (own.dut.Some? && addr == own.dut.value) || MatchesVirt(own, addr)
  }

  function AddrBitFall(c: Core): Core {
    if c.bitCount < 8 then c
    else
      var addr := c.hdr.addrAccum;
      var h := c.hdr.(isBroadcast := addr == BROADCAST_ADDR, isAddressed := MatchesDut(c.own, addr),
                      isVirt := MatchesVirt(c.own, addr));
      if !h.isSr && h.isAddressed && h.rnw == 1 && h.dutDroveAddr == Some(true) then
        c.(hdr := h.(isIbi := true), phase := IBI_ADDR_ACK,
           stats := c.stats.(ibiRequests := c.stats.ibiRequests + 1))
      else
        c.(hdr := h, phase := ADDR_ACK)
  }

  function AddrAckFall(c: Core, sda: Bit): Core {
    if sda != 0 then
      c.(phase := IDLE)
    else if c.hdr.isBroadcast && c.hdr.rnw == 0 then
      c.(phase := CCC_BYTE, bitCount := 0, dataAccum := 0, byteInMsg := 0,
         ccc := c.ccc.(code := None, definingByte := None, readBytes := [], writeBytes := [],
                       inRead := false, inWrite := false))
    else if c.hdr.isAddressed || c.hdr.isBroadcast then
      if c.ccc.isEntdaa && c.hdr.isBroadcast && c.hdr.rnw == 1 then
        c.(phase := ENTDAA, ccc := c.ccc.(entdaaBits := 0))
      else
        var direct := c.ccc.code.Some? && c.hdr.isSr;
        if c.hdr.rnw == 0 then
          c.(phase := WRITE_DATA, bitCount := 0, dataAccum := 0,
             ccc := if direct then c.ccc.(inWrite := true, writeBytes := [], directAddr := Some(c.hdr.addrAccum))
                    else c.ccc)
        else
          c.(phase := READ_DATA, bitCount := 0, dataAccum := 0,
             ccc := if direct then c.ccc.(inRead := true, readBytes := [], directAddr := Some(c.hdr.addrAccum))
                    else c.ccc)
    else
      c.(phase := IDLE)
  }

  // ---------------------------------------------------------------------
  // Data, IBI, CCC and ENTDAA phases
  // ---------------------------------------------------------------------

  /** Eight data bits, then the ninth-bit phase `tbit`. */
  function DataBitFall(c: Core, tbit: Phase): Core {
    if c.bitCount + 1 >= 8 then c.(phase := tbit, bitCount := 0) else c.(bitCount := c.bitCount + 1)
  }

  function WriteTbitFall(c: Core): Core {
    c.(stats := c.stats.(writeBytes := c.stats.writeBytes + 1),
       ccc := if c.ccc.inWrite then c.ccc.(writeBytes := c.ccc.writeBytes + [c.dataAccum % 256]) else c.ccc,
       byteInMsg := c.byteInMsg + 1, phase := WRITE_DATA, bitCount := 0, dataAccum := 0)
  }

  function ReadTbitFall(c: Core): Core {
    c.(stats := c.stats.(readBytes := c.stats.readBytes + 1),
       ccc := if c.ccc.inRead then c.ccc.(readBytes := c.ccc.readBytes + [c.dataAccum % 256]) else c.ccc,
       byteInMsg := c.byteInMsg + 1, phase := READ_DATA, bitCount := 0, dataAccum := 0)
  }

  function EntdaaFall(c: Core): Core {
    c.(ccc := c.ccc.(entdaaBits := c.ccc.entdaaBits + 1),
       phase := if c.ccc.entdaaBits + 1 >= 73 then IDLE else c.phase)
  }

  function IbiAckFall(c: Core, sda: Bit): Core {
    if sda == 0 then c.(phase := IBI_MDB, bitCount := 0, dataAccum := 0) else c.(phase := IDLE)
  }

  function IbiDataTbitFall(c: Core): Core {
    c.(stats := c.stats.(readBytes := c.stats.readBytes + 1), phase := IBI_DATA, bitCount := 0)
  }

  predicate IsEnthdr(code: int) { 0x20 <= code <= 0x27 }

  function CccTbitFall(c: Core): Core {
    var next := c.(byteInMsg := c.byteInMsg + 1, phase := CCC_BYTE, bitCount := 0, dataAccum := 0);
    if c.byteInMsg == 0 then
      var code := c.dataAccum % 256;
      var ccc := c.ccc.(lastCode := code, isEntdaa := c.ccc.isEntdaa || code == ENTDAA_CODE, definingByte := None);
      if IsEnthdr(code) then
        c.(phase := HDR_MODE, busActive := false, ccc := ccc.(code := None))
      else
        next.(ccc := ccc.(code := Some(code)))
    else if c.byteInMsg == 1 && c.ccc.code.Some? then
      next.(ccc := c.ccc.(definingByte := Some(c.dataAccum % 256)))
    else
      next
  }

  // ---------------------------------------------------------------------
  // START and STOP
  // ---------------------------------------------------------------------

  /** Bytes a direct GET answers with, where the monitor knows it. */
  function ExpectedReadCount(ccc: Ccc): Option<nat> {
    match ccc.code
    case None => None
    case Some(code) =>
      if code == 0x8B || code == 0x90 then Some(2)
      else if code == 0x8C then Some(3)
      else if code == 0x8D then Some(6)
      else if code == 0x8E || code == 0x8F || code == 0x9A then Some(1)
      else if code == 0x95 then
        if ccc.definingByte == None || ccc.definingByte == Some(0) then Some(3)
        else if ccc.definingByte == Some(0x93) then Some(1)
        else None
      else None
  }

  function OnStart(c: Core): Core {
    var c1 :=
      if c.busActive then
        if c.ccc.inRead && (c.phase == READ_DATA || c.phase == READ_TBIT) then
          var expected := ExpectedReadCount(c.ccc);
          var short := expected.Some? && |c.ccc.readBytes| < expected.value;
          c.(ccc := c.ccc.(inRead := false, aborted := c.ccc.aborted || short,
                           abortCount := if short then c.ccc.abortCount + 1 else c.ccc.abortCount))
        else c
      else
        c.(stats := c.stats.(starts := c.stats.starts + 1),
           ccc := c.ccc.(code := None, definingByte := None, inRead := false, inWrite := false));
    EnterAddrPhase(c1.(busActive := true), c.busActive)
  }

  function OnStop(c: Core): Core {
    c.(stats := c.stats.(stops := c.stats.stops + 1), busActive := false, phase := IDLE,
       ccc := c.ccc.(isEntdaa := false, code := None, definingByte := None, inRead := false, inWrite := false))
  }

  /** A STOP seen in HDR mode: the HDR exit pattern. */
  function OnHdrExit(c: Core): Core {
    c.(phase := IDLE, busActive := false, ccc := c.ccc.(isEntdaa := false))
  }

  // ---------------------------------------------------------------------
  // Edges
  // ---------------------------------------------------------------------

  function PhaseRise(c: Core, sda: Bit, driving: bool): Core {
    match c.phase
    case ADDR_BITS | IBI_ADDR_BITS => AddrBitRise(c, sda, driving)
    case WRITE_DATA | READ_DATA | CCC_BYTE => c.(dataAccum := c.dataAccum * 2 + sda)
    case _ => c
  }

  function OnRise(c: Core, sda: Bit, driving: bool): Core {
    PhaseRise(c.(stats := c.stats.(sclEdges := c.stats.sclEdges + 1)), sda, driving)
  }

  function OnFall(c: Core, sda: Bit): Core {
    match c.phase
    case ADDR_BITS | IBI_ADDR_BITS => AddrBitFall(c)
    case ADDR_ACK => AddrAckFall(c, sda)
    case IBI_ADDR_ACK => IbiAckFall(c, sda)
    case WRITE_DATA => DataBitFall(c, WRITE_TBIT)
    case WRITE_TBIT => WriteTbitFall(c)
    case READ_DATA => DataBitFall(c, READ_TBIT)
    case READ_TBIT => ReadTbitFall(c)
    case IBI_MDB | IBI_DATA => DataBitFall(c, IBI_DATA_TBIT)
    case IBI_DATA_TBIT => IbiDataTbitFall(c)
    case CCC_BYTE => DataBitFall(c, CCC_TBIT)
    case CCC_TBIT => CccTbitFall(c)
    case ENTDAA => EntdaaFall(c)
    case _ => c
  }

  datatype Edge = NoEdge | StartEdge | StopEdge | RiseEdge | FallEdge

  function EdgeOf(c: Core, scl: Bit, sda: Bit): Edge {
    if c.prevScl == 1 && scl == 1 && c.prevSda == 1 && sda == 0 then StartEdge
    else if c.prevScl == 1 && scl == 1 && c.prevSda == 0 && sda == 1 then StopEdge
    else if scl == 1 && c.prevScl == 0 then RiseEdge
    else if scl == 0 && c.prevScl == 1 then FallEdge
    else NoEdge
  }

  function OnEdge(c: Core, e: Edge, sda: Bit, driving: bool): Core {
    match e
    case NoEdge => c
    case StartEdge => if c.phase == HDR_MODE then c else OnStart(c)
    case StopEdge => if c.phase == HDR_MODE then OnHdrExit(c) else OnStop(c)
    case RiseEdge => if c.phase == HDR_MODE then c else OnRise(c, sda, driving)
    case FallEdge => if c.phase == HDR_MODE then c else OnFall(c, sda)
  }

  /** The decoded state after one sample; an undefined sample is skipped. */
  function CoreStep(c: Core, s: Sample): Core {
    if !s.Defined() then c
    else
      OnEdge(c, EdgeOf(c, s.scl.value, s.sda.value), s.sda.value, s.dut.Driving())
      .(prevScl := s.scl.value, prevSda := s.sda.value)
  }

  function CoreRun(c: Core, ss: seq<Sample>): Core
    decreases ss
  {
    if ss == [] then c else CoreRun(CoreStep(c, ss[0]), ss[1..])
  }

  lemma CoreRunAppend(c: Core, s1: seq<Sample>, s2: seq<Sample>)
    ensures CoreRun(c, s1 + s2) == CoreRun(CoreRun(c, s1), s2)
    decreases s1
  {
    if s1 == [] {
      assert s1 + s2 == s2;
    } else {
      assert (s1 + s2)[0] == s1[0] && (s1 + s2)[1..] == s1[1..] + s2;
      CoreRunAppend(CoreStep(c, s1[0]), s1[1..], s2);
    }
  }

  // ---------------------------------------------------------------------
  // tSCO deadlines
  // ---------------------------------------------------------------------

  datatype CheckId =
    | OD_PP_TABLE | BUS_CONTENTION | PHASE_BUS_MODE | TARGET_SILENT | ADDR_OD | NO_ARB_AFTER_SR | ACK_OD
    | READ_PP | READ_TBIT_PP | ENTDAA_OD | ENTDAA_DA_HANDOFF | IBI_ACK_OD
    | WRITE_ACK_HANDOFF | READ_TBIT_RELEASE | IBI_ACK_HANDOFF | CCC_RESPONSE_DATA | SET_CSR_CONSISTENCY

  datatype Deadlines = Deadlines(
    handoffTime: Option<real>, handoffAddr: int, handoffId: CheckId,
    takeoverTime: Option<real>, takeoverAddr: int)

  const INITIAL_DEADLINES := Deadlines(None, 0, WRITE_ACK_HANDOFF, None, 0)

  function Cleared(d: Deadlines): Deadlines {
    d.(handoffTime := None, takeoverTime := None)
  }

  /** What an SCL rise schedules, by the phase it finds. */
  function Schedule(d: Deadlines, phase: Phase, hdr: Header, entdaaBits: nat, sda: Bit, now: real): Deadlines {
    match phase
    case ADDR_ACK =>
      if (hdr.isAddressed || hdr.isBroadcast) && hdr.rnw == 0 && sda == 0 then
        d.(handoffTime := Some(now + TSCO_MAX_NS), handoffAddr := hdr.addrAccum)
      else d
    case IBI_ADDR_ACK =>
      if sda == 0 then d.(takeoverTime := Some(now + TSCO_MAX_NS), takeoverAddr := hdr.addrAccum) else d
    case READ_TBIT | IBI_DATA_TBIT =>
      if hdr.isAddressed then
        d.(handoffTime := Some(now + TSCO_MAX_NS), handoffAddr := hdr.addrAccum, handoffId := READ_TBIT_RELEASE)
      else d
    case ENTDAA =>
      if entdaaBits == 63 then
        d.(handoffTime := Some(now + TSCO_MAX_NS), handoffAddr := BROADCAST_ADDR, handoffId := ENTDAA_DA_HANDOFF)
      else d
    case _ => d
  }

  function DeadlinesAtEdge(d: Deadlines, c: Core, e: Edge, sda: Bit, now: real): Deadlines {
    if c.phase == HDR_MODE then d
    else if e == StartEdge || e == StopEdge then Cleared(d)
    else if e == RiseEdge then Schedule(d, c.phase, c.hdr, c.ccc.entdaaBits, sda, now)
    else d
  }

  predicate Due(t: Option<real>, now: real) {
    t.Some? && now >= t.value
  }

  /** A due check is made once and forgotten. */
  function Expire(d: Deadlines, now: real): Deadlines {
    d.(handoffTime := if Due(d.handoffTime, now) then None else d.handoffTime,
       takeoverTime := if Due(d.takeoverTime, now) then None else d.takeoverTime)
  }

  function DeadlineStep(d: Deadlines, c: Core, s: Sample): Deadlines {
    if !s.Defined() then d
    else Expire(DeadlinesAtEdge(d, c, EdgeOf(c, s.scl.value, s.sda.value), s.sda.value, s.now), s.now)
  }

  function DeadlineRun(d: Deadlines, c: Core, ss: seq<Sample>): Deadlines
    decreases ss
  {
    if ss == [] then d else DeadlineRun(DeadlineStep(d, c, ss[0]), CoreStep(c, ss[0]), ss[1..])
  }

  // ---------------------------------------------------------------------
  // Checks on the DUT
  // ---------------------------------------------------------------------

  /** The check a sample raises, if any; the first one ends the monitor. */
  type Raise = Option<CheckId>

  /** A violated check raises unless it is suppressed. */
  function When(violated: bool, id: CheckId, sup: set<CheckId>): Raise {
    if violated && id !in sup then Some(id) else None
  }

  /** A check made first, then another. */
  function Then(first: Raise, second: Raise): Raise {
    if first.Some? then first else second
  }

  function TruthTable(dut: Dut, sup: set<CheckId>): Raise {
    if dut.odPp.None? || dut.oe.None? || dut.sdaO.None? then None
    else if dut.odPp.value == 0 then When(dut.oe.value != 1 - dut.sdaO.value, OD_PP_TABLE, sup)
    else When(dut.oe.value != 1, OD_PP_TABLE, sup)
  }

  function Contention(phase: Phase, sda: Bit, dut: Dut, sup: set<CheckId>): Raise {
    When(phase != IDLE && dut.Driving() && dut.PushPull() && dut.sdaO == Some(1) && sda == 0, BUS_CONTENTION, sup)
  }

  /** Push-Pull or Open-Drain, where the monitor has an expectation. */
  function ExpectedPushPull(phase: Phase, isSr: bool, entdaaBits: nat): Option<bool> {
    match phase
    case ADDR_BITS => if isSr then None else Some(false)
    case ENTDAA => if entdaaBits >= 64 then None else Some(false)
    case ADDR_ACK | IBI_ADDR_ACK => Some(false)
    case WRITE_DATA | WRITE_TBIT | IBI_MDB | IBI_DATA | IBI_DATA_TBIT | CCC_BYTE | CCC_TBIT => Some(true)
    case _ => None
  }

  function BusMode(phase: Phase, isSr: bool, entdaaBits: nat, dut: Dut, sup: set<CheckId>): Raise {
    var e := ExpectedPushPull(phase, isSr, entdaaBits);
    When(dut.Driving() && e.Some? && dut.PushPull() != e.value, PHASE_BUS_MODE, sup)
  }

  function AddrBitChecks(bitCount: nat, isSr: bool, dut: Dut, sup: set<CheckId>): Raise {
    if bitCount >= 7 then None
    else if !isSr then When(dut.Driving() && dut.PushPull(), ADDR_OD, sup)
    else When(dut.Driving(), NO_ARB_AFTER_SR, sup)
  }

  function EntdaaChecks(entdaaBits: nat, dut: Dut, sup: set<CheckId>): Raise {
    if entdaaBits < 64 then When(dut.Driving() && dut.PushPull(), ENTDAA_OD, sup)
    else if entdaaBits < 72 then When(dut.Driving(), ENTDAA_DA_HANDOFF, sup)
    else None
  }

  function CommonRiseChecks(phase: Phase, isSr: bool, entdaaBits: nat, sda: Bit, dut: Dut, sup: set<CheckId>): Raise {
    Then(TruthTable(dut, sup), Then(Contention(phase, sda, dut, sup), BusMode(phase, isSr, entdaaBits, dut, sup)))
  }

  function PhaseRiseChecks(phase: Phase, bitCount: nat, hdr: Header, entdaaBits: nat, dut: Dut,
                           sup: set<CheckId>): Raise
  {
    match phase
    case ADDR_BITS | IBI_ADDR_BITS => AddrBitChecks(bitCount, hdr.isSr, dut, sup)
    case ADDR_ACK => When((hdr.isAddressed || hdr.isBroadcast) && dut.Driving() && dut.PushPull(), ACK_OD, sup)
    case IBI_ADDR_ACK => When(dut.Driving() && dut.PushPull(), IBI_ACK_OD, sup)
    case READ_DATA | IBI_MDB | IBI_DATA => When(hdr.isAddressed && dut.Driving() && dut.OpenDrain(), READ_PP, sup)
    case READ_TBIT | IBI_DATA_TBIT => When(hdr.isAddressed && dut.Driving() && dut.OpenDrain(), READ_TBIT_PP, sup)
    case ENTDAA => EntdaaChecks(entdaaBits, dut, sup)
    case _ => None
  }

  function RiseChecks(phase: Phase, bitCount: nat, hdr: Header, entdaaBits: nat, sda: Bit, dut: Dut,
                      sup: set<CheckId>): Raise
  {
    Then(CommonRiseChecks(phase, hdr.isSr, entdaaBits, sda, dut, sup),
         PhaseRiseChecks(phase, bitCount, hdr, entdaaBits, dut, sup))
  }

  /** Evaluated on the state the fall handler has left behind. */
  function TargetSilent(phase: Phase, hdr: Header, dut: Dut, sup: set<CheckId>): Raise {
    When((phase == WRITE_DATA || phase == WRITE_TBIT || phase == READ_DATA || phase == READ_TBIT) &&
         !hdr.isAddressed && !hdr.isBroadcast && dut.Driving(), TARGET_SILENT, sup)
  }

  function FallChecks(c: Core, sda: Bit, dut: Dut, sup: set<CheckId>): Raise {
    Then(TruthTable(dut, sup), TargetSilent(OnFall(c, sda).phase, OnFall(c, sda).hdr, dut, sup))
  }

  // CCC completion, at a STOP.

  /** `v` as `n` bytes, most significant first. */
  function BigEndian(v: nat, n: nat): (bytes: seq<int>)
    ensures |bytes| == n
  {
    if n == 0 then [] else BigEndian(v / 256, n - 1) + [v % 256]
  }

  function BytesOrNone(v: Option<nat>, n: nat): Option<seq<int>> {
    if v.None? then None else Some(BigEndian(v.value, n))
  }

  /** GETSTATUS of the virtual target: activity state 3, the protocol error bit, nothing pending. */
  function VirtStatus(status: nat): nat {
    status / 256 % 256 * 256 + 0xC0 + status / 32 % 2 * 32
  }

  predicate IsVirtTarget(ccc: Ccc, own: Own) {
    ccc.directAddr.Some? && own.virt.Some? && ccc.directAddr.value == own.virt.value
  }

  /** What a direct GET must answer, where the monitor knows it; the virtual target answers differently. */
  function ExpectedResponse(ccc: Ccc, own: Own, r: Responses): Option<seq<int>> {
    var virt := IsVirtTarget(ccc, own);
    match ccc.code
    case None => None
    case Some(code) =>
      if code == 0x8E then BytesOrNone(if virt then r.virtBcr else r.bcr, 1)
      else if code == 0x8F then BytesOrNone(if virt then r.virtDcr else r.dcr, 1)
      else if code == 0x90 then
        if r.status.None? then None else Some(BigEndian(if virt then VirtStatus(r.status.value) else r.status.value, 2))
      else if code == 0x8B then BytesOrNone(r.mwl, 2)
      else if code == 0x8C then
        if r.mrl.None? then None
        else Some(BigEndian(r.mrl.value, 2) + [if virt || r.ibil.None? then 0 else r.ibil.value])
      else if code == 0x8D then BytesOrNone(if virt then r.virtPid else r.pid, 6)
      else if code == 0x95 then
        if ccc.definingByte == None || ccc.definingByte == Some(0) then Some([0x00, 0x01, if virt then 0x00 else 0x48])
        else if ccc.definingByte == Some(0x93) then Some([0x35])
        else None
      else None
  }

  /** Some byte received differs from the one expected in its place; a response may be short. */
  predicate Differs(got: seq<int>, expected: seq<int>) {
    exists i :: 0 <= i < |got| && i < |expected| && got[i] != expected[i]
  }

  predicate WrongResponse(ccc: Ccc, own: Own, sigs: Signals) {
    && ccc.code.Some? && ccc.inRead && ccc.readBytes != [] && sigs.responses.Some?
    && var e := ExpectedResponse(ccc, own, sigs.responses.value); e.Some? && Differs(ccc.readBytes, e.value)
  }

  function ResponseCheck(ccc: Ccc, own: Own, sigs: Signals, sup: set<CheckId>): Raise {
    When(WrongResponse(ccc, own, sigs), CCC_RESPONSE_DATA, sup)
  }

  /** The register a direct SET wrote does not hold its first two bytes. */
  predicate WrongCsr(ccc: Ccc, sigs: Signals) {
    && ccc.code.Some? && ccc.inWrite && |ccc.writeBytes| >= 2
    && var written := ccc.writeBytes[0] * 256 + ccc.writeBytes[1];
       || (ccc.code.value == 0x89 && sigs.csrMwl.Some? && sigs.csrMwl.value != written)
       || (ccc.code.value == 0x8A && sigs.csrMrl.Some? && sigs.csrMrl.value != written)
  }

  /** Recorded, but the exception is swallowed: this check does not raise. */
  function CsrRecord(ccc: Ccc, own: Own, sigs: Signals, sup: set<CheckId>): Raise {
    if ResponseCheck(ccc, own, sigs, sup).Some? then None else When(WrongCsr(ccc, sigs), SET_CSR_CONSISTENCY, sup)
  }

  function EdgeChecks(c: Core, e: Edge, s: Sample, sup: set<CheckId>): Raise
    requires s.Defined()
  {
    if c.phase == HDR_MODE then None
    else match e
      case RiseEdge => RiseChecks(c.phase, c.bitCount, c.hdr, c.ccc.entdaaBits, s.sda.value, s.dut, sup)
      case FallEdge => FallChecks(c, s.sda.value, s.dut, sup)
      case StopEdge => ResponseCheck(c.ccc, c.own, s.sigs, sup)
      case _ => None
  }

  /** What an edge adds to the log without ending the monitor. */
  function EdgeRecord(c: Core, e: Edge, s: Sample, sup: set<CheckId>): Raise {
    if c.phase != HDR_MODE && e == StopEdge then CsrRecord(c.ccc, c.own, s.sigs, sup) else None
  }

  function DueChecks(d: Deadlines, dut: Dut, now: real, sup: set<CheckId>): Raise {
    Then(When(Due(d.handoffTime, now) && dut.Driving(), d.handoffId, sup),
         When(Due(d.takeoverTime, now) && !(dut.Driving() && dut.PushPull()), IBI_ACK_HANDOFF, sup))
  }

  /** The check a sample raises: those of its edge come before those that are due. */
  function RaisedBy(c: Core, d: Deadlines, s: Sample, sup: set<CheckId>): Raise {
    if !s.Defined() then None
    else
      var e := EdgeOf(c, s.scl.value, s.sda.value);
      Then(EdgeChecks(c, e, s, sup),
           DueChecks(DeadlinesAtEdge(d, c, e, s.sda.value, s.now), s.dut, s.now, sup))
  }

  /** How many samples are consumed before a check raises. */
  function Survives(c: Core, d: Deadlines, ss: seq<Sample>, sup: set<CheckId>): (n: nat)
    ensures n <= |ss|
    decreases ss
  {
    if ss == [] || RaisedBy(c, d, ss[0], sup).Some? then 0
    else 1 + Survives(CoreStep(c, ss[0]), DeadlineStep(d, c, ss[0]), ss[1..], sup)
  }

  datatype Log = Log(violations: seq<CheckId>, count: nat)

  function Logged(log: Log, r: Raise): Log {
    match r
    case None => log
    case Some(id) => Log(log.violations + [id], log.count + 1)
  }

  /** What an edge writes to the log: the swallowed violation first, then the one that raises. */
  function EdgeLogged(log: Log, c: Core, e: Edge, s: Sample, sup: set<CheckId>): Log
    requires s.Defined()
  {
    Logged(Logged(log, EdgeRecord(c, e, s, sup)), EdgeChecks(c, e, s, sup))
  }

  function LogStep(log: Log, c: Core, d: Deadlines, s: Sample, sup: set<CheckId>): Log {
    if !s.Defined() then log
    else Logged(Logged(log, EdgeRecord(c, EdgeOf(c, s.scl.value, s.sda.value), s, sup)), RaisedBy(c, d, s, sup))
  }

  /** The log of a run, which ends with the first violation that raises. */
  function LogRun(log: Log, c: Core, d: Deadlines, ss: seq<Sample>, sup: set<CheckId>): Log
    decreases ss
  {
    if ss == [] then log
    else
      var log1 := LogStep(log, c, d, ss[0], sup);
      if RaisedBy(c, d, ss[0], sup).Some? then log1
      else LogRun(log1, CoreStep(c, ss[0]), DeadlineStep(d, c, ss[0]), ss[1..], sup)
  }
}
