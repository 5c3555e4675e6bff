/**
  No false alarms where the DUT arbitrates: ENTDAA rounds, in which it sends its
  identity open-drain and takes an address, and In-Band Interrupts, in which it
  drives its own address and then the bytes behind the ACK.
 */
module BusMonitorArbitration {
  import opened Wrappers
  import opened Bits
  import opened BusMonitorModel
  import opened BusMonitorInvariants
  import opened BusMonitorRuns
  import opened BusMonitorDecode
  import opened BusMonitorFrames
  import opened BusMonitorIbi
  import opened BusMonitorResponses
  import opened BusMonitorConduct
  import opened BusMonitorTransfers

  // ---------------------------------------------------------------------
  // A round of ENTDAA
  // ---------------------------------------------------------------------

  /** A Repeated START with the header 7E/R, and the 73 clocks of a round: identity, address and ACK. */
  datatype RoundWave = RoundWave(low: seq<Sample>, rise: Sample, high: seq<Sample>, start: StartWave,
                                 header: seq<Clk>, bits: seq<Clk>)

  predicate CarriesBits(ks: seq<Clk>) {
    forall i :: 0 <= i < |ks| ==> Carries(ks[i], 0) || Carries(ks[i], 1)
  }

  predicate IsRound(w: RoundWave) {
    && IsLow(w.low) && At(w.rise, 1, 1) && IsHigh(w.high, 1) && IsStart(w.start)
    && CarriesHeader(w.header, 0x7E, true) && |w.bits| == 73 && CarriesBits(w.bits)
  }

  function RoundSamples(w: RoundWave): seq<Sample> {
    (w.low + ([w.rise] + w.high)) + (StartSamples(w.start) + (Flat(w.header) + Flat(w.bits)))
  }

  /** Identity bits open-drain, the last of them let go in time; address bits not driven; the ACK open-drain. */
  predicate IdentityConduct(ks: seq<Clk>) {
    && |ks| == 73
    && (forall i :: 0 <= i < 73 ==> OpenDrainOnly(ks[i].rise.dut) && Fits(ks[i].fall.dut))
    && (forall i :: 64 <= i < 72 ==> Silent(ks[i].rise.dut))
    && Releases(ks[63])
  }

  predicate RoundConduct(w: RoundWave) {
    && Silent(w.rise.dut) && Fits(w.start.fall.dut) && HeaderConduct(w.header, true) && IdentityConduct(w.bits)
  }

  /** `n` clocks into a round. */
  predicate InRound(c: Core, d: Core, n: nat) {
    && d.phase == (if n < 73 then ENTDAA else IDLE) && d.ccc == c.ccc.(entdaaBits := n) && d.prevScl == 0
    && d.busActive == c.busActive && d.own == c.own
  }

  lemma IdentityPulse(c: Core, d: Core, n: nat, b: Bit, driving: bool)
    requires n < 73 && InRound(c, d, n)
    ensures InRound(c, Pulse(d, b, driving), n + 1)
  {
    hide AddrBitRise, AddrBitFall, AddrAckFall, IbiAckFall, CccTbitFall, WriteTbitFall, ReadTbitFall, IbiDataTbitFall,
         DataBitFall;
  }

  lemma RoundAims(c: Core, d: Core, n: nat)
    requires InRound(c, d, n)
    ensures Aimed(d)
  {
  }

  lemma IdentityRise(c: Core, e: Core, d: Deadlines, ks: seq<Clk>, n: nat, b: Bit)
    requires n < 73 && InRound(c, e, n) && NonePending(d) && IdentityConduct(ks)
    ensures RiseFine(e, d, ks[n], b) && Fits(ks[n].fall.dut) && e.prevScl == 0 && e.phase != HDR_MODE
  {
    hide RiseFine, Releases;
    EntdaaRise(e, d, ks[n], b);
  }

  lemma {:induction false} IdentityRun(c: Core, ks: seq<Clk>, n: nat)
    requires InRound(c, c, 0) && |ks| == 73 && CarriesBits(ks) && n <= 73
    ensures InRound(c, CoreRun(c, Flat(ks[..n])), n)
    decreases n
  {
    hide CoreRun, Carries, Pulse, InRound;
    if n == 0 {
      assert ks[..0] == [] && Flat([]) == [];
      NothingRun(c);
    } else {
      var k := ks[n - 1];
      var b: Bit := if Carries(k, 0) then 0 else 1;
      IdentityRun(c, ks, n - 1);
      var e := CoreRun(c, Flat(ks[..n - 1]));
      assert ks[..n][..n - 1] == ks[..n - 1];
      InRoundIsOpen(c, e, n - 1);
      IdentityPulse(c, e, n - 1, b, k.rise.dut.Driving());
      AppendClk(c, ks[..n], b);
    }
  }

  lemma InRoundIsOpen(c: Core, e: Core, n: nat)
    requires InRound(c, e, n)
    ensures e.prevScl == 0 && e.phase != HDR_MODE
  {
  }

  lemma {:induction false} IdentityClean(c: Core, d: Deadlines, ks: seq<Clk>, n: nat)
    requires InRound(c, c, 0) && NonePending(d) && CarriesBits(ks) && IdentityConduct(ks) && n <= 73
    ensures Clean(c, d, Flat(ks[..n]))
    decreases n
  {
    hide CoreRun, DeadlineRun, Clean, Carries, Pulse, InRound, RiseFine, Fits, OpenDrainOnly, Silent, Releases;
    if n == 0 {
      assert ks[..0] == [] && Flat([]) == [];
      NothingClean(c, d);
    } else {
      var k := ks[n - 1];
      var b: Bit := if Carries(k, 0) then 0 else 1;
      IdentityClean(c, d, ks, n - 1);
      IdentityRun(c, ks, n - 1);
      var e, f := CoreRun(c, Flat(ks[..n - 1])), DeadlineRun(d, c, Flat(ks[..n - 1]));
      CleanEndsIdle(c, d, Flat(ks[..n - 1]));
      assert ks[..n] == ks[..n - 1] + [k];
      FlatAppend(ks[..n - 1], k);
      IdentityRise(c, e, f, ks, n - 1, b);
      IdentityPulse(c, e, n - 1, b, k.rise.dut.Driving());
      RoundAims(c, Pulse(e, b, k.rise.dut.Driving()), n);
      ClkClean(e, f, k, b);
      CleanAppend(c, d, Flat(ks[..n - 1]), ClkSamples(k));
    }
  }

  lemma NothingRun(c: Core)
    ensures CoreRun(c, []) == c
  {
  }

  /** Between two rounds. */
  predicate Assigning(c: Core) {
    Between(c) && c.ccc.isEntdaa && !c.ccc.inRead
  }

  /** The header 7E/R opens a round once ENTDAA has been seen in this transfer. */
  lemma RoundOpens(e: Core)
    requires e.phase == ADDR_ACK && e.hdr.isBroadcast && e.hdr.rnw == 1 && e.ccc.isEntdaa
    ensures var d := AddrAckFall(e, 0).(prevScl := 0, prevSda := 0);
      && InRound(d, d, 0) && d.ccc == e.ccc.(entdaaBits := 0) && d.busActive == e.busActive && d.own == e.own
  {
  }

  lemma RoundSr(c: Core)
    requires c.busActive && !c.ccc.inRead
    ensures var d := OnStart(c).(prevScl := 0, prevSda := 0);
      HeaderStart(d) && d.hdr.isSr && d.busActive && d.own == c.own && d.ccc == c.ccc
  {
  }

  lemma OpenedRound(e: Core, c: Core)
    requires c.(stats := e.stats) == AddrAckFall(e, 0).(prevScl := 0, prevSda := 0)
    requires var d := AddrAckFall(e, 0).(prevScl := 0, prevSda := 0); InRound(d, d, 0)
    ensures InRound(c, c, 0)
  {
    hide AddrAckFall;
  }

  lemma RoundEnds(c: Core, d: Core)
    requires InRound(c, d, 73) && c.busActive && c.ccc.isEntdaa && !c.ccc.inRead
    ensures Assigning(d) && d.own == c.own
  {
  }

  lemma RoundClean(c: Core, d: Deadlines, w: RoundWave)
    requires Assigning(c) && NonePending(d) && IsRound(w) && RoundConduct(w)
    ensures Clean(c, d, RoundSamples(w))
    ensures var e := CoreRun(c, RoundSamples(w)); Assigning(e) && e.phase == IDLE && e.own == c.own
  {
    hide CoreRun, DeadlineRun, Clean, StartSamples, Flat, IsLow, IsHigh, IsStart, HeaderConduct, OnStart, OnRise,
         AddrAckFall, Carries, HeaderStart, BitAt, NonePending, Silent, Fits, IdentityConduct, CarriesBits;
    var up, st, hd, bs := w.low + ([w.rise] + w.high), StartSamples(w.start), Flat(w.header), Flat(w.bits);
    UpClean(c, d, w.low, w.rise, w.high, 1);
    CleanEndsIdle(c, d, up);
    RaiseClock(c, w.low, w.rise, w.high, 1);
    UpState(c, 1, w.rise.dut.Driving());
    var c1, d1 := CoreRun(c, up), DeadlineRun(d, c, up);
    StartClean(c1, d1, w.start);
    CleanEndsIdle(c1, d1, st);
    StartEffect(c1, w.start);
    RoundSr(c1);
    var c2, d2 := CoreRun(c1, st), DeadlineRun(d1, c1, st);
    HeaderClean(c2, d2, w.header, 0x7E, true);
    CleanEndsIdle(c2, d2, hd);
    var e := HeaderEffect(c2, w.header, 0x7E, true);
    RoundOpens(e);
    var c3, d3 := CoreRun(c2, hd), DeadlineRun(d2, c2, hd);
    OpenedRound(e, c3);
    IdentityClean(c3, d3, w.bits, 73);
    IdentityRun(c3, w.bits, 73);
    assert w.bits[..73] == w.bits by { WholeRound(w); }
    RoundEnds(c3, CoreRun(c3, bs));
    CleanAppend(c2, d2, hd, bs);
    CleanAppend(c1, d1, st, hd + bs);
    CleanAppend(c, d, up, st + (hd + bs));
    CoreRunAppend(c, up, st + (hd + bs));
    CoreRunAppend(c1, st, hd + bs);
    CoreRunAppend(c2, hd, bs);
  }

  lemma WholeRound(w: RoundWave)
    requires |w.bits| == 73
    ensures w.bits[..73] == w.bits
  {
  }

  lemma {:induction false} RoundsClean(c: Core, d: Deadlines, ws: seq<RoundWave>)
    requires Assigning(c) && NonePending(d)
    requires forall i :: 0 <= i < |ws| ==> IsRound(ws[i]) && RoundConduct(ws[i])
    ensures Clean(c, d, FlatRounds(ws))
    ensures var e := CoreRun(c, FlatRounds(ws)); Assigning(e) && e.own == c.own
    decreases ws
  {
    hide IsRound, RoundSamples, RoundConduct, Clean, DeadlineRun, NonePending, Assigning;
    if ws == [] {
      NothingClean(c, d);
    } else {
      RoundClean(c, d, ws[0]);
      CleanEndsIdle(c, d, RoundSamples(ws[0]));
      var c1, d1 := CoreRun(c, RoundSamples(ws[0])), DeadlineRun(d, c, RoundSamples(ws[0]));
      RoundsClean(c1, d1, ws[1..]);
      CoreRunAppend(c, RoundSamples(ws[0]), FlatRounds(ws[1..]));
      CleanAppend(c, d, RoundSamples(ws[0]), FlatRounds(ws[1..]));
    }
  }

  function FlatRounds(ws: seq<RoundWave>): seq<Sample> {
    if ws == [] then [] else RoundSamples(ws[0]) + FlatRounds(ws[1..])
  }

  // ---------------------------------------------------------------------
  // A header that nobody acknowledges
  // ---------------------------------------------------------------------

  /** Eight header clocks the DUT only listens to, and a ninth with SDA high. */
  predicate IsRefusal(ks: seq<Clk>, addr: Address, read: bool) {
    && |ks| == 9 && CarriesAddress(ks, addr, if read then 1 else 0) && Carries(ks[8], 1)
    && forall i :: 0 <= i < 9 ==> SilentClk(ks[i])
  }

  lemma RefusedAck(e: Core, d: Deadlines, k: Clk)
    requires e.phase == ADDR_ACK && NonePending(d) && SilentClk(k)
    ensures RiseFine(e, d, k, 1)
  {
    hide Releases;
    AckRise(e, d, k, 1);
  }

  lemma RefusalState(e: Core, driving: bool)
    requires e.phase == ADDR_ACK
    ensures var d := Pulse(e, 1, driving);
      && d.phase == IDLE && d.prevScl == 0 && d.busActive == e.busActive && d.own == e.own && d.ccc == e.ccc
  {
    hide AddrBitRise, AddrBitFall, IbiAckFall, CccTbitFall, WriteTbitFall, ReadTbitFall, EntdaaFall, IbiDataTbitFall,
         DataBitFall;
  }

  lemma AimedAtNobody(c: Core)
    requires c.phase == IDLE
    ensures Aimed(c)
  {
  }

  lemma RefusalClean(c: Core, d: Deadlines, ks: seq<Clk>, addr: Address)
    requires HeaderStart(c) && c.hdr.isSr && NonePending(d) && IsRefusal(ks, addr, true)
    ensures Clean(c, d, Flat(ks))
    ensures var e := CoreRun(c, Flat(ks));
      e.phase == IDLE && e.prevScl == 0 && e.busActive == c.busActive && e.own == c.own && e.ccc == c.ccc
  {
    hide BitAt, CoreRun, DeadlineRun, Clean, Carries, Pulse, SilentClk, Shr, Aimed, RiseFine;
    HeaderBitsClean(c, d, ks, addr, true, 8);
    AddrBits(c, ks, addr * 2 + 1, 7);
    LastBit(addr, 1);
    assert ks[..8][..7] == ks[..7];
    AppendClk(c, ks[..8], 1);
    RnwPulse(c, CoreRun(c, Flat(ks[..7])), addr, 1, ks[7].rise.dut.Driving());
    var e, f := CoreRun(c, Flat(ks[..8])), DeadlineRun(d, c, Flat(ks[..8]));
    CleanEndsIdle(c, d, Flat(ks[..8]));
    assert ks == ks[..8] + [ks[8]];
    FlatAppend(ks[..8], ks[8]);
    RefusedAck(e, f, ks[8]);
    RefusalState(e, ks[8].rise.dut.Driving());
    AimedAtNobody(Pulse(e, 1, ks[8].rise.dut.Driving()));
    FitsOf(ks[8]);
    ClkClean(e, f, ks[8], 1);
    AppendClk(c, ks, 1);
    CleanAppend(c, d, Flat(ks[..8]), ClkSamples(ks[8]));
  }

  lemma FitsOf(k: Clk)
    requires SilentClk(k)
    ensures Fits(k.fall.dut)
  {
  }

  // ---------------------------------------------------------------------
  // A whole ENTDAA
  // ---------------------------------------------------------------------

  /** The command, rounds, a last header 7E/R that nobody acknowledges, and the rise in front of the STOP. */
  datatype EntdaaWave = EntdaaWave(idle: seq<Sample>, start: StartWave, header: seq<Clk>, code: seq<Clk>,
                                   rounds: seq<RoundWave>,
                                   lastLow: seq<Sample>, lastRise: Sample, lastHigh: seq<Sample>,
                                   lastStart: StartWave, refusal: seq<Clk>,
                                   low: seq<Sample>, rise: Sample, high: seq<Sample>)

  predicate IsEntdaa(w: EntdaaWave) {
    && IsHigh(w.idle, 1) && IsStart(w.start) && CarriesHeader(w.header, 0x7E, false) && CarriesByte(w.code, 0x07)
    && (forall i :: 0 <= i < |w.rounds| ==> IsRound(w.rounds[i]))
    && IsLow(w.lastLow) && At(w.lastRise, 1, 1) && IsHigh(w.lastHigh, 1) && IsStart(w.lastStart)
    && IsRefusal(w.refusal, 0x7E, true)
    && IsLow(w.low) && At(w.rise, 1, 0) && IsHigh(w.high, 0)
  }

  predicate EntdaaConduct(w: EntdaaWave) {
    && Fits(w.start.fall.dut) && HeaderConduct(w.header, false) && ListensToByte(w.code)
    && (forall i :: 0 <= i < |w.rounds| ==> RoundConduct(w.rounds[i]))
    && Silent(w.lastRise.dut) && Fits(w.lastStart.fall.dut) && Silent(w.rise.dut)
  }

  function CommandedSamples(w: EntdaaWave): seq<Sample> {
    (w.idle + (StartSamples(w.start) + Flat(w.header))) + Flat(w.code)
  }

  function LastSamples(w: EntdaaWave): seq<Sample> {
    (w.lastLow + ([w.lastRise] + w.lastHigh)) + (StartSamples(w.lastStart) + Flat(w.refusal))
  }

  function EntdaaSamples(w: EntdaaWave): seq<Sample> {
    CommandedSamples(w) + (FlatRounds(w.rounds) + (LastSamples(w) + (w.low + ([w.rise] + w.high))))
  }

  lemma CommandedClean(c: Core, d: Deadlines, w: EntdaaWave)
    requires c.prevScl == 1 && c.prevSda == 1 && c.phase != HDR_MODE && NonePending(d)
    requires IsEntdaa(w) && EntdaaConduct(w)
    ensures Clean(c, d, CommandedSamples(w))
    ensures var e := CoreRun(c, CommandedSamples(w)); Assigning(e) && e.phase == CCC_BYTE && e.own == c.own
  {
    hide CoreRun, DeadlineRun, Clean, StartSamples, Flat, IsHigh, IsLow, IsStart, HeaderConduct, ListensToByte,
         NonePending, Fits, CarriesHeader, CarriesByte, IsRefusal;
    AddressedAll(c, d, w.idle, w.start, w.header);
    var hd := w.idle + (StartSamples(w.start) + Flat(w.header));
    CleanEndsIdle(c, d, hd);
    var c1, d1 := CoreRun(c, hd), DeadlineRun(d, c, hd);
    ByteClean(c1, d1, w.code, 0x07);
    ByteEffect(c1, w.code, 0x07);
    CleanAppend(c, d, hd, Flat(w.code));
    CoreRunAppend(c, hd, Flat(w.code));
  }

  lemma LastClean(c: Core, d: Deadlines, w: EntdaaWave)
    requires Assigning(c) && NonePending(d) && IsEntdaa(w) && EntdaaConduct(w)
    ensures Clean(c, d, LastSamples(w))
    ensures var e := CoreRun(c, LastSamples(w)); Assigning(e) && e.phase == IDLE && e.own == c.own
  {
    hide CoreRun, DeadlineRun, Clean, StartSamples, Flat, IsLow, IsHigh, IsStart, HeaderConduct, OnStart, OnRise,
         HeaderStart, NonePending, Silent, Fits, CarriesHeader, CarriesByte, IsRound, RoundConduct, IsRefusal;
    var up, st, hd := w.lastLow + ([w.lastRise] + w.lastHigh), StartSamples(w.lastStart), Flat(w.refusal);
    UpClean(c, d, w.lastLow, w.lastRise, w.lastHigh, 1);
    CleanEndsIdle(c, d, up);
    RaiseClock(c, w.lastLow, w.lastRise, w.lastHigh, 1);
    UpState(c, 1, w.lastRise.dut.Driving());
    var c1, d1 := CoreRun(c, up), DeadlineRun(d, c, up);
    StartClean(c1, d1, w.lastStart);
    CleanEndsIdle(c1, d1, st);
    StartEffect(c1, w.lastStart);
    RoundSr(c1);
    var c2, d2 := CoreRun(c1, st), DeadlineRun(d1, c1, st);
    RefusalClean(c2, d2, w.refusal, 0x7E);
    CleanAppend(c1, d1, st, hd);
    CleanAppend(c, d, up, st + hd);
    CoreRunAppend(c, up, st + hd);
    CoreRunAppend(c1, st, hd);
  }

  lemma EntdaaBodyClean(c: Core, d: Deadlines, w: EntdaaWave)
    requires c.prevScl == 1 && c.prevSda == 1 && c.phase != HDR_MODE && NonePending(d)
    requires IsEntdaa(w) && EntdaaConduct(w)
    ensures Clean(c, d, EntdaaSamples(w))
    ensures var e := CoreRun(c, EntdaaSamples(w)); e.prevScl == 1 && e.prevSda == 0 && !e.ccc.inRead
  {
    hide CoreRun, DeadlineRun, Clean, CommandedSamples, FlatRounds, LastSamples, IsLow, IsHigh, IsStart, NonePending,
         Silent, Fits, CarriesHeader, CarriesByte, IsRound, RoundConduct, IsRefusal, HeaderConduct, ListensToByte,
         OnRise;
    var cd, rs, ls, up := CommandedSamples(w), FlatRounds(w.rounds), LastSamples(w), w.low + ([w.rise] + w.high);
    CommandedClean(c, d, w);
    CleanEndsIdle(c, d, cd);
    var c1, d1 := CoreRun(c, cd), DeadlineRun(d, c, cd);
    RoundsClean(c1, d1, w.rounds);
    CleanEndsIdle(c1, d1, rs);
    var c2, d2 := CoreRun(c1, rs), DeadlineRun(d1, c1, rs);
    LastClean(c2, d2, w);
    CleanEndsIdle(c2, d2, ls);
    var c3, d3 := CoreRun(c2, ls), DeadlineRun(d2, c2, ls);
    UpClean(c3, d3, w.low, w.rise, w.high, 0);
    RaiseClock(c3, w.low, w.rise, w.high, 0);
    UpState(c3, 0, w.rise.dut.Driving());
    CleanAppend(c2, d2, ls, up);
    CleanAppend(c1, d1, rs, ls + up);
    CleanAppend(c, d, cd, rs + (ls + up));
    CoreRunAppend(c, cd, rs + (ls + up));
    CoreRunAppend(c1, rs, ls + up);
    CoreRunAppend(c2, ls, up);
  }

  /**
    No false alarms in ENTDAA.  Whatever the identities and addresses on the
    wires, the number of rounds and of samples per level: a DUT that sends its
    identity open-drain, lets go of the last identity bit in time, leaves the
    address to the controller and gives its ACKs open-drain is not flagged,
    from the bus idle to the STOP.
   */
  lemma EntdaaNeverFlagged(c: Core, d: Deadlines, w: EntdaaWave, stop: Sample)
    requires c.prevScl == 1 && c.prevSda == 1 && c.phase != HDR_MODE && NonePending(d)
    requires IsEntdaa(w) && EntdaaConduct(w) && At(stop, 1, 1)
    ensures FirstRaise(c, d, Clocks(EntdaaSamples(w) + [stop]), {}) == None
  {
    hide CoreRun, Clean, EntdaaSamples, FirstRaise, IsEntdaa, EntdaaConduct, NonePending;
    EntdaaBodyClean(c, d, w);
    StopVerdict(c, d, EntdaaSamples(w), stop);
  }

  /**
    Whatever the DUT does: the 7E/R header of a round, once ENTDAA has been sent
    in this transfer, opens the count of its clocks, and the 73rd fall closes it.
   */
  lemma RoundCounted(c: Core, header: seq<Clk>, bits: seq<Clk>, n: nat)
    requires HeaderStart(c) && c.hdr.isSr && c.ccc.isEntdaa && CarriesHeader(header, 0x7E, true)
    requires |bits| == 73 && CarriesBits(bits) && n <= 73
    ensures var e := CoreRun(c, Flat(header) + Flat(bits[..n]));
      e.phase == (if n < 73 then ENTDAA else IDLE) && e.ccc.entdaaBits == n
  {
    hide CoreRun, Flat, AddrAckFall, Carries, HeaderStart, BitAt, CarriesBits;
    var e := HeaderEffect(c, header, 0x7E, true);
    RoundOpens(e);
    var c1 := CoreRun(c, Flat(header));
    OpenedRound(e, c1);
    IdentityRun(c1, bits, n);
    CoreRunAppend(c, Flat(header), Flat(bits[..n]));
  }

  // ---------------------------------------------------------------------
  // In-Band Interrupts
  // ---------------------------------------------------------------------

  /**
    START, the DUT's address read, an ACK given or refused, the bytes behind an
    ACK that is given, and the rise in front of the STOP.
   */
  datatype IbiWave = IbiWave(idle: seq<Sample>, start: StartWave, header: seq<Clk>, bytes: seq<seq<Clk>>,
                             low: seq<Sample>, rise: Sample, high: seq<Sample>)

  predicate IsIbiWave(w: IbiWave, addr: Address, ack: Bit, bs: seq<Byte>) {
    && IsHigh(w.idle, 1) && IsStart(w.start)
    && |w.header| == 9 && CarriesAddress(w.header, addr, 1) && Carries(w.header[8], ack)
    && CarriesBytes(w.bytes, bs) && (ack == 1 ==> bs == [])
    && IsLow(w.low) && At(w.rise, 1, 0) && IsHigh(w.high, 0)
  }

  /** The address open-drain, SDA taken over in time once the ACK is given, the bytes pushed. */
  predicate IbiConduct(w: IbiWave, ack: Bit) {
    && Fits(w.start.fall.dut) && |w.header| == 9
    && (forall i :: 0 <= i < 9 ==> OpenDrainOnly(w.header[i].rise.dut) && Fits(w.header[i].fall.dut))
    && (ack == 0 ==> TakesOver(w.header[8]))
    && (forall i :: 0 <= i < |w.bytes| ==> SendsByte(w.bytes[i]))
    && Silent(w.rise.dut)
  }

  function IbiSamples(w: IbiWave): seq<Sample> {
    w.idle + (StartSamples(w.start) + (Flat(w.header) + (FlatBytes(w.bytes) + (w.low + ([w.rise] + w.high)))))
  }

  lemma ArbitrationClk(c: Core, d: Deadlines, e: Core, k: Clk, v: Byte, n: nat, drove: bool, b: Bit)
    requires n < 7 && InAddress(c, e, v, n, drove) && !c.hdr.isSr && NonePending(d) && Carries(k, b)
    requires OpenDrainOnly(k.rise.dut) && Fits(k.fall.dut)
    ensures Clean(e, d, ClkSamples(k))
  {
    hide Pulse, Shr, Clean, Carries, OpenDrainOnly, Fits, RiseFine, NonePending;
    ArbitratedRise(e, d, k, b);
    AddressAims(e, b, k.rise.dut.Driving());
    ClkClean(e, d, k, b);
  }

  lemma {:induction false} ArbitrationClean(c: Core, d: Deadlines, ks: seq<Clk>, v: Byte, n: nat)
    requires HeaderStart(c) && c.hdr.dutDroveAddr == Some(false) && !c.hdr.isSr && NonePending(d) && n <= 7
    requires |ks| == 9 && forall i :: 0 <= i < 8 ==> Carries(ks[i], BitAt(v, i))
    requires forall i :: 0 <= i < n ==> OpenDrainOnly(ks[i].rise.dut) && Fits(ks[i].fall.dut)
    ensures Clean(c, d, Flat(ks[..n]))
    decreases n
  {
    hide BitAt, CoreRun, DeadlineRun, Clean, HeaderStart, Carries, InAddress, OpenDrainOnly, Fits, DroveAddress;
    if n == 0 {
      assert ks[..0] == [] && Flat([]) == [];
      NothingClean(c, d);
    } else {
      ArbitrationClean(c, d, ks, v, n - 1);
      AddressClocks(c, ks, v, n - 1);
      CleanEndsIdle(c, d, Flat(ks[..n - 1]));
      var e, f := CoreRun(c, Flat(ks[..n - 1])), DeadlineRun(d, c, Flat(ks[..n - 1]));
      ArbitrationClk(c, f, e, ks[n - 1], v, n - 1, DroveAddress(ks, n - 1), BitAt(v, n - 1));
      assert ks[..n] == ks[..n - 1] + [ks[n - 1]];
      FlatAppend(ks[..n - 1], ks[n - 1]);
      CleanAppend(c, d, Flat(ks[..n - 1]), ClkSamples(ks[n - 1]));
    }
  }

  lemma DirectionClk(c: Core, d: Deadlines, e: Core, k: Clk, addr: Address, drove: bool)
    requires InAddress(c, e, addr * 2 + 1, 7, drove) && !c.hdr.isSr && NonePending(d) && Carries(k, 1)
    requires OpenDrainOnly(k.rise.dut) && Fits(k.fall.dut) && drove
    requires c.own.dut == Some(addr) || c.own.virt == Some(addr)
    ensures Clean(e, d, ClkSamples(k))
  {
    hide Pulse, Shr, Clean, Carries, OpenDrainOnly, Fits, RiseFine, NonePending;
    ArbitratedRise(e, d, k, 1);
    DirectionPulse(c, e, addr, 1, drove, k.rise.dut.Driving());
    ClkClean(e, d, k, 1);
  }

  lemma IbiAckClk(e: Core, d: Deadlines, k: Clk, b: Bit)
    requires e.phase == IBI_ADDR_ACK && e.prevScl == 0 && NonePending(d) && Carries(k, b)
    requires OpenDrainOnly(k.rise.dut) && Fits(k.fall.dut) && (b == 0 ==> TakesOver(k))
    ensures Clean(e, d, ClkSamples(k))
  {
    hide Pulse, Clean, Carries, OpenDrainOnly, Fits, RiseFine, NonePending, TakesOver;
    IbiAckRise(e, d, k, b);
    IbiAckPulse(e, b, k.rise.dut.Driving());
    ClkClean(e, d, k, b);
  }

  /** The header of an IBI up to its ACK. */
  lemma IbiAddressClean(c: Core, d: Deadlines, ks: seq<Clk>, addr: Address)
    requires HeaderStart(c) && c.hdr.dutDroveAddr == Some(false) && !c.hdr.isSr && NonePending(d)
    requires |ks| == 9 && CarriesAddress(ks, addr, 1)
    requires (c.own.dut == Some(addr) || c.own.virt == Some(addr)) && DroveAddress(ks, 7)
    requires forall i :: 0 <= i < 8 ==> OpenDrainOnly(ks[i].rise.dut) && Fits(ks[i].fall.dut)
    ensures Clean(c, d, Flat(ks[..8]))
    ensures var e := CoreRun(c, Flat(ks[..8])); e.phase == IBI_ADDR_ACK && e.prevScl == 0
  {
    hide BitAt, CoreRun, DeadlineRun, Clean, HeaderStart, Carries, InAddress, OpenDrainOnly, Fits, DroveAddress, Pulse;
    var v, a := addr * 2 + 1, Flat(ks[..7]);
    LastBit(addr, 1);
    ArbitrationClean(c, d, ks, v, 7);
    AddressClocks(c, ks, v, 7);
    CleanEndsIdle(c, d, a);
    DirectionClk(c, DeadlineRun(d, c, a), CoreRun(c, a), ks[7], addr, true);
    assert ks[..8] == ks[..7] + [ks[7]];
    FlatAppend(ks[..7], ks[7]);
    CleanAppend(c, d, a, ClkSamples(ks[7]));
    HeaderClocks(c, ks, addr, 1);
  }

  /** The header of an IBI with its ACK. */
  lemma IbiHeaderClean(c: Core, d: Deadlines, ks: seq<Clk>, addr: Address, ack: Bit)
    requires HeaderStart(c) && c.hdr.dutDroveAddr == Some(false) && !c.hdr.isSr && NonePending(d)
    requires |ks| == 9 && CarriesAddress(ks, addr, 1) && Carries(ks[8], ack)
    requires (c.own.dut == Some(addr) || c.own.virt == Some(addr)) && DroveAddress(ks, 7)
    requires forall i :: 0 <= i < 9 ==> OpenDrainOnly(ks[i].rise.dut) && Fits(ks[i].fall.dut)
    requires ack == 0 ==> TakesOver(ks[8])
    ensures Clean(c, d, Flat(ks))
    ensures var e := CoreRun(c, Flat(ks)); if ack == 0 then IbiByteStart(e) else e.phase == IDLE && e.prevScl == 0
  {
    hide BitAt, CoreRun, DeadlineRun, Clean, HeaderStart, Carries, OpenDrainOnly, Fits, DroveAddress, TakesOver, Pulse,
         CarriesAddress;
    var b := Flat(ks[..8]);
    IbiAddressClean(c, d, ks, addr);
    CleanEndsIdle(c, d, b);
    IbiAckClk(CoreRun(c, b), DeadlineRun(d, c, b), ks[8], ack);
    assert ks == ks[..8] + [ks[8]];
    FlatAppend(ks[..8], ks[8]);
    CleanAppend(c, d, b, ClkSamples(ks[8]));
    AppendClk(c, ks, ack);
    IbiAckPulse(CoreRun(c, b), ack, ks[8].rise.dut.Driving());
  }

  // The bytes of an IBI.

  lemma IbiRise(c: Core, e: Core, d: Deadlines, ks: seq<Clk>, n: nat, b: Bit)
    requires IbiByteStart(c) && n < 9 && InIbiByte(c, e, if n < 8 then n else 8) && NonePending(d)
    requires SendsByte(ks) && At(ks[n].rise, 1, b)
    ensures RiseFine(e, d, ks[n], b) && Fits(ks[n].fall.dut) && e.prevScl == 0 && e.phase != HDR_MODE
  {
    hide Releases, RiseFine, Fits;
    PushedRise(e, d, ks[n], b);
  }

  lemma IbiAims(c: Core, e: Core, n: nat, b: Bit, driving: bool)
    requires IbiByteStart(c) && n < 9 && InIbiByte(c, e, if n < 8 then n else 8)
    ensures Aimed(Pulse(e, b, driving))
  {
    hide AddrBitRise, AddrBitFall, AddrAckFall, IbiAckFall, EntdaaFall, WriteTbitFall, ReadTbitFall, CccTbitFall;
  }

  lemma IbiClk(c: Core, e: Core, d: Deadlines, ks: seq<Clk>, n: nat, b: Bit)
    requires IbiByteStart(c) && n < 9 && InIbiByte(c, e, if n < 8 then n else 8) && NonePending(d)
    requires |ks| == 9 && SendsByte(ks) && Carries(ks[n], b)
    ensures Clean(e, d, ClkSamples(ks[n]))
  {
    hide Pulse, Clean, SendsByte, InIbiByte, RiseFine, NonePending, Fits, IsLow, IsHigh;
    IbiRise(c, e, d, ks, n, b);
    IbiAims(c, e, n, b, ks[n].rise.dut.Driving());
    ClkClean(e, d, ks[n], b);
  }

  lemma {:induction false} IbiBitsClean(c: Core, d: Deadlines, ks: seq<Clk>, v: Byte, n: nat)
    requires IbiByteStart(c) && CarriesByte(ks, v) && SendsByte(ks) && n <= 8 && NonePending(d)
    ensures Clean(c, d, Flat(ks[..n]))
    decreases n
  {
    hide BitAt, CoreRun, DeadlineRun, Clean, SendsByte, InIbiByte, Carries;
    if n == 0 {
      assert ks[..0] == [] && Flat([]) == [];
      NothingClean(c, d);
    } else {
      IbiBitsClean(c, d, ks, v, n - 1);
      IbiBits(c, ks, v, n - 1);
      var e, f := CoreRun(c, Flat(ks[..n - 1])), DeadlineRun(d, c, Flat(ks[..n - 1]));
      CleanEndsIdle(c, d, Flat(ks[..n - 1]));
      assert ks[..n] == ks[..n - 1] + [ks[n - 1]];
      FlatAppend(ks[..n - 1], ks[n - 1]);
      IbiClk(c, e, f, ks, n - 1, BitAt(v, n - 1));
      CleanAppend(c, d, Flat(ks[..n - 1]), ClkSamples(ks[n - 1]));
    }
  }

  lemma IbiByteClean(c: Core, d: Deadlines, ks: seq<Clk>, v: Byte)
    requires IbiByteStart(c) && CarriesByte(ks, v) && SendsByte(ks) && NonePending(d)
    ensures Clean(c, d, Flat(ks))
  {
    hide BitAt, CoreRun, DeadlineRun, Clean, SendsByte, InIbiByte, Carries;
    IbiBitsClean(c, d, ks, v, 8);
    IbiBits(c, ks, v, 8);
    CleanEndsIdle(c, d, Flat(ks[..8]));
    var t: Bit := if Carries(ks[8], 0) then 0 else 1;
    assert ks == ks[..8] + [ks[8]];
    FlatAppend(ks[..8], ks[8]);
    IbiClk(c, CoreRun(c, Flat(ks[..8])), DeadlineRun(d, c, Flat(ks[..8])), ks, 8, t);
    CleanAppend(c, d, Flat(ks[..8]), ClkSamples(ks[8]));
  }

  lemma {:induction false} IbiBytesClean(c: Core, d: Deadlines, ws: seq<seq<Clk>>, bs: seq<Byte>)
    requires IbiByteStart(c) && CarriesBytes(ws, bs) && NonePending(d)
    requires forall i :: 0 <= i < |ws| ==> SendsByte(ws[i])
    ensures Clean(c, d, FlatBytes(ws)) && IbiByteStart(CoreRun(c, FlatBytes(ws)))
    decreases bs
  {
    hide CarriesByte, Flat, Clean, DeadlineRun, SendsByte;
    if bs == [] {
      NothingClean(c, d);
    } else {
      IbiByteClean(c, d, ws[0], bs[0]);
      CleanEndsIdle(c, d, Flat(ws[0]));
      IbiByte(c, ws[0], bs[0]);
      var c1, d1 := CoreRun(c, Flat(ws[0])), DeadlineRun(d, c, Flat(ws[0]));
      CoreRunAppend(c, Flat(ws[0]), FlatBytes(ws[1..]));
      IbiBytesClean(c1, d1, ws[1..], bs[1..]);
      CleanAppend(c, d, Flat(ws[0]), FlatBytes(ws[1..]));
    }
  }

  lemma IbiBodyClean(c: Core, d: Deadlines, w: IbiWave, addr: Address, ack: Bit, bs: seq<Byte>)
    requires c.prevScl == 1 && c.prevSda == 1 && c.phase != HDR_MODE && NonePending(d)
    requires IsIbiWave(w, addr, ack, bs) && IsIbi(c, addr, 1, w.header) && IbiConduct(w, ack)
    ensures Clean(c, d, IbiSamples(w))
    ensures var e := CoreRun(c, IbiSamples(w)); e.prevScl == 1 && e.prevSda == 0 && e.phase in {IDLE, IBI_MDB, IBI_DATA}
  {
    hide CoreRun, DeadlineRun, Clean, StartSamples, Flat, FlatBytes, IsLow, IsHigh, IsStart, CarriesAddress, Carries,
         CarriesByte, SendsByte, NonePending, Silent, Fits, OpenDrainOnly, TakesOver, OnStart, OnRise, HeaderStart,
         DroveAddress;
    var st, hd, bt, up := StartSamples(w.start), Flat(w.header), FlatBytes(w.bytes), w.low + ([w.rise] + w.high);
    HighClean(c, d, w.idle);
    HighRun(c, w.idle);
    CleanEndsIdle(c, d, w.idle);
    var d1 := DeadlineRun(d, c, w.idle);
    StartClean(c, d1, w.start);
    CleanEndsIdle(c, d1, st);
    StartEffect(c, w.start);
    FreshStart(c);
    var c2, d2 := CoreRun(c, st), DeadlineRun(d1, c, st);
    IbiHeaderClean(c2, d2, w.header, addr, ack);
    CleanEndsIdle(c2, d2, hd);
    var c3, d3 := CoreRun(c2, hd), DeadlineRun(d2, c2, hd);
    if ack == 0 {
      IbiBytesClean(c3, d3, w.bytes, bs);
    } else {
      assert bt == [] by { NoBytes(w.bytes); }
      NothingRun(c3);
      NothingClean(c3, d3);
    }
    CleanEndsIdle(c3, d3, bt);
    var c4, d4 := CoreRun(c3, bt), DeadlineRun(d3, c3, bt);
    UpClean(c4, d4, w.low, w.rise, w.high, 0);
    RaiseClock(c4, w.low, w.rise, w.high, 0);
    RisePhase(c4, 0, w.rise.dut.Driving());
    CleanAppend(c3, d3, bt, up);
    CleanAppend(c2, d2, hd, bt + up);
    CleanAppend(c, d1, st, hd + (bt + up));
    CleanAppend(c, d, w.idle, st + (hd + (bt + up)));
    CoreRunAppend(c, w.idle, st + (hd + (bt + up)));
    CoreRunAppend(c, st, hd + (bt + up));
    CoreRunAppend(c2, hd, bt + up);
    CoreRunAppend(c3, bt, up);
  }

  lemma NoBytes(ws: seq<seq<Clk>>)
    requires ws == []
    ensures FlatBytes(ws) == []
  {
  }

  lemma NothingToAnswer(e: Core, sigs: Signals)
    requires Inv(e) && e.phase in {IDLE, IBI_MDB, IBI_DATA}
    ensures !WrongResponse(e.ccc, e.own, sigs)
  {
    hide Widths, ExpectedResponse, Differs;
  }

  /**
    No false alarms in an In-Band Interrupt.  From any reachable state with the
    bus free: a DUT that drives its address open-drain, takes SDA over push-pull
    within 12 ns of the ACK, pushes every bit and T-bit at the level on SDA and
    lets go of each T-bit in time is not flagged up to the STOP, whatever the
    bytes; nor is one that is refused and stays off the bus.
   */
  lemma IbiNeverFlagged(c: Core, d: Deadlines, w: IbiWave, addr: Address, ack: Bit, bs: seq<Byte>, stop: Sample)
    requires Inv(c) && c.prevScl == 1 && c.prevSda == 1 && c.phase != HDR_MODE && NonePending(d)
    requires IsIbiWave(w, addr, ack, bs) && IsIbi(c, addr, 1, w.header) && IbiConduct(w, ack) && At(stop, 1, 1)
    ensures FirstRaise(c, d, Clocks(IbiSamples(w) + [stop]), {}) == None
  {
    hide CoreRun, Clean, IbiSamples, FirstRaise, IsIbiWave, IsIbi, IbiConduct, NonePending, Inv, WrongResponse;
    IbiBodyClean(c, d, w, addr, ack, bs);
    StopVerdict(c, d, IbiSamples(w), stop);
    InvRun(c, IbiSamples(w));
    NothingToAnswer(CoreRun(c, IbiSamples(w)), stop.sigs);
  }
}
