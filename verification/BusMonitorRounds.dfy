/**
  What opens an ENTDAA round, and what the statistics of the monitor count.
 */
module BusMonitorRounds {
  import opened Wrappers
  import opened Bits
  import opened BusMonitorModel
  import opened BusMonitorInvariants
  import opened BusMonitorDecode
  import opened BusMonitorFrames

  // ---------------------------------------------------------------------
  // Rounds
  // ---------------------------------------------------------------------

  /** A STOP, in HDR mode or not, frees the bus and forgets ENTDAA. */
  lemma StopForgets(c: Core, stop: Sample)
    requires c.prevScl == 1 && c.prevSda == 0 && At(stop, 1, 1)
    ensures var d := CoreRun(c, [stop]);
      d.prevScl == 1 && d.prevSda == 1 && d.phase == IDLE && !d.busActive && !d.ccc.isEntdaa
  {
    RunOne(c, stop);
  }

  lemma AckKeepsEntdaa(e: Core)
    requires e.phase == ADDR_ACK && e.hdr.isBroadcast && e.hdr.rnw == 0
    ensures AddrAckFall(e, 0).ccc.isEntdaa == e.ccc.isEntdaa
  {
  }

  lemma StartKeepsEntdaa(c: Core)
    ensures OnStart(c).ccc.isEntdaa == c.ccc.isEntdaa
  {
  }

  lemma {:induction false} BytesKeepEntdaa(c: Core, ws: seq<seq<Clk>>, bs: seq<Byte>)
    requires ByteStart(c) && CarriesBytes(ws, bs) && c.phase == CCC_BYTE && c.byteInMsg >= 1
    ensures CoreRun(c, FlatBytes(ws)).ccc.isEntdaa == c.ccc.isEntdaa
    decreases bs
  {
    hide CarriesByte, Flat;
    if bs != [] {
      ByteEffect(c, ws[0], bs[0]);
      CoreRunAppend(c, Flat(ws[0]), FlatBytes(ws[1..]));
      BytesKeepEntdaa(CoreRun(c, Flat(ws[0])), ws[1..], bs[1..]);
    }
  }

  /** Behind a command, ENTDAA is in force if it was before or is this command. */
  lemma CommandSetsEntdaa(c: Core, w: FrameWave, f: Frame)
    requires c.prevScl == 1 && c.prevSda == 1 && c.phase != HDR_MODE && IsFrame(w, f) && !IsEnthdr(f.code)
    ensures CoreRun(c, CommandSamples(w)).ccc.isEntdaa == (c.ccc.isEntdaa || f.code == 0x07)
  {
    hide CarriesByte, CarriesHeader, IsHigh, IsLow, IsStart, AreSegs, StartSamples, Flat, FlatBytes, CoreRun, OnStart,
         AddrAckFall, MatchesDut;
    var st, hd, cd, ex := StartSamples(w.start), Flat(w.header), Flat(w.code), FlatBytes(w.extra);
    HighRun(c, w.idle);
    StartEffect(c, w.start);
    AnyStart(c);
    StartKeepsEntdaa(c);
    var c2 := CoreRun(c, st);
    var e := HeaderEffect(c2, w.header, 0x7E, false);
    BroadcastAck(e);
    AckKeepsEntdaa(e);
    var c3 := CoreRun(c2, hd);
    ByteEffect(c3, w.code, f.code);
    BytesKeepEntdaa(CoreRun(c3, cd), w.extra, f.extra);
    CoreRunAppend(c, w.idle, st + (hd + (cd + ex)));
    CoreRunAppend(c, st, hd + (cd + ex));
    CoreRunAppend(c2, hd, cd + ex);
    CoreRunAppend(c3, cd, ex);
  }

  lemma BroadcastReadAck(e: Core)
    requires e.phase == ADDR_ACK && e.hdr.isBroadcast && e.hdr.rnw == 1
    ensures AddrAckFall(e, 0).phase == if e.ccc.isEntdaa then ENTDAA else READ_DATA
  {
  }

  /** A Repeated START with an acknowledged header 7E/R. */
  predicate IsOpener(w: SegWave) {
    IsSeg(w.(bytes := []), Seg(0x7E, true, []))
  }

  function OpenerSamples(w: SegWave): seq<Sample> {
    (w.low + ([w.rise] + w.high)) + (StartSamples(w.start) + Flat(w.header))
  }

  lemma OpenerEffect(c: Core, w: SegWave)
    requires Ready(c) && IsOpener(w)
    ensures CoreRun(c, OpenerSamples(w)).phase == if c.ccc.isEntdaa then ENTDAA else READ_DATA
  {
    hide OnRise, OnStart, AddrAckFall, MatchesDut, StartSamples, Flat, CoreRun, IsLow, IsHigh, IsStart, CarriesByte;
    var up, st, hd := w.low + ([w.rise] + w.high), StartSamples(w.start), Flat(w.header);
    RaiseClock(c, w.low, w.rise, w.high, 1);
    ConditionRise(c, 1, w.rise.dut.Driving());
    var c1 := CoreRun(c, up);
    StartEffect(c1, w.start);
    RepeatedStart(c1);
    StartKeepsEntdaa(c1);
    var c2 := CoreRun(c1, st);
    var e := HeaderEffect(c2, w.header, 0x7E, true);
    BroadcastReadAck(e);
    CoreRunAppend(c, up, st + hd);
    CoreRunAppend(c1, st, hd);
  }

  /**
    Whatever happened before the last STOP: behind S, 7E/W and a command, an
    acknowledged 7E/R opens a round exactly when the command is ENTDAA, and is a
    read otherwise.
   */
  lemma RoundOpensIff(c: Core, stop: Sample, w: FrameWave, f: Frame, opener: SegWave)
    requires c.prevScl == 1 && c.prevSda == 0 && At(stop, 1, 1)
    requires IsFrame(w, f) && !(0x20 <= f.code <= 0x27) && IsOpener(opener)
    ensures var d := CoreRun(c, [stop] + (CommandSamples(w) + OpenerSamples(opener)));
      d.phase == if f.code == 0x07 then ENTDAA else READ_DATA
  {
    hide CoreRun, CommandSamples, OpenerSamples, IsFrame, IsOpener, Ready;
    StopForgets(c, stop);
    var c1 := CoreRun(c, [stop]);
    CommandEffect(c1, w, f);
    CommandSetsEntdaa(c1, w, f);
    OpenerEffect(CoreRun(c1, CommandSamples(w)), opener);
    CoreRunAppend(c, [stop], CommandSamples(w) + OpenerSamples(opener));
    CoreRunAppend(c1, CommandSamples(w), OpenerSamples(opener));
  }

  // ---------------------------------------------------------------------
  // Statistics
  // ---------------------------------------------------------------------

  /** How often an edge is met outside HDR mode. */
  function Met(c: Core, ss: seq<Sample>, e: Edge): nat
    decreases ss
  {
    if ss == [] then 0
    else
      (if ss[0].Defined() && c.phase != HDR_MODE && EdgeOf(c, ss[0].scl.value, ss[0].sda.value) == e then 1 else 0) +
      Met(CoreStep(c, ss[0]), ss[1..], e)
  }

  /** STARTs that find the bus free. */
  function FirstStarts(c: Core, ss: seq<Sample>): nat
    decreases ss
  {
    if ss == [] then 0
    else
      (if ss[0].Defined() && c.phase != HDR_MODE && !c.busActive
          && EdgeOf(c, ss[0].scl.value, ss[0].sda.value) == StartEdge then 1 else 0) +
      FirstStarts(CoreStep(c, ss[0]), ss[1..])
  }

  lemma StatsStep(c: Core, s: Sample)
    ensures var d, e := CoreStep(c, s), if s.Defined() && c.phase != HDR_MODE
                                        then EdgeOf(c, s.scl.value, s.sda.value) else NoEdge;
      && d.stats.addrPhases == c.stats.addrPhases + (if e == StartEdge then 1 else 0)
      && d.stats.starts == c.stats.starts + (if e == StartEdge && !c.busActive then 1 else 0)
      && d.stats.stops == c.stats.stops + (if e == StopEdge then 1 else 0)
      && d.stats.sclEdges == c.stats.sclEdges + (if e == RiseEdge then 1 else 0)
  {
    if s.Defined() { FallKeepsStats(c, s.sda.value); }
    hide OnFall;
  }

  lemma FallKeepsStats(c: Core, sda: Bit)
    ensures var d := OnFall(c, sda);
      && d.stats.addrPhases == c.stats.addrPhases && d.stats.starts == c.stats.starts
      && d.stats.stops == c.stats.stops && d.stats.sclEdges == c.stats.sclEdges
  {
  }

  /** The statistics count what is on the wires, sample by sample, over every run. */
  lemma {:induction false} StatsCount(c: Core, ss: seq<Sample>)
    ensures var s, t := c.stats, CoreRun(c, ss).stats;
      && t.addrPhases == s.addrPhases + Met(c, ss, StartEdge) && t.starts == s.starts + FirstStarts(c, ss)
      && t.stops == s.stops + Met(c, ss, StopEdge) && t.sclEdges == s.sclEdges + Met(c, ss, RiseEdge)
    decreases ss
  {
    hide CoreStep, EdgeOf;
    if ss != [] {
      StatsStep(c, ss[0]);
      StatsCount(CoreStep(c, ss[0]), ss[1..]);
    }
  }
}
