/**
  No false alarms over whole transfers: reads and writes of the DUT, private or
  under a command, in which the DUT does what is asked of it.
 */
module BusMonitorTransfers {
  import opened Wrappers
  import opened Bits
  import opened BusMonitorModel
  import opened BusMonitorInvariants
  import opened BusMonitorRuns
  import opened BusMonitorDecode
  import opened BusMonitorFrames
  import opened BusMonitorResponses
  import opened BusMonitorConduct

  // ---------------------------------------------------------------------
  // Conduct over a transfer
  // ---------------------------------------------------------------------

  /** Not driving at the rise, and in order at the fall. */
  predicate SilentClk(k: Clk) {
    Silent(k.rise.dut) && Fits(k.fall.dut)
  }

  /** A header the DUT only listens to, and an ACK it may give; it lets go of the ACK of a write in time. */
  predicate HeaderConduct(ks: seq<Clk>, read: bool) {
    && |ks| == 9 && (forall i :: 0 <= i < 8 ==> SilentClk(ks[i]))
    && OpenDrainOnly(ks[8].rise.dut) && Fits(ks[8].fall.dut) && (!read ==> Releases(ks[8]))
  }

  predicate ListensToByte(ks: seq<Clk>) {
    |ks| == 9 && forall i :: 0 <= i < 9 ==> SilentClk(ks[i])
  }

  /** Every bit and the T-bit pushed at the level on SDA, and the T-bit released in time. */
  predicate SendsByte(ks: seq<Clk>) {
    && |ks| == 9
    && (forall i :: 0 <= i < 9 ==>
          ks[i].rise.sda.Some? && Pushes(ks[i].rise.dut, ks[i].rise.sda.value) && Fits(ks[i].fall.dut))
    && Releases(ks[8])
  }

  predicate SegConduct(w: SegWave, read: bool) {
    && Silent(w.rise.dut) && Fits(w.start.fall.dut) && HeaderConduct(w.header, read)
    && forall i :: 0 <= i < |w.bytes| ==> if read then SendsByte(w.bytes[i]) else ListensToByte(w.bytes[i])
  }

  // ---------------------------------------------------------------------
  // A header
  // ---------------------------------------------------------------------

  lemma {:induction false} HeaderBitsClean(c: Core, d: Deadlines, ks: seq<Clk>, addr: Address, read: bool, n: nat)
    requires HeaderStart(c) && |ks| >= 8 && n <= 8 && NonePending(d)
    requires var v := addr * 2 + if read then 1 else 0; forall i :: 0 <= i < 8 ==> Carries(ks[i], BitAt(v, i))
    requires forall i :: 0 <= i < n ==> SilentClk(ks[i])
    ensures Clean(c, d, Flat(ks[..n]))
    decreases n
  {
    hide BitAt, CoreRun, DeadlineRun, Clean, HeaderStart, Carries, Pulse;
    if n == 0 {
      assert ks[..0] == [] && Flat([]) == [];
      NothingClean(c, d);
    } else {
      var k, v := ks[n - 1], addr * 2 + if read then 1 else 0;
      HeaderBitsClean(c, d, ks, addr, read, n - 1);
      AddrBits(c, ks, v, n - 1);
      var e, f := CoreRun(c, Flat(ks[..n - 1])), DeadlineRun(d, c, Flat(ks[..n - 1]));
      CleanEndsIdle(c, d, Flat(ks[..n - 1]));
      assert ks[..n] == ks[..n - 1] + [k];
      FlatAppend(ks[..n - 1], k);
      SilentRise(e, f, k, BitAt(v, n - 1));
      AddressAims(e, BitAt(v, n - 1), k.rise.dut.Driving());
      ClkClean(e, f, k, BitAt(v, n - 1));
      CleanAppend(c, d, Flat(ks[..n - 1]), ClkSamples(k));
    }
  }

  lemma CleanEndsIdle(c: Core, d: Deadlines, ss: seq<Sample>)
    requires Clean(c, d, ss)
    ensures NonePending(DeadlineRun(d, c, ss))
  {
  }

  lemma AddressAims(c: Core, b: Bit, driving: bool)
    requires c.phase == ADDR_BITS
    ensures Aimed(Pulse(c, b, driving))
  {
  }

  lemma AckAims(c: Core, b: Bit, driving: bool)
    requires c.phase == ADDR_ACK
    ensures Aimed(Pulse(c, b, driving))
  {
    hide AddrBitRise, AddrBitFall, IbiAckFall, CccTbitFall, WriteTbitFall, ReadTbitFall, EntdaaFall, IbiDataTbitFall,
         DataBitFall;
  }

  lemma HeaderClean(c: Core, d: Deadlines, ks: seq<Clk>, addr: Address, read: bool)
    requires HeaderStart(c) && CarriesHeader(ks, addr, read) && (c.hdr.isSr || !read)
    requires NonePending(d) && HeaderConduct(ks, read)
    ensures Clean(c, d, Flat(ks))
  {
    hide BitAt, CoreRun, DeadlineRun, Clean, HeaderStart, Carries, Pulse, Releases, SilentClk;
    HeaderBitsClean(c, d, ks, addr, read, 8);
    HeaderDecoded(c, ks, addr, read);
    var e, f := CoreRun(c, Flat(ks[..8])), DeadlineRun(d, c, Flat(ks[..8]));
    CleanEndsIdle(c, d, Flat(ks[..8]));
    assert ks == ks[..8] + [ks[8]];
    FlatAppend(ks[..8], ks[8]);
    AckRise(e, f, ks[8], 0);
    AckAims(e, 0, ks[8].rise.dut.Driving());
    ClkClean(e, f, ks[8], 0);
    CleanAppend(c, d, Flat(ks[..8]), ClkSamples(ks[8]));
  }

  // ---------------------------------------------------------------------
  // A byte
  // ---------------------------------------------------------------------

  /** At the start of a byte that concerns the DUT. */
  predicate OwnByteStart(c: Core) {
    ByteStart(c) && Aimed(c) && (c.phase == READ_DATA ==> c.hdr.isAddressed || c.hdr.isBroadcast)
  }

  /** The rise of bit `i` of a byte is in order. */
  predicate ByteConduct(c: Core, ks: seq<Clk>) {
    if c.phase == READ_DATA then SendsByte(ks) else ListensToByte(ks)
  }

  lemma ByteRise(c: Core, e: Core, d: Deadlines, ks: seq<Clk>, v: Byte, n: nat, b: Bit)
    requires ByteStart(c) && n < 9 && InByte(c, e, v, if n < 8 then n else 8) && NonePending(d)
    requires ByteConduct(c, ks) && At(ks[n].rise, 1, b)
    ensures RiseFine(e, d, ks[n], b) && Fits(ks[n].fall.dut)
  {
    hide Releases, RiseFine, Silent, Fits, Shr;
    if c.phase == READ_DATA {
      PushedRise(e, d, ks[n], b);
    } else {
      SilentRise(e, d, ks[n], b);
    }
  }

  lemma ByteAims(c: Core, e: Core, v: Byte, n: nat, b: Bit, driving: bool)
    requires OwnByteStart(c) && n < 9 && InByte(c, e, v, if n < 8 then n else 8)
    ensures Aimed(Pulse(e, b, driving))
  {
    hide AddrBitRise, AddrBitFall, AddrAckFall, IbiAckFall, EntdaaFall, IbiDataTbitFall, Shr;
  }

  lemma {:induction false} ByteBitsClean(c: Core, d: Deadlines, ks: seq<Clk>, v: Byte, n: nat)
    requires OwnByteStart(c) && CarriesByte(ks, v) && n <= 8 && NonePending(d) && ByteConduct(c, ks)
    ensures Clean(c, d, Flat(ks[..n]))
    decreases n
  {
    hide BitAt, CoreRun, DeadlineRun, Clean, Pulse, ByteConduct, RiseFine, Fits, InByte;
    if n == 0 {
      assert ks[..0] == [] && Flat([]) == [];
      NothingClean(c, d);
    } else {
      var k, b := ks[n - 1], BitAt(v, n - 1);
      ByteBitsClean(c, d, ks, v, n - 1);
      DataBits(c, ks, v, n - 1);
      var e, f := CoreRun(c, Flat(ks[..n - 1])), DeadlineRun(d, c, Flat(ks[..n - 1]));
      CleanEndsIdle(c, d, Flat(ks[..n - 1]));
      assert ks[..n] == ks[..n - 1] + [k];
      FlatAppend(ks[..n - 1], k);
      InByteIsOpen(c, e, v, n - 1);
      ByteRise(c, e, f, ks, v, n - 1, b);
      ByteAims(c, e, v, n - 1, b, k.rise.dut.Driving());
      ClkClean(e, f, k, b);
      CleanAppend(c, d, Flat(ks[..n - 1]), ClkSamples(k));
    }
  }

  lemma InByteIsOpen(c: Core, e: Core, v: Byte, n: nat)
    requires AccumulatesByte(c.phase) && n <= 8 && InByte(c, e, v, n)
    ensures e.prevScl == 0 && e.phase != HDR_MODE
  {
    hide Shr;
  }

  lemma ByteClean(c: Core, d: Deadlines, ks: seq<Clk>, v: Byte)
    requires OwnByteStart(c) && CarriesByte(ks, v) && NonePending(d) && ByteConduct(c, ks)
    ensures Clean(c, d, Flat(ks))
  {
    hide BitAt, CoreRun, DeadlineRun, Clean, Pulse, ByteConduct, RiseFine, Fits, InByte;
    ByteBitsClean(c, d, ks, v, 8);
    DataBits(c, ks, v, 8);
    var e, f := CoreRun(c, Flat(ks[..8])), DeadlineRun(d, c, Flat(ks[..8]));
    CleanEndsIdle(c, d, Flat(ks[..8]));
    var t: Bit := if Carries(ks[8], 0) then 0 else 1;
    assert ks == ks[..8] + [ks[8]];
    FlatAppend(ks[..8], ks[8]);
    InByteIsOpen(c, e, v, 8);
    ByteRise(c, e, f, ks, v, 8, t);
    ByteAims(c, e, v, 8, t, ks[8].rise.dut.Driving());
    ClkClean(e, f, ks[8], t);
    CleanAppend(c, d, Flat(ks[..8]), ClkSamples(ks[8]));
  }

  /** The state stays at the start of a byte, for the same target. */
  predicate SameTarget(c: Core, e: Core) {
    OwnByteStart(e) && e.phase == c.phase && e.hdr == c.hdr && e.busActive == c.busActive && e.own == c.own
  }

  predicate Commanded(c: Core, bs: seq<Byte>) {
    c.phase == CCC_BYTE && c.byteInMsg == 0 && bs != [] ==> !IsEnthdr(bs[0])
  }

  lemma {:induction false} BytesClean(c: Core, d: Deadlines, ws: seq<seq<Clk>>, bs: seq<Byte>)
    requires OwnByteStart(c) && CarriesBytes(ws, bs) && NonePending(d) && Commanded(c, bs)
    requires forall i :: 0 <= i < |ws| ==> ByteConduct(c, ws[i])
    ensures Clean(c, d, FlatBytes(ws)) && SameTarget(c, CoreRun(c, FlatBytes(ws)))
    ensures c.phase != CCC_BYTE ==> CoreRun(c, FlatBytes(ws)).ccc.code == c.ccc.code
    ensures bs == [] ==> CoreRun(c, FlatBytes(ws)) == c
    decreases bs
  {
    hide CarriesByte, Flat, Clean, DeadlineRun, SendsByte, ListensToByte;
    if bs == [] {
      NothingClean(c, d);
    } else {
      ByteClean(c, d, ws[0], bs[0]);
      CleanEndsIdle(c, d, Flat(ws[0]));
      ByteEffect(c, ws[0], bs[0]);
      var c1, d1 := CoreRun(c, Flat(ws[0])), DeadlineRun(d, c, Flat(ws[0]));
      CoreRunAppend(c, Flat(ws[0]), FlatBytes(ws[1..]));
      BytesClean(c1, d1, ws[1..], bs[1..]);
      CleanAppend(c, d, Flat(ws[0]), FlatBytes(ws[1..]));
    }
  }

  // ---------------------------------------------------------------------
  // A segment
  // ---------------------------------------------------------------------

  /** Between two pieces of a transfer: SCL low. */
  predicate Between(c: Core) {
    c.prevScl == 0 && c.busActive && (AccumulatesByte(c.phase) || c.phase == IDLE)
  }

  /** SCL may rise for a START or STOP. */
  predicate Upward(c: Core) {
    c.prevScl == 0 && (AccumulatesByte(c.phase) || c.phase in {IDLE, IBI_MDB, IBI_DATA})
  }

  lemma UpClean(c: Core, d: Deadlines, low: seq<Sample>, rise: Sample, high: seq<Sample>, b: Bit)
    requires Upward(c) && NonePending(d)
    requires IsLow(low) && At(rise, 1, b) && IsHigh(high, b) && Silent(rise.dut)
    ensures Clean(c, d, low + ([rise] + high))
  {
    hide CoreRun, DeadlineRun, CoreStep, DeadlineStep, RaisedBy, Clean, IsLow, IsHigh, Silent, NonePending;
    LowClean(c, d, low);
    CleanEndsIdle(c, d, low);
    LowRun(c, low);
    var c1, d1 := CoreRun(c, low), DeadlineRun(d, c, low);
    SilentUp(c1, d1, rise, b);
    OneClean(c1, d1, rise);
    RiseState(c1, rise, b);
    SampleAlone(d1, c1, rise);
    HighClean(CoreStep(c1, rise), DeadlineStep(d1, c1, rise), high);
    CleanAppend(c1, d1, [rise], high);
    CleanAppend(c, d, low, [rise] + high);
  }

  lemma SilentUp(c: Core, d: Deadlines, s: Sample, b: Bit)
    requires Upward(c) && NonePending(d) && At(s, 1, b) && Silent(s.dut)
    ensures RaisedBy(c, d, s, {}) == None && NonePending(DeadlineStep(d, c, s))
  {
    hide OnFall;
  }

  lemma StartClean(c: Core, d: Deadlines, w: StartWave)
    requires c.prevScl == 1 && c.prevSda == 1 && c.phase != HDR_MODE && IsStart(w) && NonePending(d) && Fits(w.fall.dut)
    ensures Clean(c, d, StartSamples(w))
  {
    hide CoreRun, DeadlineRun, CoreStep, DeadlineStep, RaisedBy, Clean, IsHigh, Fits, NonePending;
    StartSampleClean(c, d, w.start);
    OneClean(c, d, w.start);
    SampleAlone(d, c, w.start);
    var c1, d1 := CoreStep(c, w.start), DeadlineStep(d, c, w.start);
    HighClean(c1, d1, w.hold);
    CleanEndsIdle(c1, d1, w.hold);
    HighRun(c1, w.hold);
    StartFallClean(c1, DeadlineRun(d1, c1, w.hold), w.fall);
    OneClean(c1, DeadlineRun(d1, c1, w.hold), w.fall);
    CleanAppend(c1, d1, w.hold, [w.fall]);
    CleanAppend(c, d, [w.start], w.hold + [w.fall]);
  }

  lemma StartSampleClean(c: Core, d: Deadlines, s: Sample)
    requires c.prevScl == 1 && c.prevSda == 1 && c.phase != HDR_MODE && At(s, 1, 0)
    ensures RaisedBy(c, d, s, {}) == None && NonePending(DeadlineStep(d, c, s))
    ensures var e := CoreStep(c, s); e.phase == ADDR_BITS && e.bitCount == 0 && e.prevScl == 1 && e.prevSda == 0
  {
  }

  lemma StartFallClean(c: Core, d: Deadlines, s: Sample)
    requires c.phase == ADDR_BITS && c.bitCount == 0 && c.prevScl == 1 && At(s, 0, 0) && NonePending(d) && Fits(s.dut)
    ensures RaisedBy(c, d, s, {}) == None && NonePending(DeadlineStep(d, c, s))
  {
  }

  /** The state behind a header for the DUT. */
  lemma OwnHeaderState(e: Core)
    requires e.phase == ADDR_ACK && e.hdr.isAddressed && !e.hdr.isBroadcast && 0 <= e.hdr.rnw <= 1
    ensures var d := AddrAckFall(e, 0).(prevScl := 0, prevSda := 0);
      && OwnByteStart(d) && d.phase == (if e.hdr.rnw == 1 then READ_DATA else WRITE_DATA)
      && d.busActive == e.busActive && d.own == e.own && d.ccc.code == e.ccc.code
  {
  }

  lemma SrState(c: Core)
    requires c.busActive
    ensures var d := OnStart(c).(prevScl := 0, prevSda := 0);
      HeaderStart(d) && d.hdr.isSr && d.busActive && d.own == c.own && d.ccc.code == c.ccc.code
  {
  }

  lemma UpState(c: Core, b: Bit, driving: bool)
    requires Between(c)
    ensures var d := OnRise(c, b, driving).(prevScl := 1, prevSda := b);
      && d.phase == c.phase && d.ccc == c.ccc && d.busActive && d.own == c.own && d.hdr == c.hdr
  {
  }

  lemma SegClean(c: Core, d: Deadlines, w: SegWave, s: Seg)
    requires Between(c) && NonePending(d) && IsSeg(w, s) && Addressable(c.own, s) && SegConduct(w, s.read)
    ensures Clean(c, d, SegSamples(w))
    ensures var e := CoreRun(c, SegSamples(w)); Between(e) && e.own == c.own && e.ccc.code == c.ccc.code
  {
    hide CoreRun, DeadlineRun, Clean, StartSamples, Flat, FlatBytes, IsLow, IsHigh, IsStart, HeaderConduct,
         OnStart, OnRise, AddrAckFall, Carries, SendsByte, ListensToByte, HeaderStart, BitAt, NonePending, Silent, Fits,
         OwnByteStart;
    var up, st, hd, bs := w.low + ([w.rise] + w.high), StartSamples(w.start), Flat(w.header), FlatBytes(w.bytes);
    UpClean(c, d, w.low, w.rise, w.high, 1);
    CleanEndsIdle(c, d, up);
    RaiseClock(c, w.low, w.rise, w.high, 1);
    UpState(c, 1, w.rise.dut.Driving());
    var c1, d1 := CoreRun(c, up), DeadlineRun(d, c, up);
    StartClean(c1, d1, w.start);
    CleanEndsIdle(c1, d1, st);
    StartEffect(c1, w.start);
    SrState(c1);
    var c2, d2 := CoreRun(c1, st), DeadlineRun(d1, c1, st);
    HeaderClean(c2, d2, w.header, s.addr, s.read);
    CleanEndsIdle(c2, d2, hd);
    var e := HeaderEffect(c2, w.header, s.addr, s.read);
    OwnHeaderState(e);
    var c3, d3 := CoreRun(c2, hd), DeadlineRun(d2, c2, hd);
    OpenedByte(e, c3);
    SegBytesConduct(c3, w.bytes, s.read);
    BytesClean(c3, d3, w.bytes, s.bytes);
    CleanAppend(c2, d2, hd, bs);
    CleanAppend(c1, d1, st, hd + bs);
    CleanAppend(c, d, up, st + (hd + bs));
    CoreRunAppend(c, up, st + (hd + bs));
    CoreRunAppend(c1, st, hd + bs);
    CoreRunAppend(c2, hd, bs);
    StillBetween(c3, CoreRun(c3, bs));
  }

  lemma OpenedByte(e: Core, c: Core)
    requires c.(stats := e.stats) == AddrAckFall(e, 0).(prevScl := 0, prevSda := 0)
    requires OwnByteStart(AddrAckFall(e, 0).(prevScl := 0, prevSda := 0))
    ensures OwnByteStart(c)
  {
    hide AddrAckFall;
  }

  lemma SegBytesConduct(c: Core, ws: seq<seq<Clk>>, read: bool)
    requires c.phase == (if read then READ_DATA else WRITE_DATA)
    requires forall i :: 0 <= i < |ws| ==> if read then SendsByte(ws[i]) else ListensToByte(ws[i])
    ensures forall i :: 0 <= i < |ws| ==> ByteConduct(c, ws[i])
  {
    hide SendsByte, ListensToByte;
  }

  lemma StillBetween(c: Core, e: Core)
    requires SameTarget(c, e) && c.busActive
    ensures Between(e)
  {
  }

  lemma {:induction false} SegsClean(c: Core, d: Deadlines, ws: seq<SegWave>, ss: seq<Seg>)
    requires Between(c) && NonePending(d) && AreSegs(ws, ss)
    requires forall i :: 0 <= i < |ss| ==> Addressable(c.own, ss[i]) && SegConduct(ws[i], ss[i].read)
    ensures Clean(c, d, FlatSegs(ws))
    ensures var e := CoreRun(c, FlatSegs(ws)); Between(e) && e.own == c.own && e.ccc.code == c.ccc.code
    decreases ss
  {
    hide IsSeg, SegSamples, SegConduct, Clean, DeadlineRun, NonePending, Between;
    if ss == [] {
      NothingClean(c, d);
    } else {
      assert Addressable(c.own, ss[0]);
      SegClean(c, d, ws[0], ss[0]);
      CleanEndsIdle(c, d, SegSamples(ws[0]));
      var c1, d1 := CoreRun(c, SegSamples(ws[0])), DeadlineRun(d, c, SegSamples(ws[0]));
      SegsClean(c1, d1, ws[1..], ss[1..]);
      CoreRunAppend(c, SegSamples(ws[0]), FlatSegs(ws[1..]));
      CleanAppend(c, d, SegSamples(ws[0]), FlatSegs(ws[1..]));
    }
  }

  // ---------------------------------------------------------------------
  // The opening: START, the broadcast header and a command, if any
  // ---------------------------------------------------------------------

  function Opening(idle: seq<Sample>, start: StartWave, header: seq<Clk>, cmd: seq<seq<Clk>>): seq<Sample> {
    idle + (StartSamples(start) + (Flat(header) + FlatBytes(cmd)))
  }

  predicate IsOpening(idle: seq<Sample>, start: StartWave, header: seq<Clk>, cmd: seq<seq<Clk>>, bs: seq<Byte>) {
    IsHigh(idle, 1) && IsStart(start) && CarriesHeader(header, 0x7E, false) && CarriesBytes(cmd, bs)
  }

  /** In the opening the DUT gives at most the ACK. */
  predicate OpeningConduct(start: StartWave, header: seq<Clk>, cmd: seq<seq<Clk>>) {
    && Fits(start.fall.dut) && HeaderConduct(header, false)
    && forall i :: 0 <= i < |cmd| ==> ListensToByte(cmd[i])
  }

  lemma ForgottenState(e: Core)
    requires e.phase == ADDR_ACK && e.hdr.isBroadcast && e.hdr.rnw == 0
    ensures var d := AddrAckFall(e, 0).(prevScl := 0, prevSda := 0);
      && OwnByteStart(d) && d.phase == CCC_BYTE && d.byteInMsg == 0 && d.ccc.code == None && !d.ccc.inRead
      && d.busActive == e.busActive && d.own == e.own
  {
  }

  /** After the broadcast header: at the command, with every earlier command forgotten. */
  lemma AddressedAll(c: Core, d: Deadlines, idle: seq<Sample>, start: StartWave, header: seq<Clk>)
    requires c.prevScl == 1 && c.prevSda == 1 && c.phase != HDR_MODE && NonePending(d)
    requires IsHigh(idle, 1) && IsStart(start) && CarriesHeader(header, 0x7E, false)
    requires Fits(start.fall.dut) && HeaderConduct(header, false)
    ensures var ss := idle + (StartSamples(start) + Flat(header));
      && Clean(c, d, ss)
      && var e := CoreRun(c, ss);
         && OwnByteStart(e) && e.phase == CCC_BYTE && e.byteInMsg == 0 && e.ccc.code == None && !e.ccc.inRead
         && e.busActive && e.own == c.own
  {
    hide CoreRun, DeadlineRun, Clean, StartSamples, Flat, IsHigh, IsStart, HeaderConduct, OnStart, AddrAckFall, Carries,
         HeaderStart, BitAt, NonePending, Fits, OwnByteStart;
    var st, hd := StartSamples(start), Flat(header);
    HighClean(c, d, idle);
    HighRun(c, idle);
    CleanEndsIdle(c, d, idle);
    var d1 := DeadlineRun(d, c, idle);
    StartClean(c, d1, start);
    CleanEndsIdle(c, d1, st);
    StartEffect(c, start);
    AnyStart(c);
    var c2, d2 := CoreRun(c, st), DeadlineRun(d1, c, st);
    StartedOf(c2, c);
    HeaderClean(c2, d2, header, 0x7E, false);
    var e := HeaderEffect(c2, header, 0x7E, false);
    ForgottenState(e);
    OpenedByte(e, CoreRun(c2, hd));
    CleanAppend(c, d1, st, hd);
    CleanAppend(c, d, idle, st + hd);
    CoreRunAppend(c, idle, st + hd);
    CoreRunAppend(c, st, hd);
  }

  lemma StartedOf(c2: Core, c: Core)
    requires c2 == OnStart(c).(prevScl := 0, prevSda := 0) && HeaderStart(OnStart(c).(prevScl := 0, prevSda := 0))
    ensures HeaderStart(c2)
  {
  }

  lemma OpeningClean(c: Core, d: Deadlines, idle: seq<Sample>, start: StartWave, header: seq<Clk>,
                     cmd: seq<seq<Clk>>, bs: seq<Byte>)
    requires c.prevScl == 1 && c.prevSda == 1 && c.phase != HDR_MODE && NonePending(d)
    requires IsOpening(idle, start, header, cmd, bs) && OpeningConduct(start, header, cmd)
    requires bs != [] ==> !(0x20 <= bs[0] <= 0x27)
    ensures var ss := Opening(idle, start, header, cmd);
      && Clean(c, d, ss)
      && var e := CoreRun(c, ss); Between(e) && e.own == c.own && (bs == [] ==> e.ccc.code == None)
  {
    hide CoreRun, DeadlineRun, Clean, StartSamples, Flat, FlatBytes, IsHigh, IsStart, HeaderConduct, ListensToByte,
         NonePending, Fits, OwnByteStart, CarriesHeader, CarriesByte;
    AddressedAll(c, d, idle, start, header);
    var hd := idle + (StartSamples(start) + Flat(header));
    CleanEndsIdle(c, d, hd);
    var c1, d1 := CoreRun(c, hd), DeadlineRun(d, c, hd);
    BytesClean(c1, d1, cmd, bs);
    StillBetween(c1, CoreRun(c1, FlatBytes(cmd)));
    assert Opening(idle, start, header, cmd) == hd + FlatBytes(cmd);
    CleanAppend(c, d, hd, FlatBytes(cmd));
    CoreRunAppend(c, hd, FlatBytes(cmd));
  }

  // ---------------------------------------------------------------------
  // Whole transfers
  // ---------------------------------------------------------------------

  /** An opening, segments and the rise in front of the STOP. */
  lemma BodyClean(c: Core, d: Deadlines, pre: seq<Sample>, ws: seq<SegWave>, ss: seq<Seg>,
                  low: seq<Sample>, rise: Sample, high: seq<Sample>)
    requires Clean(c, d, pre) && Between(CoreRun(c, pre)) && AreSegs(ws, ss)
    requires var e := CoreRun(c, pre);
      forall i :: 0 <= i < |ss| ==> Addressable(e.own, ss[i]) && SegConduct(ws[i], ss[i].read)
    requires IsLow(low) && At(rise, 1, 0) && IsHigh(high, 0) && Silent(rise.dut)
    ensures var ss := pre + (FlatSegs(ws) + (low + ([rise] + high)));
      && Clean(c, d, ss)
      && var e := CoreRun(c, ss); e.ccc.code == CoreRun(c, pre).ccc.code && e.prevScl == 1 && e.prevSda == 0
  {
    hide CoreRun, DeadlineRun, Clean, FlatSegs, IsLow, IsHigh, AreSegs, SegConduct, Silent, NonePending, Between,
         OnRise;
    CleanEndsIdle(c, d, pre);
    var c1, d1 := CoreRun(c, pre), DeadlineRun(d, c, pre);
    SegsClean(c1, d1, ws, ss);
    CleanEndsIdle(c1, d1, FlatSegs(ws));
    var c2, d2 := CoreRun(c1, FlatSegs(ws)), DeadlineRun(d1, c1, FlatSegs(ws));
    BetweenIsOpen(c2);
    UpClean(c2, d2, low, rise, high, 0);
    RaiseClock(c2, low, rise, high, 0);
    UpState(c2, 0, rise.dut.Driving());
    var up := low + ([rise] + high);
    CleanAppend(c1, d1, FlatSegs(ws), up);
    CleanAppend(c, d, pre, FlatSegs(ws) + up);
    CoreRunAppend(c, pre, FlatSegs(ws) + up);
    CoreRunAppend(c1, FlatSegs(ws), up);
  }

  lemma BetweenIsOpen(c: Core)
    requires Between(c)
    ensures Upward(c) && c.phase != HDR_MODE && c.prevScl == 0
  {
  }

  /** After a clean stretch the STOP raises what the response check finds. */
  lemma StopVerdict(c: Core, d: Deadlines, ss: seq<Sample>, stop: Sample)
    requires Clean(c, d, ss) && At(stop, 1, 1)
    requires var e := CoreRun(c, ss); e.prevScl == 1 && e.prevSda == 0
    ensures var e := CoreRun(c, ss);
      FirstRaise(c, d, Clocks(ss + [stop]), {}) ==
      if e.phase != HDR_MODE && WrongResponse(e.ccc, e.own, stop.sigs) then Some(CCC_RESPONSE_DATA) else None
  {
    hide CoreRun, DeadlineRun, FirstRaise, RaisedBy, WrongResponse;
    SamplesRaise(c, d, ss, [stop]);
    var e, f := CoreRun(c, ss), DeadlineRun(d, c, ss);
    OneRaise(e, f, stop, {});
    StopSample(e, f, stop);
  }

  lemma StopSample(e: Core, d: Deadlines, stop: Sample)
    requires e.prevScl == 1 && e.prevSda == 0 && At(stop, 1, 1) && NonePending(d)
    ensures RaisedBy(e, d, stop, {}) ==
            if e.phase != HDR_MODE && WrongResponse(e.ccc, e.own, stop.sigs) then Some(CCC_RESPONSE_DATA) else None
  {
    hide WrongResponse;
  }

  /**
    No false alarms in private transfers.  Behind the broadcast header, any
    number of reads from and writes to the DUT, with any bytes and any number
    of samples per level, up to the STOP: a DUT that gives its ACKs open-drain,
    pushes each data bit and T-bit at the level on SDA, lets go in time and
    drives nowhere else is not flagged.
   */
  lemma PrivateNeverFlagged(c: Core, d: Deadlines, idle: seq<Sample>, start: StartWave, header: seq<Clk>,
                            ws: seq<SegWave>, ss: seq<Seg>, low: seq<Sample>, rise: Sample, high: seq<Sample>,
                            stop: Sample)
    requires c.prevScl == 1 && c.prevSda == 1 && c.phase != HDR_MODE && NonePending(d)
    requires IsOpening(idle, start, header, [], []) && OpeningConduct(start, header, [])
    requires AreSegs(ws, ss)
    requires forall i :: 0 <= i < |ss| ==> Addressable(c.own, ss[i]) && SegConduct(ws[i], ss[i].read)
    requires IsLow(low) && At(rise, 1, 0) && IsHigh(high, 0) && Silent(rise.dut) && At(stop, 1, 1)
    ensures var body := Opening(idle, start, header, []) + (FlatSegs(ws) + (low + ([rise] + high)));
      FirstRaise(c, d, Clocks(body + [stop]), {}) == None
  {
    hide CoreRun, Clean, FlatSegs, IsLow, IsHigh, AreSegs, SegConduct, Silent, NonePending, Between, IsOpening,
         OpeningConduct, Opening, FirstRaise;
    var pre := Opening(idle, start, header, []);
    OpeningClean(c, d, idle, start, header, [], []);
    BodyClean(c, d, pre, ws, ss, low, rise, high);
    StopVerdict(c, d, pre + (FlatSegs(ws) + (low + ([rise] + high))), stop);
  }

  predicate FrameConduct(w: FrameWave, f: Frame) {
    && OpeningConduct(w.start, w.header, [w.code] + w.extra)
    && (forall i :: 0 <= i < |f.segs| && i < |w.segs| ==> SegConduct(w.segs[i], f.segs[i].read))
    && Silent(w.rise.dut)
  }

  lemma FrameSplits(w: FrameWave, f: Frame)
    requires IsFrame(w, f)
    ensures IsOpening(w.idle, w.start, w.header, [w.code] + w.extra, [f.code] + f.extra)
    ensures FrameSamples(w) ==
            Opening(w.idle, w.start, w.header, [w.code] + w.extra) + (FlatSegs(w.segs) + (w.low + ([w.rise] + w.high)))
  {
    hide CarriesByte, CarriesHeader, IsHigh, IsLow, IsStart, AreSegs, StartSamples, Flat, FlatSegs;
    assert ([w.code] + w.extra)[1..] == w.extra;
  }

  /**
    The verdict on a command frame, direct reads and writes included, for a DUT
    that drives as it should: nothing but a wrong answer to the last GET, which
    the STOP raises, is held against it.
   */
  lemma FrameVerdict(c: Core, d: Deadlines, w: FrameWave, f: Frame, stop: Sample)
    requires Inv(c) && c.prevScl == 1 && c.prevSda == 1 && c.phase != HDR_MODE && NonePending(d)
    requires IsFrame(w, f) && !(0x20 <= f.code <= 0x27) && FrameConduct(w, f) && At(stop, 1, 1)
    requires forall i :: 0 <= i < |f.segs| ==> Addressable(c.own, f.segs[i])
    ensures FirstRaise(c, d, Clocks(FrameSamples(w) + [stop]), {}) ==
            if AnswersWrongly(f, c.own, stop.sigs) then Some(CCC_RESPONSE_DATA) else None
  {
    hide CoreRun, Clean, FlatSegs, IsLow, IsHigh, IsSeg, SegConduct, Silent, NonePending, Between, IsOpening,
         OpeningConduct, Opening, FirstRaise, FrameSamples, AnswersWrongly, WrongResponse, Inv, CoreStep, Reports;
    FrameSplits(w, f);
    OpeningClean(c, d, w.idle, w.start, w.header, [w.code] + w.extra, [f.code] + f.extra);
    BodyClean(c, d, Opening(w.idle, w.start, w.header, [w.code] + w.extra), w.segs, f.segs, w.low, w.rise, w.high);
    StopVerdict(c, d, FrameSamples(w), stop);
    DecodesFrame(c, w, f, stop);
    InvRun(c, FrameSamples(w));
    FrameAnswer(CoreRun(c, FrameSamples(w)), f, stop.sigs);
  }

  lemma FrameAnswer(e: Core, f: Frame, sigs: Signals)
    requires Inv(e) && Reports(e, f)
    ensures e.phase != HDR_MODE
    ensures WrongResponse(e.ccc, e.own, sigs) <==> AnswersWrongly(f, e.own, sigs)
  {
    hide Inv, WantedResponse, Differs, ExpectedResponse;
    if WrongResponse(e.ccc, e.own, sigs) { WrongIsLastRead(e, f, sigs); }
    if AnswersWrongly(f, e.own, sigs) { SameExpectation(e, f, sigs); }
  }
}
