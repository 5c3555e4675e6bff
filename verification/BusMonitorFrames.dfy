/**
  Whole CCC frames: START, the broadcast header, a command with any bytes after
  it, direct segments of reads and writes to the DUT, and the STOP that closes
  them.  Whatever state the monitor was in, it reaches the STOP with the frame.
 */
module BusMonitorFrames {
  import opened Wrappers
  import opened Bits
  import opened BusMonitorModel
  import opened BusMonitorInvariants
  import opened BusMonitorDecode

  datatype Seg = Seg(addr: Address, read: bool, bytes: seq<Byte>)

  datatype Frame = Frame(code: Byte, extra: seq<Byte>, segs: seq<Seg>)

  /** A Repeated START, its header and the bytes after it. */
  datatype SegWave = SegWave(low: seq<Sample>, rise: Sample, high: seq<Sample>, start: StartWave,
                             header: seq<Clk>, bytes: seq<seq<Clk>>)

  datatype FrameWave = FrameWave(idle: seq<Sample>, start: StartWave, header: seq<Clk>, code: seq<Clk>,
                                 extra: seq<seq<Clk>>, segs: seq<SegWave>,
                                 low: seq<Sample>, rise: Sample, high: seq<Sample>)

  predicate CarriesBytes(ws: seq<seq<Clk>>, bs: seq<Byte>) {
    |ws| == |bs| && forall i :: 0 <= i < |bs| ==> CarriesByte(ws[i], bs[i])
  }

  function FlatBytes(ws: seq<seq<Clk>>): seq<Sample> {
    if ws == [] then [] else Flat(ws[0]) + FlatBytes(ws[1..])
  }

  predicate IsSeg(w: SegWave, s: Seg) {
    && IsLow(w.low) && At(w.rise, 1, 1) && IsHigh(w.high, 1) && IsStart(w.start)
    && CarriesHeader(w.header, s.addr, s.read) && CarriesBytes(w.bytes, s.bytes)
  }

  function SegSamples(w: SegWave): seq<Sample> {
    (w.low + ([w.rise] + w.high)) + (StartSamples(w.start) + (Flat(w.header) + FlatBytes(w.bytes)))
  }

  predicate AreSegs(ws: seq<SegWave>, ss: seq<Seg>) {
    |ws| == |ss| && forall i :: 0 <= i < |ss| ==> IsSeg(ws[i], ss[i])
  }

  function FlatSegs(ws: seq<SegWave>): seq<Sample> {
    if ws == [] then [] else SegSamples(ws[0]) + FlatSegs(ws[1..])
  }

  /** SCL and SDA high, the frame, and a STOP about to happen with SDA low and SCL high. */
  predicate IsFrame(w: FrameWave, f: Frame) {
    && IsHigh(w.idle, 1) && IsStart(w.start) && CarriesHeader(w.header, BROADCAST_ADDR, false)
    && CarriesByte(w.code, f.code) && CarriesBytes(w.extra, f.extra) && AreSegs(w.segs, f.segs)
    && IsLow(w.low) && At(w.rise, 1, 0) && IsHigh(w.high, 0)
  }

  function CommandSamples(w: FrameWave): seq<Sample> {
    w.idle + (StartSamples(w.start) + (Flat(w.header) + (Flat(w.code) + FlatBytes(w.extra))))
  }

  function FrameSamples(w: FrameWave): seq<Sample> {
    CommandSamples(w) + (FlatSegs(w.segs) + (w.low + ([w.rise] + w.high)))
  }

  // ---------------------------------------------------------------------
  // Bytes of a segment and of a command
  // ---------------------------------------------------------------------

  /** Inside a direct segment that has delivered `bs` so far. */
  predicate Collecting(c: Core, bs: seq<int>) {
    (c.phase == WRITE_DATA && c.ccc.inWrite && c.ccc.writeBytes == bs) ||
    (c.phase == READ_DATA && c.ccc.inRead && c.ccc.readBytes == bs)
  }

  /** What stays fixed while a frame is being read. */
  predicate SameFrame(c: Core, d: Core) {
    && d.busActive == c.busActive && d.own == c.own
    && d.ccc.code == c.ccc.code && d.ccc.definingByte == c.ccc.definingByte
  }

  lemma SegmentByte(c: Core, ks: seq<Clk>, b: Byte, got: seq<int>)
    requires ByteStart(c) && CarriesByte(ks, b) && Collecting(c, got)
    ensures var d := CoreRun(c, Flat(ks));
      && ByteStart(d) && d.phase == c.phase && Collecting(d, got + [b])
      && SameFrame(c, d) && d.ccc.directAddr == c.ccc.directAddr
  {
    hide CarriesByte, Flat, CoreRun;
    ByteEffect(c, ks, b);
  }

  lemma {:induction false} SegmentBytes(c: Core, ws: seq<seq<Clk>>, bs: seq<Byte>, got: seq<int>)
    requires ByteStart(c) && CarriesBytes(ws, bs) && Collecting(c, got)
    ensures var d := CoreRun(c, FlatBytes(ws));
      && ByteStart(d) && d.phase == c.phase && Collecting(d, got + bs)
      && SameFrame(c, d) && d.ccc.directAddr == c.ccc.directAddr
    decreases bs
  {
    hide CarriesByte, Flat, Collecting, ByteStart;
    if bs == [] {
      assert got + bs == got;
    } else {
      SegmentByte(c, ws[0], bs[0], got);
      var c1 := CoreRun(c, Flat(ws[0]));
      CoreRunAppend(c, Flat(ws[0]), FlatBytes(ws[1..]));
      SegmentBytes(c1, ws[1..], bs[1..], got + [bs[0]]);
      assert got + [bs[0]] + bs[1..] == got + bs;
    }
  }

  lemma {:induction false} CommandBytes(c: Core, ws: seq<seq<Clk>>, bs: seq<Byte>)
    requires ByteStart(c) && CarriesBytes(ws, bs) && c.phase == CCC_BYTE && c.byteInMsg >= 1 && c.ccc.code.Some?
    ensures var d := CoreRun(c, FlatBytes(ws));
      && ByteStart(d) && d.phase == CCC_BYTE && d.busActive == c.busActive && d.own == c.own
      && d.ccc.code == c.ccc.code
      && d.ccc.definingByte == (if c.byteInMsg == 1 && bs != [] then Some(bs[0] as int) else c.ccc.definingByte)
    decreases bs
  {
    hide CarriesByte, Flat;
    if bs != [] {
      ByteEffect(c, ws[0], bs[0]);
      CoreRunAppend(c, Flat(ws[0]), FlatBytes(ws[1..]));
      CommandBytes(CoreRun(c, Flat(ws[0])), ws[1..], bs[1..]);
    }
  }

  // ---------------------------------------------------------------------
  // A segment
  // ---------------------------------------------------------------------

  /** Between two pieces of a frame: SCL low, a command in force. */
  predicate Ready(c: Core) {
    c.prevScl == 0 && AccumulatesByte(c.phase) && c.busActive && c.ccc.code.Some?
  }

  predicate HasSeg(c: Core, s: Seg) {
    && c.phase == (if s.read then READ_DATA else WRITE_DATA)
    && c.ccc.directAddr == Some(s.addr as int) && Collecting(c, s.bytes)
  }

  /** The rise before a Repeated START or a STOP costs at most a data bit. */
  lemma ConditionRise(c: Core, b: Bit, driving: bool)
    requires Ready(c)
    ensures var d := OnRise(c, b, driving).(prevScl := 1, prevSda := b);
      && d.phase == c.phase && d.ccc == c.ccc && d.busActive && d.own == c.own
  {
  }

  lemma RepeatedStart(c: Core)
    requires c.busActive
    ensures var d := OnStart(c).(prevScl := 0, prevSda := 0);
      && HeaderStart(d) && d.hdr.isSr && SameFrame(c, d)
  {
  }

  /** The ACK of a direct header opens the phase that collects its bytes. */
  lemma DirectAck(e: Core)
    requires e.phase == ADDR_ACK && e.hdr.isSr && e.ccc.code.Some? && e.hdr.isAddressed && !e.hdr.isBroadcast
    requires e.busActive && 0 <= e.hdr.rnw <= 1
    ensures var d := AddrAckFall(e, 0).(prevScl := 0, prevSda := 0);
      && ByteStart(d) && Collecting(d, []) && SameFrame(e, d) && d.ccc.directAddr == Some(e.hdr.addrAccum)
      && d.phase == (if e.hdr.rnw == 1 then READ_DATA else WRITE_DATA)
  {
  }

  lemma SegmentOpens(c: Core, w: SegWave, s: Seg)
    requires Ready(c) && IsSeg(w, s) && MatchesDut(c.own, s.addr) && s.addr != BROADCAST_ADDR
    ensures var d := CoreRun(CoreRun(CoreRun(c, w.low + ([w.rise] + w.high)), StartSamples(w.start)), Flat(w.header));
      && ByteStart(d) && HasSeg(d, s.(bytes := [])) && SameFrame(c, d)
  {
    RaiseClock(c, w.low, w.rise, w.high, 1);
    ConditionRise(c, 1, w.rise.dut.Driving());
    var c1 := CoreRun(c, w.low + ([w.rise] + w.high));
    hide OnRise, OnStart, AddrAckFall, MatchesDut, StartSamples, Flat;
    StartEffect(c1, w.start);
    RepeatedStart(c1);
    var c2 := CoreRun(c1, StartSamples(w.start));
    var e := HeaderEffect(c2, w.header, s.addr, s.read);
    DirectAck(e);
  }

  lemma SegmentEffect(c: Core, w: SegWave, s: Seg)
    requires Ready(c) && IsSeg(w, s) && MatchesDut(c.own, s.addr) && s.addr != BROADCAST_ADDR
    ensures var d := CoreRun(c, SegSamples(w));
      && Ready(d) && HasSeg(d, s) && SameFrame(c, d)
  {
    SegmentOpens(c, w, s);
    var up, st, hd, bs := w.low + ([w.rise] + w.high), StartSamples(w.start), Flat(w.header), FlatBytes(w.bytes);
    CoreRunAppend(c, up, st + (hd + bs));
    CoreRunAppend(CoreRun(c, up), st, hd + bs);
    CoreRunAppend(CoreRun(CoreRun(c, up), st), hd, bs);
    hide StartSamples, Flat, FlatBytes;
    SegmentBytes(CoreRun(CoreRun(CoreRun(c, up), st), hd), w.bytes, s.bytes, []);
    assert [] + s.bytes == s.bytes;
  }

  predicate Addressable(own: Own, s: Seg) {
    MatchesDut(own, s.addr) && s.addr != BROADCAST_ADDR
  }

  lemma {:induction false} SegmentsEffect(c: Core, ws: seq<SegWave>, ss: seq<Seg>)
    requires Ready(c) && AreSegs(ws, ss) && forall i :: 0 <= i < |ss| ==> Addressable(c.own, ss[i])
    ensures var d := CoreRun(c, FlatSegs(ws));
      Ready(d) && SameFrame(c, d) && (ss != [] ==> HasSeg(d, ss[|ss| - 1])) && (ss == [] ==> d.phase == c.phase)
    decreases ss
  {
    hide IsSeg, HasSeg, SegSamples, Ready;
    if ss != [] {
      assert Addressable(c.own, ss[0]);
      SegmentEffect(c, ws[0], ss[0]);
      CoreRunAppend(c, SegSamples(ws[0]), FlatSegs(ws[1..]));
      SegmentsEffect(CoreRun(c, SegSamples(ws[0])), ws[1..], ss[1..]);
    }
  }

  // ---------------------------------------------------------------------
  // A frame
  // ---------------------------------------------------------------------

  lemma AnyStart(c: Core)
    ensures HeaderStart(OnStart(c).(prevScl := 0, prevSda := 0)) && OnStart(c).busActive && OnStart(c).own == c.own
  {
  }

  /** The ACK of the broadcast header forgets every earlier command. */
  lemma BroadcastAck(e: Core)
    requires e.phase == ADDR_ACK && e.hdr.isBroadcast && e.hdr.rnw == 0
    ensures var d := AddrAckFall(e, 0).(prevScl := 0, prevSda := 0);
      && ByteStart(d) && d.phase == CCC_BYTE && d.byteInMsg == 0 && d.ccc.code == None
      && d.busActive == e.busActive && d.own == e.own
  {
  }

  lemma CommandOpens(c: Core, w: FrameWave, f: Frame)
    requires c.prevScl == 1 && c.prevSda == 1 && c.phase != HDR_MODE && IsFrame(w, f)
    ensures var d := CoreRun(CoreRun(CoreRun(c, w.idle), StartSamples(w.start)), Flat(w.header));
      && ByteStart(d) && d.phase == CCC_BYTE && d.byteInMsg == 0 && d.busActive && d.own == c.own
  {
    HighRun(c, w.idle);
    StartEffect(c, w.start);
    AnyStart(c);
    hide OnStart, AddrAckFall, MatchesDut, StartSamples, Flat;
    var c2 := CoreRun(c, StartSamples(w.start));
    var e := HeaderEffect(c2, w.header, BROADCAST_ADDR, false);
    BroadcastAck(e);
  }

  lemma CommandEffect(c: Core, w: FrameWave, f: Frame)
    requires c.prevScl == 1 && c.prevSda == 1 && c.phase != HDR_MODE && IsFrame(w, f) && !IsEnthdr(f.code)
    ensures var d := CoreRun(c, CommandSamples(w));
      && Ready(d) && d.phase == CCC_BYTE && d.own == c.own && d.ccc.code == Some(f.code as int)
      && d.ccc.definingByte == if f.extra == [] then None else Some(f.extra[0] as int)
  {
    hide CarriesByte, CarriesHeader, IsHigh, IsLow, IsStart, AreSegs, StartSamples, Flat, FlatBytes;
    CommandOpens(c, w, f);
    var st, hd, cd, ex := StartSamples(w.start), Flat(w.header), Flat(w.code), FlatBytes(w.extra);
    CoreRunAppend(c, w.idle, st + (hd + (cd + ex)));
    var c1 := CoreRun(c, w.idle);
    CoreRunAppend(c1, st, hd + (cd + ex));
    var c2 := CoreRun(c1, st);
    CoreRunAppend(c2, hd, cd + ex);
    var c3 := CoreRun(c2, hd);
    CoreRunAppend(c3, cd, ex);
    ByteEffect(c3, w.code, f.code);
    CommandBytes(CoreRun(c3, cd), w.extra, f.extra);
  }

  lemma EnthdrPulse(c: Core, d: Core, v: Byte, t: Bit, driving: bool)
    requires ByteStart(c) && c.phase == CCC_BYTE && c.byteInMsg == 0 && InByte(c, d, v, 8)
    ensures var e := Pulse(d, t, driving);
      (e.phase == HDR_MODE <==> 0x20 <= v <= 0x27) && (e.phase == HDR_MODE ==> !e.busActive && e.ccc.code == None)
  {
    hide AddrBitRise, AddrBitFall, AddrAckFall, IbiAckFall, EntdaaFall, IbiDataTbitFall, DataBitFall;
    assert d.dataAccum == v && v % 256 == v;
  }

  /** HDR mode is entered by the commands 0x20 to 0x27, as the first byte behind 7E/W, and by no other. */
  lemma HdrEnteredIff(c: Core, w: FrameWave, f: Frame)
    requires c.prevScl == 1 && c.prevSda == 1 && c.phase != HDR_MODE && IsFrame(w, f)
    ensures var d := CoreRun(c, w.idle + (StartSamples(w.start) + (Flat(w.header) + Flat(w.code))));
      (d.phase == HDR_MODE <==> 0x20 <= f.code <= 0x27) && (d.phase == HDR_MODE ==> !d.busActive && d.ccc.code == None)
  {
    hide CarriesHeader, IsHigh, IsLow, IsStart, AreSegs, StartSamples, Flat, FlatBytes, CoreRun, Pulse, Carries, BitAt,
         InByte;
    CommandOpens(c, w, f);
    var st, hd, cd := StartSamples(w.start), Flat(w.header), Flat(w.code);
    CoreRunAppend(c, w.idle, st + (hd + cd));
    var c1 := CoreRun(c, w.idle);
    CoreRunAppend(c1, st, hd + cd);
    var c2 := CoreRun(c1, st);
    CoreRunAppend(c2, hd, cd);
    var c3 := CoreRun(c2, hd);
    DataBits(c3, w.code, f.code, 8);
    EightBitsIn(c3, CoreRun(c3, Flat(w.code[..8])), f.code);
    var t: Bit := if Carries(w.code[8], 0) then 0 else 1;
    AppendClk(c3, w.code, t);
    EnthdrPulse(c3, CoreRun(c3, Flat(w.code[..8])), f.code, t, w.code[8].rise.dut.Driving());
  }

  lemma EightBitsIn(c: Core, d: Core, v: Byte)
    requires AccumulatesByte(c.phase) && InByte(c, d, v, 8)
    ensures d.prevScl == 0 && d.phase != HDR_MODE
  {
  }

  /** What the STOP handler finds: the command, its defining byte and the last segment. */
  predicate Reports(c: Core, f: Frame) {
    && c.ccc.code == Some(f.code as int)
    && c.ccc.definingByte == (if f.extra == [] then None else Some(f.extra[0] as int))
    && (if f.segs != [] then HasSeg(c, f.segs[|f.segs| - 1]) else c.phase == CCC_BYTE)
  }

  /** The rise before the STOP keeps what the frame has collected. */
  lemma StopIsSeen(c: Core, f: Frame, low: seq<Sample>, rise: Sample, high: seq<Sample>, stop: Sample)
    requires Ready(c) && Reports(c, f) && IsLow(low) && At(rise, 1, 0) && IsHigh(high, 0) && At(stop, 1, 1)
    ensures var d := CoreRun(c, low + ([rise] + high));
      && Reports(d, f) && d.own == c.own
      && EdgeOf(d, stop.scl.value, stop.sda.value) == StopEdge
      && CoreStep(d, stop) == OnStop(d).(prevScl := 1, prevSda := 1)
  {
    RaiseClock(c, low, rise, high, 0);
    ConditionRise(c, 0, rise.dut.Driving());
    hide OnRise, OnStop, OnStart, OnFall;
  }

  /**
    Decode round trip.  From any state outside HDR mode with the bus high, the
    samples of a frame bring the monitor to a STOP that reports that frame.
   */
  lemma DecodesFrame(c: Core, w: FrameWave, f: Frame, stop: Sample)
    requires c.prevScl == 1 && c.prevSda == 1 && c.phase != HDR_MODE
    requires IsFrame(w, f) && !IsEnthdr(f.code) && At(stop, 1, 1)
    requires forall i :: 0 <= i < |f.segs| ==> Addressable(c.own, f.segs[i])
    ensures var d := CoreRun(c, FrameSamples(w));
      && Reports(d, f) && d.own == c.own
      && EdgeOf(d, stop.scl.value, stop.sda.value) == StopEdge
      && CoreStep(d, stop) == OnStop(d).(prevScl := 1, prevSda := 1)
  {
    hide CommandSamples, FlatSegs, OnStop, CoreStep, EdgeOf, Ready, HasSeg;
    CommandEffect(c, w, f);
    var c1 := CoreRun(c, CommandSamples(w));
    var up := w.low + ([w.rise] + w.high);
    CoreRunAppend(c, CommandSamples(w), FlatSegs(w.segs) + up);
    CoreRunAppend(c1, FlatSegs(w.segs), up);
    SegmentsEffect(c1, w.segs, f.segs);
    StopIsSeen(CoreRun(c1, FlatSegs(w.segs)), f, w.low, w.rise, w.high, stop);
  }

  // ---------------------------------------------------------------------
  // Every frame has a waveform
  // ---------------------------------------------------------------------

  function Level(scl: Bit, sda: Bit): Sample {
    Sample(Some(scl), Some(sda), Dut(None, None, None), NO_SIGNALS, 0.0)
  }

  function ClkOf(b: Bit): Clk {
    Clk([], Level(1, b), [], Level(0, b))
  }

  function ByteOf(v: Byte): seq<Clk> {
    seq(9, i requires 0 <= i < 9 => ClkOf(if i < 8 then BitAt(v, i) else 0))
  }

  function BytesOf(bs: seq<Byte>): seq<seq<Clk>> {
    seq(|bs|, i requires 0 <= i < |bs| => ByteOf(bs[i]))
  }

  const SHORTEST_START := StartWave(Level(1, 0), [], Level(0, 0))

  function SegOf(s: Seg): SegWave {
    SegWave([], Level(1, 1), [], SHORTEST_START, ByteOf(s.addr * 2 + if s.read then 1 else 0), BytesOf(s.bytes))
  }

  /** The shortest waveform of a frame: one sample per level. */
  function WaveOf(f: Frame): FrameWave {
    FrameWave([], SHORTEST_START, ByteOf(BROADCAST_ADDR * 2), ByteOf(f.code), BytesOf(f.extra),
              seq(|f.segs|, i requires 0 <= i < |f.segs| => SegOf(f.segs[i])), [], Level(1, 0), [])
  }

  lemma ByteOfCarries(v: Byte)
    ensures CarriesByte(ByteOf(v), v) && Carries(ByteOf(v)[8], 0)
  {
    hide BitAt;
    assert ByteOf(v)[8] == ClkOf(0);
  }

  lemma BytesOfCarries(bs: seq<Byte>)
    ensures CarriesBytes(BytesOf(bs), bs)
  {
    hide ByteOf, CarriesByte;
    forall i | 0 <= i < |bs| ensures CarriesByte(BytesOf(bs)[i], bs[i]) { ByteOfCarries(bs[i]); }
  }

  lemma {:induction false} WaveOfIsFrame(f: Frame)
    ensures IsFrame(WaveOf(f), f)
  {
    hide ByteOf, BytesOf, CarriesByte, CarriesBytes;
    ByteOfCarries(BROADCAST_ADDR * 2);
    ByteOfCarries(f.code);
    BytesOfCarries(f.extra);
    forall i | 0 <= i < |f.segs| ensures IsSeg(WaveOf(f).segs[i], f.segs[i]) {
      var s := f.segs[i];
      ByteOfCarries(s.addr * 2 + if s.read then 1 else 0);
      BytesOfCarries(s.bytes);
    }
  }
}
