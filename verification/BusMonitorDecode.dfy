/**
  Round trip of the bus monitor: a CCC frame put on the wires with any number
  of samples per level is decoded into exactly the command, target and bytes
  it was made from.
 */
module BusMonitorDecode {
  import opened Wrappers
  import opened Bits
  import opened BusMonitorModel
  import opened BusMonitorInvariants

  // ---------------------------------------------------------------------
  // Waveforms
  // ---------------------------------------------------------------------

  predicate At(s: Sample, scl: Bit, sda: Bit) {
    s.scl == Some(scl) && s.sda == Some(sda)
  }

  /** SCL low for any number of samples; SDA may move, samples may be undefined. */
  predicate IsLow(ss: seq<Sample>) {
    forall i :: 0 <= i < |ss| ==> (ss[i].Defined() ==> ss[i].scl.value == 0)
  }

  /** SCL high with SDA held at `b`. */
  predicate IsHigh(ss: seq<Sample>, b: Bit) {
    forall i :: 0 <= i < |ss| ==> (ss[i].Defined() ==> At(ss[i], 1, b))
  }

  /** One clock: low, rise, high, and the sample of the fall. */
  datatype Clk = Clk(low: seq<Sample>, rise: Sample, high: seq<Sample>, fall: Sample)

  predicate Carries(k: Clk, b: Bit) {
    IsLow(k.low) && At(k.rise, 1, b) && IsHigh(k.high, b) && At(k.fall, 0, b)
  }

  function ClkSamples(k: Clk): seq<Sample> {
    k.low + ([k.rise] + (k.high + [k.fall]))
  }

  function Flat(ks: seq<Clk>): seq<Sample> {
    if ks == [] then [] else ClkSamples(ks[0]) + Flat(ks[1..])
  }

  /** Bits leave the wire most significant first. */
  function BitAt(v: Byte, i: nat): Bit
    requires i < 8
  {
    MsbBit(v, 8, i)
  }

  /** Nine clocks: the byte and a ninth bit that is ACK or T. */
  predicate CarriesByte(ks: seq<Clk>, v: Byte) {
    && |ks| == 9
    && (forall i :: 0 <= i < 8 ==> Carries(ks[i], BitAt(v, i)))
    && (Carries(ks[8], 0) || Carries(ks[8], 1))
  }

  predicate CarriesHeader(ks: seq<Clk>, addr: Address, read: bool) {
    CarriesByte(ks, addr * 2 + if read then 1 else 0) && Carries(ks[8], 0)
  }

  // ---------------------------------------------------------------------
  // One clock
  // ---------------------------------------------------------------------

  lemma {:induction false} LowRun(c: Core, ss: seq<Sample>)
    requires c.prevScl == 0 && IsLow(ss)
    ensures CoreRun(c, ss) == c.(prevSda := CoreRun(c, ss).prevSda)
    decreases ss
  {
    hide OnStart, OnStop, OnHdrExit, OnRise, OnFall;
    if ss != [] {
      LowRun(CoreStep(c, ss[0]), ss[1..]);
    }
  }

  lemma {:induction false} HighRun(c: Core, ss: seq<Sample>)
    requires c.prevScl == 1 && IsHigh(ss, c.prevSda)
    ensures CoreRun(c, ss) == c
    decreases ss
  {
    hide OnStart, OnStop, OnHdrExit, OnRise, OnFall;
    if ss != [] {
      HighRun(c, ss[1..]);
    }
  }

  lemma RunOne(c: Core, s: Sample)
    ensures CoreRun(c, [s]) == CoreStep(c, s)
  {
    hide CoreStep;
    assert CoreRun(CoreStep(c, s), []) == CoreStep(c, s);
  }

  /** Low, then an SCL rise with SDA at `b`, then high. */
  lemma RaiseClock(c: Core, low: seq<Sample>, rise: Sample, high: seq<Sample>, b: Bit)
    requires c.prevScl == 0 && c.phase != HDR_MODE && IsLow(low) && At(rise, 1, b) && IsHigh(high, b)
    ensures CoreRun(c, low + ([rise] + high)) == OnRise(c, b, rise.dut.Driving()).(prevScl := 1, prevSda := b)
  {
    hide OnStart, OnStop, OnHdrExit, OnFall;
    CoreRunAppend(c, low, [rise] + high);
    LowRun(c, low);
    var c1 := CoreRun(c, low);
    CoreRunAppend(c1, [rise], high);
    RunOne(c1, rise);
    HighRun(CoreStep(c1, rise), high);
  }

  /** What one clock does, as seen from a low SCL. */
  function Pulse(c: Core, b: Bit, driving: bool): Core {
    OnFall(OnRise(c, b, driving).(prevScl := 1, prevSda := b), b).(prevScl := 0, prevSda := b)
  }

  lemma ClkEffect(c: Core, k: Clk, b: Bit)
    requires c.prevScl == 0 && c.phase != HDR_MODE && Carries(k, b)
    ensures CoreRun(c, ClkSamples(k)) == Pulse(c, b, k.rise.dut.Driving())
  {
    hide OnRise, OnFall, CoreRun, CoreStep, IsLow, IsHigh;
    var up := k.low + ([k.rise] + k.high);
    assert ClkSamples(k) == up + [k.fall];
    CoreRunAppend(c, up, [k.fall]);
    RaiseClock(c, k.low, k.rise, k.high, b);
    RisePhase(c, b, k.rise.dut.Driving());
    RunOne(CoreRun(c, up), k.fall);
    FallStep(CoreRun(c, up), k.fall, b);
  }

  lemma FallStep(c: Core, s: Sample, b: Bit)
    requires c.prevScl == 1 && c.prevSda == b && c.phase != HDR_MODE && At(s, 0, b)
    ensures CoreStep(c, s) == OnFall(c, b).(prevScl := 0, prevSda := b)
  {
    hide OnRise, OnFall, OnStart, OnStop, OnHdrExit;
  }

  lemma RisePhase(c: Core, b: Bit, driving: bool)
    ensures OnRise(c, b, driving).phase == c.phase
  {
  }

  lemma FlatAppend(ks: seq<Clk>, k: Clk)
    ensures Flat(ks + [k]) == Flat(ks) + ClkSamples(k)
  {
    hide ClkSamples;
    if ks == [] {
      assert Flat([k]) == ClkSamples(k) + Flat([]);
    } else {
      FlatAppend(ks[1..], k);
      assert (ks + [k])[1..] == ks[1..] + [k];
    }
  }

  lemma AppendClk(c: Core, ks: seq<Clk>, b: Bit)
    requires ks != [] && Carries(ks[|ks| - 1], b)
    requires var d := CoreRun(c, Flat(ks[..|ks| - 1])); d.prevScl == 0 && d.phase != HDR_MODE
    ensures CoreRun(c, Flat(ks)) == Pulse(CoreRun(c, Flat(ks[..|ks| - 1])), b, ks[|ks| - 1].rise.dut.Driving())
  {
    hide Carries, Pulse, ClkSamples;
    var init, k := ks[..|ks| - 1], ks[|ks| - 1];
    assert ks == init + [k];
    FlatAppend(init, k);
    CoreRunAppend(c, Flat(init), ClkSamples(k));
    ClkEffect(CoreRun(c, Flat(init)), k, b);
  }

  // ---------------------------------------------------------------------
  // A byte
  // ---------------------------------------------------------------------

  function TbitOf(p: Phase): Phase
    requires AccumulatesByte(p)
  {
    if p == WRITE_DATA then WRITE_TBIT else if p == READ_DATA then READ_TBIT else CCC_TBIT
  }

  /** The context a byte's eight bits leave alone. */
  predicate SameContext(c: Core, d: Core) {
    d.hdr == c.hdr && d.ccc == c.ccc && d.busActive == c.busActive && d.byteInMsg == c.byteInMsg && d.own == c.own
  }

  predicate ByteStart(c: Core) {
    AccumulatesByte(c.phase) && c.bitCount == 0 && c.dataAccum == 0 && c.prevScl == 0
  }

  predicate InByte(c: Core, d: Core, v: Byte, n: nat)
    requires AccumulatesByte(c.phase) && n <= 8
  {
    && SameContext(c, d) && d.prevScl == 0 && d.dataAccum == Shr(v, 8 - n)
    && (if n < 8 then d.phase == c.phase && d.bitCount == n else d.phase == TbitOf(c.phase) && d.bitCount == 0)
  }

  lemma DataPulse(c: Core, d: Core, v: Byte, n: nat, driving: bool)
    requires ByteStart(c) && n < 8 && InByte(c, d, v, n)
    ensures InByte(c, Pulse(d, BitAt(v, n), driving), v, n + 1)
  {
    assert Shr(v, 7 - n) == 2 * Shr(v, 8 - n) + BitAt(v, n);
    hide Shr, BitAt, AddrBitRise, AddrBitFall, AddrAckFall, IbiAckFall, CccTbitFall, WriteTbitFall, ReadTbitFall,
         EntdaaFall, IbiDataTbitFall;
  }

  lemma {:induction false} DataBits(c: Core, ks: seq<Clk>, v: Byte, n: nat)
    requires ByteStart(c) && n <= 8 && n <= |ks|
    requires forall i :: 0 <= i < n ==> Carries(ks[i], BitAt(v, i))
    ensures InByte(c, CoreRun(c, Flat(ks[..n])), v, n)
  {
    if n == 0 {
      Pow2Small();
      ShrBound(v, 8, 8);
      assert ks[..0] == [] && Pow2(0) == 1;
    } else {
      DataBits(c, ks, v, n - 1);
      hide Carries, Pulse;
      var d := CoreRun(c, Flat(ks[..n - 1]));
      assert ks[..n][..n - 1] == ks[..n - 1];
      AppendClk(c, ks[..n], BitAt(v, n - 1));
      DataPulse(c, d, v, n - 1, ks[n - 1].rise.dut.Driving());
    }
  }

  /** What the fall of the T-bit does with a byte. */
  function TakeByte(c: Core, v: Byte): Ccc
    requires AccumulatesByte(c.phase)
  {
    match c.phase
    case WRITE_DATA => if c.ccc.inWrite then c.ccc.(writeBytes := c.ccc.writeBytes + [v as int]) else c.ccc
    case READ_DATA => if c.ccc.inRead then c.ccc.(readBytes := c.ccc.readBytes + [v as int]) else c.ccc
    case _ =>
      if c.byteInMsg == 0 then
        c.ccc.(lastCode := v as int, isEntdaa := c.ccc.isEntdaa || v == ENTDAA_CODE, definingByte := None,
               code := Some(v as int))
      else if c.byteInMsg == 1 && c.ccc.code.Some? then c.ccc.(definingByte := Some(v as int))
      else c.ccc
  }

  /** A whole byte with its T-bit brings the monitor back to the start of the next one. */
  lemma ByteEffect(c: Core, ks: seq<Clk>, v: Byte)
    requires ByteStart(c) && CarriesByte(ks, v)
    requires c.phase == CCC_BYTE && c.byteInMsg == 0 ==> !IsEnthdr(v)
    ensures var d := CoreRun(c, Flat(ks));
      && ByteStart(d) && d.phase == c.phase && d.ccc == TakeByte(c, v) && d.byteInMsg == c.byteInMsg + 1
      && d.hdr == c.hdr && d.busActive == c.busActive && d.own == c.own
  {
    DataBits(c, ks, v, 8);
    var d := CoreRun(c, Flat(ks[..8]));
    var t: Bit := if Carries(ks[8], 0) then 0 else 1;
    AppendClk(c, ks, t);
    TbitPulse(c, d, v, t, ks[8].rise.dut.Driving());
  }

  lemma TbitPulse(c: Core, d: Core, v: Byte, t: Bit, driving: bool)
    requires ByteStart(c) && InByte(c, d, v, 8)
    requires c.phase == CCC_BYTE && c.byteInMsg == 0 ==> !IsEnthdr(v)
    ensures var e := Pulse(d, t, driving);
      && ByteStart(e) && e.phase == c.phase && e.ccc == TakeByte(c, v) && e.byteInMsg == c.byteInMsg + 1
      && e.hdr == c.hdr && e.busActive == c.busActive && e.own == c.own
  {
    hide AddrBitRise, AddrBitFall, AddrAckFall, IbiAckFall, EntdaaFall, IbiDataTbitFall, DataBitFall;
    assert d.dataAccum == v && v % 256 == v;
  }

  // ---------------------------------------------------------------------
  // A header
  // ---------------------------------------------------------------------

  predicate HeaderStart(c: Core) {
    c.phase == ADDR_BITS && c.bitCount == 0 && c.hdr.addrAccum == 0 && c.prevScl == 0
  }

  /** The header fields an address bit leaves alone, and what lies outside the header. */
  predicate SameOutside(c: Core, d: Core) {
    && d.hdr.isSr == c.hdr.isSr && d.ccc == c.ccc && d.busActive == c.busActive && d.own == c.own
    && d.byteInMsg == c.byteInMsg && d.dataAccum == c.dataAccum && d.prevScl == 0
  }

  predicate InHeader(c: Core, d: Core, v: Byte, n: nat)
    requires n <= 7
  {
    d.phase == ADDR_BITS && d.bitCount == n && d.hdr.addrAccum == Shr(v, 8 - n) && SameOutside(c, d)
  }

  lemma AddrPulse(c: Core, d: Core, v: Byte, n: nat, driving: bool)
    requires n < 7 && InHeader(c, d, v, n)
    ensures InHeader(c, Pulse(d, BitAt(v, n), driving), v, n + 1)
  {
    assert Shr(v, 7 - n) == 2 * Shr(v, 8 - n) + BitAt(v, n);
    hide Shr, BitAt, AddrAckFall, IbiAckFall, CccTbitFall, WriteTbitFall, ReadTbitFall, EntdaaFall, IbiDataTbitFall,
         DataBitFall, MatchesDut, MatchesVirt;
  }

  lemma {:induction false} AddrBits(c: Core, ks: seq<Clk>, v: Byte, n: nat)
    requires HeaderStart(c) && n <= 7 && n <= |ks|
    requires forall i :: 0 <= i < n ==> Carries(ks[i], BitAt(v, i))
    ensures InHeader(c, CoreRun(c, Flat(ks[..n])), v, n)
  {
    if n == 0 {
      Pow2Small();
      ShrBound(v, 8, 8);
      assert ks[..0] == [] && Pow2(0) == 1;
    } else {
      AddrBits(c, ks, v, n - 1);
      hide Carries, Pulse;
      var d := CoreRun(c, Flat(ks[..n - 1]));
      assert ks[..n][..n - 1] == ks[..n - 1];
      AppendClk(c, ks[..n], BitAt(v, n - 1));
      AddrPulse(c, d, v, n - 1, ks[n - 1].rise.dut.Driving());
    }
  }

  /** The eighth bit completes the header; only a read after START can be taken for an IBI. */
  lemma RnwPulse(c: Core, d: Core, addr: Address, rnw: Bit, driving: bool)
    requires InHeader(c, d, addr * 2 + rnw, 7) && (c.hdr.isSr || rnw == 0)
    ensures var e := Pulse(d, rnw, driving);
      && e.phase == ADDR_ACK && SameOutside(c, e)
      && e.hdr.addrAccum == addr && e.hdr.rnw == rnw
      && e.hdr.isBroadcast == (addr == BROADCAST_ADDR) && e.hdr.isAddressed == MatchesDut(c.own, addr)
  {
    assert Shr(addr * 2 + rnw, 1) == addr by { assert Shr(addr * 2 + rnw, 0) == addr * 2 + rnw; }
    hide Shr, AddrAckFall, IbiAckFall, CccTbitFall, WriteTbitFall, ReadTbitFall, EntdaaFall, IbiDataTbitFall,
         DataBitFall;
  }

  lemma AckPulse(e: Core, driving: bool)
    requires e.phase == ADDR_ACK
    ensures Pulse(e, 0, driving).(stats := e.stats) == AddrAckFall(e, 0).(prevScl := 0, prevSda := 0)
  {
    hide AddrBitRise, AddrBitFall, IbiAckFall, CccTbitFall, WriteTbitFall, ReadTbitFall, EntdaaFall, IbiDataTbitFall,
         DataBitFall;
  }

  lemma LastBit(addr: Address, rnw: Bit)
    ensures BitAt(addr * 2 + rnw, 7) == rnw
  {
    assert Shr(addr * 2 + rnw, 0) == addr * 2 + rnw;
  }

  /** After eight clocks the header has been decoded. */
  predicate Decoded(c: Core, e: Core, addr: Address, read: bool) {
    && e.phase == ADDR_ACK && SameOutside(c, e)
    && e.hdr.addrAccum == addr && e.hdr.rnw == (if read then 1 else 0)
    && e.hdr.isBroadcast == (addr == BROADCAST_ADDR) && e.hdr.isAddressed == MatchesDut(c.own, addr)
  }

  lemma HeaderDecoded(c: Core, ks: seq<Clk>, addr: Address, read: bool)
    requires HeaderStart(c) && CarriesHeader(ks, addr, read) && (c.hdr.isSr || !read)
    ensures Decoded(c, CoreRun(c, Flat(ks[..8])), addr, read)
  {
    hide Pulse, AddrAckFall, Carries, BitAt, CoreRun, Flat, Shr, MatchesDut;
    var rnw: Bit := if read then 1 else 0;
    AddrBits(c, ks, addr * 2 + rnw, 7);
    LastBit(addr, rnw);
    assert ks[..8][..7] == ks[..7];
    AppendClk(c, ks[..8], rnw);
    RnwPulse(c, CoreRun(c, Flat(ks[..7])), addr, rnw, ks[7].rise.dut.Driving());
  }

  /** An acknowledged header: the state is what the ACK fall makes of the decoded address. */
  lemma HeaderEffect(c: Core, ks: seq<Clk>, addr: Address, read: bool) returns (e: Core)
    requires HeaderStart(c) && CarriesHeader(ks, addr, read) && (c.hdr.isSr || !read)
    ensures Decoded(c, e, addr, read)
    ensures CoreRun(c, Flat(ks)).(stats := e.stats) == AddrAckFall(e, 0).(prevScl := 0, prevSda := 0)
  {
    hide Pulse, AddrAckFall, Carries, BitAt, CoreRun, Flat, MatchesDut;
    e := CoreRun(c, Flat(ks[..8]));
    HeaderDecoded(c, ks, addr, read);
    AppendClk(c, ks, 0);
    AckPulse(e, ks[8].rise.dut.Driving());
  }

  // ---------------------------------------------------------------------
  // START conditions
  // ---------------------------------------------------------------------

  /** SDA falls while SCL is high, then SCL falls. */
  datatype StartWave = StartWave(start: Sample, hold: seq<Sample>, fall: Sample)

  predicate IsStart(w: StartWave) {
    At(w.start, 1, 0) && IsHigh(w.hold, 0) && At(w.fall, 0, 0)
  }

  function StartSamples(w: StartWave): seq<Sample> {
    [w.start] + (w.hold + [w.fall])
  }

  lemma {:induction false} StartEffect(c: Core, w: StartWave)
    requires c.prevScl == 1 && c.prevSda == 1 && c.phase != HDR_MODE && IsStart(w)
    ensures CoreRun(c, StartSamples(w)) == OnStart(c).(prevScl := 0, prevSda := 0)
  {
    CoreRunAppend(c, [w.start], w.hold + [w.fall]);
    RunOne(c, w.start);
    var c1 := CoreStep(c, w.start);
    StartLeavesHeader(c);
    hide OnStart, OnStop, OnRise, OnHdrExit, AddrAckFall, IbiAckFall, CccTbitFall, WriteTbitFall, ReadTbitFall,
         EntdaaFall, IbiDataTbitFall, DataBitFall;
    assert c1 == OnStart(c).(prevScl := 1, prevSda := 0);
    CoreRunAppend(c1, w.hold, [w.fall]);
    HighRun(c1, w.hold);
    RunOne(c1, w.fall);
  }

  lemma StartLeavesHeader(c: Core)
    ensures OnStart(c).phase == ADDR_BITS && OnStart(c).bitCount == 0
  {
  }
}
