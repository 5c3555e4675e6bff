/**
  In-Band Interrupts as the monitor sees them on the wires: which headers it
  takes for one, what the ACK does, and how the bytes after it are counted.
 */
module BusMonitorIbi {
  import opened Wrappers
  import opened Bits
  import opened BusMonitorModel
  import opened BusMonitorInvariants
  import opened BusMonitorRuns
  import opened BusMonitorDecode
  import opened BusMonitorFrames

  /** Eight clocks that carry an address and a direction. */
  predicate CarriesAddress(ks: seq<Clk>, addr: Address, rnw: Bit) {
    |ks| >= 8 && forall i :: 0 <= i < 8 ==> Carries(ks[i], BitAt(addr * 2 + rnw, i))
  }

  /** The DUT drove SDA at one of the seven address rises. */
  predicate DroveAddress(ks: seq<Clk>, n: nat)
    requires n <= |ks|
  {
    exists i :: 0 <= i < n && ks[i].rise.dut.oe == Some(1)
  }

  /** A header after a START on a free bus, under an address the DUT was told, with a read bit, that the DUT drove. */
  predicate IsIbi(c: Core, addr: Address, rnw: Bit, ks: seq<Clk>)
    requires |ks| >= 8
  {
    !c.busActive && (c.own.dut == Some(addr) || c.own.virt == Some(addr)) && rnw == 1 && DroveAddress(ks, 7)
  }

  // ---------------------------------------------------------------------
  // The header, bit by bit
  // ---------------------------------------------------------------------

  /** `n` address bits after the START that left `c`; `drove` tells whether the DUT took part. */
  predicate InAddress(c: Core, d: Core, v: Byte, n: nat, drove: bool)
    requires n <= 7
  {
    && d.phase == ADDR_BITS && d.bitCount == n && d.hdr.addrAccum == Shr(v, 8 - n)
    && d.hdr.isSr == c.hdr.isSr && d.hdr.dutDroveAddr == Some(!c.hdr.isSr && drove)
    && d.own == c.own && d.prevScl == 0 && d.stats.ibiRequests == c.stats.ibiRequests
    && d.stats.readBytes == c.stats.readBytes
  }

  lemma AddressPulse(c: Core, d: Core, v: Byte, n: nat, drove: bool, driving: bool)
    requires n < 7 && InAddress(c, d, v, n, drove)
    ensures InAddress(c, Pulse(d, BitAt(v, n), driving), v, n + 1, drove || driving)
  {
    assert Shr(v, 7 - n) == 2 * Shr(v, 8 - n) + BitAt(v, n);
    hide Shr, BitAt, AddrAckFall, IbiAckFall, CccTbitFall, WriteTbitFall, ReadTbitFall, EntdaaFall, IbiDataTbitFall,
         DataBitFall, MatchesDut, MatchesVirt;
  }

  lemma {:induction false} AddressClocks(c: Core, ks: seq<Clk>, v: Byte, n: nat)
    requires HeaderStart(c) && c.hdr.dutDroveAddr == Some(false) && n <= 7 && n <= |ks|
    requires forall i :: 0 <= i < n ==> Carries(ks[i], BitAt(v, i))
    ensures InAddress(c, CoreRun(c, Flat(ks[..n])), v, n, DroveAddress(ks, n))
  {
    if n == 0 {
      Pow2Small();
      ShrBound(v, 8, 8);
      assert ks[..0] == [] && Pow2(0) == 1;
    } else {
      AddressClocks(c, ks, v, n - 1);
      hide Carries, Pulse, Shr, BitAt;
      var d := CoreRun(c, Flat(ks[..n - 1]));
      assert ks[..n][..n - 1] == ks[..n - 1];
      AppendClk(c, ks[..n], BitAt(v, n - 1));
      AddressPulse(c, d, v, n - 1, DroveAddress(ks, n - 1), ks[n - 1].rise.dut.Driving());
      DroveNext(ks, n);
    }
  }

  lemma DroveNext(ks: seq<Clk>, n: nat)
    requires 0 < n <= |ks|
    ensures DroveAddress(ks, n) <==> DroveAddress(ks, n - 1) || ks[n - 1].rise.dut.oe == Some(1)
  {
  }

  /** What the fall of the direction bit makes of the header. */
  predicate Classified(c: Core, e: Core, addr: Address, rnw: Bit, ibi: bool) {
    && e.phase == (if ibi then IBI_ADDR_ACK else ADDR_ACK)
    && e.hdr.addrAccum == addr && e.hdr.rnw == rnw && e.prevScl == 0
    && e.hdr.isAddressed == (c.own.dut == Some(addr) || c.own.virt == Some(addr))
    && e.stats.ibiRequests == c.stats.ibiRequests + (if ibi then 1 else 0)
    && e.stats.readBytes == c.stats.readBytes
  }

  lemma DirectionPulse(c: Core, d: Core, addr: Address, rnw: Bit, drove: bool, driving: bool)
    requires InAddress(c, d, addr * 2 + rnw, 7, drove)
    ensures var told := c.own.dut == Some(addr) || c.own.virt == Some(addr);
      Classified(c, Pulse(d, rnw, driving), addr, rnw, !c.hdr.isSr && told && rnw == 1 && drove)
  {
    assert Shr(addr * 2 + rnw, 1) == addr by { assert Shr(addr * 2 + rnw, 0) == addr * 2 + rnw; }
    hide Shr, AddrAckFall, IbiAckFall, CccTbitFall, WriteTbitFall, ReadTbitFall, EntdaaFall, IbiDataTbitFall,
         DataBitFall;
  }

  lemma HeaderClocks(c: Core, ks: seq<Clk>, addr: Address, rnw: Bit)
    requires HeaderStart(c) && c.hdr.dutDroveAddr == Some(false) && CarriesAddress(ks, addr, rnw)
    ensures var told := c.own.dut == Some(addr) || c.own.virt == Some(addr);
      Classified(c, CoreRun(c, Flat(ks[..8])), addr, rnw, !c.hdr.isSr && told && rnw == 1 && DroveAddress(ks, 7))
  {
    hide Pulse, Carries, BitAt, CoreRun, Flat, Shr, Classified, DroveAddress;
    AddressClocks(c, ks, addr * 2 + rnw, 7);
    LastBit(addr, rnw);
    assert ks[..8][..7] == ks[..7];
    AppendClk(c, ks[..8], rnw);
    DirectionPulse(c, CoreRun(c, Flat(ks[..7])), addr, rnw, DroveAddress(ks, 7), ks[7].rise.dut.Driving());
  }

  lemma FreshStart(c: Core)
    ensures var d := OnStart(c).(prevScl := 0, prevSda := 0);
      && HeaderStart(d) && d.hdr.dutDroveAddr == Some(false) && d.hdr.isSr == c.busActive && d.own == c.own
      && d.stats.ibiRequests == c.stats.ibiRequests && d.stats.readBytes == c.stats.readBytes
  {
  }

  /**
    For any START or Repeated START and any clocked eight-bit header, with any
    number of samples per level and any conduct of the DUT: after the eighth
    fall the monitor is at the ACK of an IBI if and only if the header is one,
    and has then counted one IBI.
   */
  lemma IbiRecognisedIff(c: Core, w: StartWave, ks: seq<Clk>, addr: Address, rnw: Bit)
    requires c.prevScl == 1 && c.prevSda == 1 && c.phase != HDR_MODE && IsStart(w) && CarriesAddress(ks, addr, rnw)
    ensures var d := CoreRun(c, StartSamples(w) + Flat(ks[..8]));
      && (d.phase == IBI_ADDR_ACK <==> IsIbi(c, addr, rnw, ks))
      && (d.phase == ADDR_ACK <==> !IsIbi(c, addr, rnw, ks))
      && d.stats.ibiRequests == c.stats.ibiRequests + (if IsIbi(c, addr, rnw, ks) then 1 else 0)
      && d.hdr.addrAccum == addr && d.hdr.rnw == rnw
  {
    hide CoreRun, StartSamples, Flat, OnStart, DroveAddress, Carries, BitAt;
    StartEffect(c, w);
    FreshStart(c);
    CoreRunAppend(c, StartSamples(w), Flat(ks[..8]));
    HeaderClocks(CoreRun(c, StartSamples(w)), ks, addr, rnw);
  }

  /**
    A new monitor, told its addresses: the first header on the bus is taken for
    an IBI by its address, direction and the DUT's part alone, and is then the
    only one counted.
   */
  lemma FirstHeader(own: Own, w: StartWave, ks: seq<Clk>, addr: Address, rnw: Bit)
    requires IsStart(w) && CarriesAddress(ks, addr, rnw)
    ensures var d := CoreRun(INITIAL_CORE.(own := own), StartSamples(w) + Flat(ks[..8]));
      var ibi := (own.dut == Some(addr) || own.virt == Some(addr)) && rnw == 1 && DroveAddress(ks, 7);
      d.phase == (if ibi then IBI_ADDR_ACK else ADDR_ACK) && d.stats.ibiRequests == (if ibi then 1 else 0)
  {
    hide CoreRun, StartSamples, Flat, DroveAddress, CarriesAddress, IsStart;
    IbiRecognisedIff(INITIAL_CORE.(own := own), w, ks, addr, rnw);
  }

  // ---------------------------------------------------------------------
  // The ACK
  // ---------------------------------------------------------------------

  lemma IbiAckPulse(e: Core, t: Bit, driving: bool)
    requires e.phase == IBI_ADDR_ACK
    ensures var d := Pulse(e, t, driving);
      && d.phase == (if t == 0 then IBI_MDB else IDLE) && (t == 0 ==> d.bitCount == 0) && d.prevScl == 0
      && d.stats.readBytes == e.stats.readBytes && d.stats.ibiRequests == e.stats.ibiRequests
      && d.hdr == e.hdr
  {
    hide AddrBitRise, AddrBitFall, AddrAckFall, CccTbitFall, WriteTbitFall, ReadTbitFall, EntdaaFall, IbiDataTbitFall,
         DataBitFall;
  }

  /** An IBI that is acknowledged goes on to its mandatory byte, a refused one ends. */
  lemma IbiAnswered(c: Core, w: StartWave, ks: seq<Clk>, addr: Address, t: Bit)
    requires c.prevScl == 1 && c.prevSda == 1 && c.phase != HDR_MODE && IsStart(w)
    requires |ks| == 9 && CarriesAddress(ks, addr, 1) && IsIbi(c, addr, 1, ks) && Carries(ks[8], t)
    ensures var d := CoreRun(c, StartSamples(w) + Flat(ks));
      && d.phase == (if t == 0 then IBI_MDB else IDLE) && d.prevScl == 0 && (t == 0 ==> d.bitCount == 0)
      && d.stats.readBytes == c.stats.readBytes && d.stats.ibiRequests == c.stats.ibiRequests + 1
  {
    hide CoreRun, StartSamples, Flat, OnStart, CarriesAddress, DroveAddress, Pulse, Carries;
    StartEffect(c, w);
    FreshStart(c);
    var c1 := CoreRun(c, StartSamples(w));
    CoreRunAppend(c, StartSamples(w), Flat(ks));
    HeaderClocks(c1, ks, addr, 1);
    AppendClk(c1, ks, t);
    IbiAckPulse(CoreRun(c1, Flat(ks[..8])), t, ks[8].rise.dut.Driving());
  }

  /** Where nothing is pending, only the rise of an acknowledged IBI starts the takeover clock. */
  lemma NoTakeover(d: Deadlines, c: Core, s: Sample)
    requires d.takeoverTime == None
    requires s.Defined() && s.scl.value == 1 && c.prevScl == 0 ==> c.phase != IBI_ADDR_ACK
    ensures DeadlineStep(d, c, s).takeoverTime == None
  {
  }

  lemma {:induction false} NoTakeoverLow(d: Deadlines, c: Core, ss: seq<Sample>)
    requires d.takeoverTime == None && c.prevScl == 0 && IsLow(ss)
    ensures DeadlineRun(d, c, ss).takeoverTime == None
    decreases ss
  {
    hide DeadlineStep, OnStart, OnStop, OnHdrExit, OnRise, OnFall;
    if ss != [] {
      NoTakeover(d, c, ss[0]);
      NoTakeoverLow(DeadlineStep(d, c, ss[0]), CoreStep(c, ss[0]), ss[1..]);
    }
  }

  /** In a phase without IBI nothing starts it at all. */
  lemma {:induction false} NoTakeoverRun(d: Deadlines, c: Core, ss: seq<Sample>)
    requires d.takeoverTime == None && NoIbiAck(c, ss)
    ensures DeadlineRun(d, c, ss).takeoverTime == None
    decreases ss
  {
    hide DeadlineStep, CoreStep;
    if ss != [] {
      NoTakeover(d, c, ss[0]);
      NoTakeoverRun(DeadlineStep(d, c, ss[0]), CoreStep(c, ss[0]), ss[1..]);
    }
  }

  predicate NoIbiAck(c: Core, ss: seq<Sample>)
    decreases ss
  {
    ss != [] ==> c.phase != IBI_ADDR_ACK && NoIbiAck(CoreStep(c, ss[0]), ss[1..])
  }

  lemma {:induction false} NoIbiAckAppend(c: Core, x: seq<Sample>, y: seq<Sample>)
    requires NoIbiAck(c, x) && NoIbiAck(CoreRun(c, x), y)
    ensures NoIbiAck(c, x + y)
    decreases x
  {
    hide CoreStep;
    if x == [] {
      assert x + y == y;
    } else {
      assert (x + y)[0] == x[0] && (x + y)[1..] == x[1..] + y;
      NoIbiAckAppend(CoreStep(c, x[0]), x[1..], y);
    }
  }

  /** The phase outlives the samples of a low, and those of a high. */
  lemma {:induction false} LowHasNoIbiAck(c: Core, ss: seq<Sample>)
    requires c.prevScl == 0 && IsLow(ss) && c.phase != IBI_ADDR_ACK
    ensures NoIbiAck(c, ss)
    decreases ss
  {
    hide OnStart, OnStop, OnHdrExit, OnRise, OnFall;
    if ss != [] { LowHasNoIbiAck(CoreStep(c, ss[0]), ss[1..]); }
  }

  lemma {:induction false} HighHasNoIbiAck(c: Core, ss: seq<Sample>, last: Sample)
    requires c.prevScl == 1 && IsHigh(ss, c.prevSda) && c.phase != IBI_ADDR_ACK
    ensures NoIbiAck(c, ss + [last])
    decreases ss
  {
    hide OnStart, OnStop, OnHdrExit, OnRise, OnFall;
    if ss == [] {
      assert ss + [last] == [last] && [last][1..] == [];
    } else {
      assert (ss + [last])[0] == ss[0] && (ss + [last])[1..] == ss[1..] + [last];
      HighHasNoIbiAck(c, ss[1..], last);
    }
  }

  lemma ClkHasNoIbiAck(c: Core, k: Clk, b: Bit)
    requires c.prevScl == 0 && c.phase != IBI_ADDR_ACK && c.phase != HDR_MODE && Carries(k, b)
    ensures NoIbiAck(c, ClkSamples(k))
  {
    hide OnRise, CoreRun, CoreStep, IsLow, IsHigh, NoIbiAck;
    LowHasNoIbiAck(c, k.low);
    LowRun(c, k.low);
    var c1 := CoreRun(c, k.low);
    OneHasNoIbiAck(c1, k.rise);
    RaiseOne(c1, k.rise, b);
    RisePhase(c1, b, k.rise.dut.Driving());
    HighHasNoIbiAck(CoreRun(c1, [k.rise]), k.high, k.fall);
    NoIbiAckAppend(c1, [k.rise], k.high + [k.fall]);
    NoIbiAckAppend(c, k.low, [k.rise] + (k.high + [k.fall]));
  }

  lemma RaiseOne(c: Core, rise: Sample, b: Bit)
    requires c.prevScl == 0 && c.phase != HDR_MODE && At(rise, 1, b)
    ensures CoreRun(c, [rise]) == OnRise(c, b, rise.dut.Driving()).(prevScl := 1, prevSda := b)
  {
    hide OnRise, OnFall, OnStart, OnStop, OnHdrExit;
    RunOne(c, rise);
  }

  lemma OneHasNoIbiAck(c: Core, s: Sample)
    requires c.phase != IBI_ADDR_ACK
    ensures NoIbiAck(c, [s])
  {
    assert [s][1..] == [];
  }

  lemma {:induction false} HeaderHasNoIbiAck(c: Core, ks: seq<Clk>, v: Byte, n: nat)
    requires HeaderStart(c) && c.hdr.dutDroveAddr == Some(false) && n <= 8 && |ks| >= 8
    requires forall i :: 0 <= i < n ==> Carries(ks[i], BitAt(v, i))
    ensures NoIbiAck(c, Flat(ks[..n]))
    decreases n
  {
    hide Carries, BitAt, Shr, NoIbiAck, CoreRun, HeaderStart;
    if n == 0 {
      assert ks[..0] == [] && Flat([]) == [];
      NothingHasNoIbiAck(c);
    } else {
      HeaderHasNoIbiAck(c, ks, v, n - 1);
      AddressClocks(c, ks, v, n - 1);
      assert ks[..n] == ks[..n - 1] + [ks[n - 1]];
      FlatAppend(ks[..n - 1], ks[n - 1]);
      ClkHasNoIbiAck(CoreRun(c, Flat(ks[..n - 1])), ks[n - 1], BitAt(v, n - 1));
      NoIbiAckAppend(c, Flat(ks[..n - 1]), ClkSamples(ks[n - 1]));
    }
  }

  lemma NothingHasNoIbiAck(c: Core)
    ensures NoIbiAck(c, [])
  {
  }

  lemma StartClears(d: Deadlines, c: Core, s: Sample)
    requires c.prevScl == 1 && c.prevSda == 1 && c.phase != HDR_MODE && At(s, 1, 0)
    ensures var d1, c1 := DeadlineStep(d, c, s), CoreStep(c, s);
      && d1.takeoverTime == None && d1.handoffTime == None
      && c1.phase == ADDR_BITS && c1.prevScl == 1 && c1.prevSda == 0
  {
  }

  lemma StartHasNoTakeover(d: Deadlines, c: Core, w: StartWave)
    requires c.prevScl == 1 && c.prevSda == 1 && c.phase != HDR_MODE && IsStart(w)
    ensures DeadlineRun(d, c, StartSamples(w)).takeoverTime == None
  {
    hide CoreRun, DeadlineRun, CoreStep, DeadlineStep, IsHigh, NoIbiAck;
    StartClears(d, c, w.start);
    SampleAlone(d, c, w.start);
    SamplesAppend(d, c, [w.start], w.hold + [w.fall]);
    HighHasNoIbiAck(CoreStep(c, w.start), w.hold, w.fall);
    NoTakeoverRun(DeadlineStep(d, c, w.start), CoreStep(c, w.start), w.hold + [w.fall]);
  }

  /** What leads up to the ACK bit of a header. */
  function ToAck(w: StartWave, ks: seq<Clk>): seq<Sample>
    requires |ks| == 9
  {
    (StartSamples(w) + Flat(ks[..8])) + ks[8].low
  }

  lemma AckStartsClock(d: Deadlines, c: Core, s: Sample, t: Bit)
    requires d.takeoverTime == None && c.phase == IBI_ADDR_ACK && c.prevScl == 0 && At(s, 1, t)
    ensures DeadlineStep(d, c, s).takeoverTime == if t == 0 then Some(s.now + 12.0) else None
  {
  }

  /**
    Whatever was pending before the START: an acknowledged IBI, and no refused
    one, puts the takeover check 12 ns behind the rise of its ACK bit.
   */
  lemma TakeoverScheduledIff(d: Deadlines, c: Core, w: StartWave, ks: seq<Clk>, addr: Address, t: Bit)
    requires c.prevScl == 1 && c.prevSda == 1 && c.phase != HDR_MODE && IsStart(w)
    requires |ks| == 9 && CarriesAddress(ks, addr, 1) && IsIbi(c, addr, 1, ks) && Carries(ks[8], t)
    ensures DeadlineRun(d, c, ToAck(w, ks) + [ks[8].rise]).takeoverTime ==
            if t == 0 then Some(ks[8].rise.now + 12.0) else None
  {
    hide CoreRun, DeadlineRun, CoreStep, DeadlineStep, StartSamples, Flat, OnStart, IsStart, NoIbiAck, IsIbi, IsLow,
         IsHigh;
    var st, hd, low, rise := StartSamples(w), Flat(ks[..8]), ks[8].low, ks[8].rise;
    StartHasNoTakeover(d, c, w);
    StartEffect(c, w);
    FreshStart(c);
    var c1, d1 := CoreRun(c, st), DeadlineRun(d, c, st);
    HeaderHasNoIbiAck(c1, ks, addr * 2 + 1, 8);
    NoTakeoverRun(d1, c1, hd);
    IbiRecognisedIff(c, w, ks, addr, 1);
    SamplesAppend(d, c, st, hd);
    var c2, d2 := CoreRun(c1, hd), DeadlineRun(d1, c1, hd);
    HeaderEndsLow(c1, ks, addr, 1);
    NoTakeoverLow(d2, c2, low);
    LowRun(c2, low);
    SamplesAppend(d, c, st + hd, low);
    var c3, d3 := CoreRun(c2, low), DeadlineRun(d2, c2, low);
    SamplesAppend(d, c, ToAck(w, ks), [rise]);
    SampleAlone(d3, c3, rise);
    AckStartsClock(d3, c3, rise, t);
  }

  lemma HeaderEndsLow(c: Core, ks: seq<Clk>, addr: Address, rnw: Bit)
    requires HeaderStart(c) && c.hdr.dutDroveAddr == Some(false) && CarriesAddress(ks, addr, rnw)
    ensures CoreRun(c, Flat(ks[..8])).prevScl == 0
  {
    HeaderClocks(c, ks, addr, rnw);
  }

  // ---------------------------------------------------------------------
  // The bytes of an IBI
  // ---------------------------------------------------------------------

  /** At the start of a byte of an IBI. */
  predicate IbiByteStart(c: Core) {
    (c.phase == IBI_MDB || c.phase == IBI_DATA) && c.bitCount == 0 && c.prevScl == 0
  }

  /** `n` clocks into such a byte. */
  predicate InIbiByte(c: Core, d: Core, n: nat)
    requires n <= 8
  {
    && (if n < 8 then d.phase == c.phase && d.bitCount == n else d.phase == IBI_DATA_TBIT && d.bitCount == 0)
    && d.prevScl == 0 && d.stats.readBytes == c.stats.readBytes && d.hdr == c.hdr && d.busActive == c.busActive
    && d.stats.ibiRequests == c.stats.ibiRequests
  }

  lemma IbiBitPulse(c: Core, d: Core, n: nat, b: Bit, driving: bool)
    requires IbiByteStart(c) && n < 8 && InIbiByte(c, d, n)
    ensures InIbiByte(c, Pulse(d, b, driving), n + 1)
  {
    hide AddrBitRise, AddrBitFall, AddrAckFall, IbiAckFall, CccTbitFall, WriteTbitFall, ReadTbitFall, EntdaaFall,
         IbiDataTbitFall;
  }

  lemma {:induction false} IbiBits(c: Core, ks: seq<Clk>, v: Byte, n: nat)
    requires IbiByteStart(c) && CarriesByte(ks, v) && n <= 8
    ensures InIbiByte(c, CoreRun(c, Flat(ks[..n])), n)
    decreases n
  {
    hide Carries, Pulse, BitAt;
    if n == 0 {
      assert ks[..0] == [];
    } else {
      IbiBits(c, ks, v, n - 1);
      assert ks[..n][..n - 1] == ks[..n - 1];
      AppendClk(c, ks[..n], BitAt(v, n - 1));
      IbiBitPulse(c, CoreRun(c, Flat(ks[..n - 1])), n - 1, BitAt(v, n - 1), ks[n - 1].rise.dut.Driving());
    }
  }

  lemma IbiTbitPulse(c: Core, d: Core, t: Bit, driving: bool)
    requires IbiByteStart(c) && InIbiByte(c, d, 8)
    ensures var e := Pulse(d, t, driving);
      && IbiByteStart(e) && e.phase == IBI_DATA && e.stats.readBytes == c.stats.readBytes + 1
      && e.stats.ibiRequests == c.stats.ibiRequests && e.hdr == c.hdr && e.busActive == c.busActive
  {
    hide AddrBitRise, AddrBitFall, AddrAckFall, IbiAckFall, CccTbitFall, WriteTbitFall, ReadTbitFall, EntdaaFall;
  }

  lemma IbiByte(c: Core, ks: seq<Clk>, v: Byte)
    requires IbiByteStart(c) && CarriesByte(ks, v)
    ensures var e := CoreRun(c, Flat(ks));
      && IbiByteStart(e) && e.phase == IBI_DATA && e.stats.readBytes == c.stats.readBytes + 1
      && e.stats.ibiRequests == c.stats.ibiRequests && e.hdr == c.hdr && e.busActive == c.busActive
  {
    hide Carries, Pulse, BitAt;
    IbiBits(c, ks, v, 8);
    var t: Bit := if Carries(ks[8], 0) then 0 else 1;
    AppendClk(c, ks, t);
    IbiTbitPulse(c, CoreRun(c, Flat(ks[..8])), t, ks[8].rise.dut.Driving());
  }

  /** Every byte behind an acknowledged IBI is counted, and the monitor is ready for the next one. */
  lemma {:induction false} IbiBytesCounted(c: Core, ws: seq<seq<Clk>>, bs: seq<Byte>)
    requires IbiByteStart(c) && CarriesBytes(ws, bs)
    ensures var e := CoreRun(c, FlatBytes(ws));
      && IbiByteStart(e) && e.phase == (if bs == [] then c.phase else IBI_DATA)
      && e.stats.readBytes == c.stats.readBytes + |bs| && e.stats.ibiRequests == c.stats.ibiRequests
    decreases bs
  {
    hide CarriesByte, Flat;
    if bs != [] {
      IbiByte(c, ws[0], bs[0]);
      CoreRunAppend(c, Flat(ws[0]), FlatBytes(ws[1..]));
      IbiBytesCounted(CoreRun(c, Flat(ws[0])), ws[1..], bs[1..]);
    }
  }

  /** A whole IBI: one request counted, and exactly the bytes that follow its ACK. */
  lemma IbiDecoded(c: Core, w: StartWave, ks: seq<Clk>, addr: Address, ws: seq<seq<Clk>>, bs: seq<Byte>)
    requires c.prevScl == 1 && c.prevSda == 1 && c.phase != HDR_MODE && IsStart(w)
    requires |ks| == 9 && CarriesAddress(ks, addr, 1) && IsIbi(c, addr, 1, ks) && Carries(ks[8], 0)
    requires CarriesBytes(ws, bs)
    ensures var d := CoreRun(c, (StartSamples(w) + Flat(ks)) + FlatBytes(ws));
      && d.phase == (if bs == [] then IBI_MDB else IBI_DATA)
      && d.stats.ibiRequests == c.stats.ibiRequests + 1 && d.stats.readBytes == c.stats.readBytes + |bs|
  {
    hide CoreRun, StartSamples, Flat, FlatBytes, CarriesAddress, IsIbi, IsStart, Carries, CarriesByte;
    IbiAnswered(c, w, ks, addr, 0);
    CoreRunAppend(c, StartSamples(w) + Flat(ks), FlatBytes(ws));
    IbiBytesCounted(CoreRun(c, StartSamples(w) + Flat(ks)), ws, bs);
  }

  /** A header that nobody acknowledges leaves the monitor idle, whoever it is for. */
  lemma HeaderRefused(c: Core, w: StartWave, ks: seq<Clk>, addr: Address, rnw: Bit)
    requires c.prevScl == 1 && c.prevSda == 1 && c.phase != HDR_MODE && IsStart(w)
    requires |ks| == 9 && CarriesAddress(ks, addr, rnw) && Carries(ks[8], 1)
    ensures CoreRun(c, StartSamples(w) + Flat(ks)).phase == IDLE
  {
    hide CoreRun, StartSamples, Flat, OnStart, DroveAddress, Pulse, Carries, BitAt;
    StartEffect(c, w);
    FreshStart(c);
    var c1 := CoreRun(c, StartSamples(w));
    CoreRunAppend(c, StartSamples(w), Flat(ks));
    HeaderClocks(c1, ks, addr, rnw);
    AppendClk(c1, ks, 1);
    RefusedPulse(CoreRun(c1, Flat(ks[..8])), ks[8].rise.dut.Driving());
  }

  lemma RefusedPulse(e: Core, driving: bool)
    requires e.phase == ADDR_ACK || e.phase == IBI_ADDR_ACK
    ensures Pulse(e, 1, driving).phase == IDLE
  {
  }
}
