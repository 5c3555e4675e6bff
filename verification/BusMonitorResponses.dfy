/**
  The completion checks end to end, from the wires to the verdict: a STOP raises
  exactly when the last GET of the frame was answered wrongly, and records a
  mismatch exactly when the register of its last SET does not hold what was
  written.
 */
module BusMonitorResponses {
  import opened Wrappers
  import opened BusMonitorModel
  import opened BusMonitorInvariants
  import opened BusMonitorRuns
  import opened BusMonitorSilence
  import opened BusMonitorDecode
  import opened BusMonitorFrames

  function TwoBytes(v: nat): seq<int> { [v / 0x100 % 256, v % 256] }

  function SixBytes(v: nat): seq<int> {
    [v / 0x100_0000_0000 % 256, v / 0x1_0000_0000 % 256, v / 0x100_0000 % 256, v / 0x1_0000 % 256, v / 0x100 % 256,
     v % 256]
  }

  /**
    The response the last segment of a frame should carry: GETBCR, GETDCR,
    GETSTATUS, GETMWL, GETMRL, GETPID, and GETCAPS for the defining bytes 0x00,
    which is meant without one, and 0x93.  The virtual target has values of its
    own, and in its status only activity state 3 and the protocol error bit.
   */
  function WantedResponse(f: Frame, own: Own, r: Responses): Option<seq<int>>
    requires f.segs != []
  {
    var virt := own.virt == Some(f.segs[|f.segs| - 1].addr);
    var db := if f.extra == [] then 0x00 else f.extra[0];
    if f.code == 0x8E then
      var bcr := if virt then r.virtBcr else r.bcr;
      if bcr.Some? then Some([bcr.value % 256]) else None
    else if f.code == 0x8F then
      var dcr := if virt then r.virtDcr else r.dcr;
      if dcr.Some? then Some([dcr.value % 256]) else None
    else if f.code == 0x90 then
      if r.status.None? then None
      else if virt then
        Some([r.status.value / 0x100 % 256, 0xC0 + if r.status.value / 0x20 % 2 == 1 then 0x20 else 0])
      else Some(TwoBytes(r.status.value))
    else if f.code == 0x8B then
      if r.mwl.Some? then Some(TwoBytes(r.mwl.value)) else None
    else if f.code == 0x8C then
      if r.mrl.None? then None
      else Some(TwoBytes(r.mrl.value) + [if r.ibil.Some? && !virt then r.ibil.value else 0])
    else if f.code == 0x8D then
      var pid := if virt then r.virtPid else r.pid;
      if pid.Some? then Some(SixBytes(pid.value)) else None
    else if f.code == 0x95 && db == 0x00 then Some(if virt then [0, 1, 0] else [0, 1, 0x48])
    else if f.code == 0x95 && db == 0x93 then Some([0x35])
    else None
  }

  lemma BigEndianOne(v: nat)
    ensures BigEndian(v, 1) == [v % 256]
  {
    assert BigEndian(v / 256, 0) == [];
  }

  lemma BigEndianTwo(v: nat)
    ensures BigEndian(v, 2) == TwoBytes(v)
  {
    BigEndianOne(v / 256);
    assert BigEndian(v, 2) == BigEndian(v / 256, 1) + [v % 256];
  }

  lemma BigEndianSix(v: nat)
    ensures BigEndian(v, 6) == SixBytes(v)
  {
    var a, b, c, d := v / 256, v / 0x1_0000, v / 0x100_0000, v / 0x1_0000_0000;
    assert a / 256 == b && b / 256 == c && c / 256 == d && d / 256 == v / 0x100_0000_0000;
    BigEndianTwo(d);
    assert BigEndian(c, 3) == BigEndian(d, 2) + [c % 256];
    assert BigEndian(b, 4) == BigEndian(c, 3) + [b % 256];
    assert BigEndian(a, 5) == BigEndian(b, 4) + [a % 256];
    assert BigEndian(v, 6) == BigEndian(a, 5) + [v % 256];
  }

  /** The monitor's expectation is that response, whatever else its context holds. */
  lemma ExpectsWanted(ccc: Ccc, f: Frame, own: Own, r: Responses)
    requires f.segs != [] && ccc.code == Some(f.code as int)
    requires ccc.directAddr == Some(f.segs[|f.segs| - 1].addr as int)
    requires ccc.definingByte == if f.extra == [] then None else Some(f.extra[0] as int)
    ensures ExpectedResponse(ccc, own, r) == WantedResponse(f, own, r)
  {
    hide BigEndian, TwoBytes, SixBytes, VirtStatus;
    if f.code == 0x8D {
      PidExpected(r);
    } else if f.code == 0x90 {
      StatusExpected(r);
    } else {
      OthersExpected(r);
    }
  }

  lemma PidExpected(r: Responses)
    ensures r.pid.Some? ==> BigEndian(r.pid.value, 6) == SixBytes(r.pid.value)
    ensures r.virtPid.Some? ==> BigEndian(r.virtPid.value, 6) == SixBytes(r.virtPid.value)
  {
    hide BigEndian, SixBytes;
    if r.pid.Some? { BigEndianSix(r.pid.value); }
    if r.virtPid.Some? { BigEndianSix(r.virtPid.value); }
  }

  lemma StatusExpected(r: Responses)
    ensures r.status.Some? ==>
      var v := r.status.value;
      && BigEndian(v, 2) == TwoBytes(v)
      && BigEndian(VirtStatus(v), 2) == [v / 0x100 % 256, 0xC0 + (if v / 0x20 % 2 == 1 then 0x20 else 0)]
  {
    if r.status.Some? {
      var v := r.status.value;
      BigEndianTwo(v);
      BigEndianTwo(VirtStatus(v));
    }
  }

  lemma OthersExpected(r: Responses)
    ensures forall v: nat :: BigEndian(v, 1) == [v % 256]
    ensures r.mwl.Some? ==> BigEndian(r.mwl.value, 2) == TwoBytes(r.mwl.value)
    ensures r.mrl.Some? ==> BigEndian(r.mrl.value, 2) == TwoBytes(r.mrl.value)
  {
    hide BigEndian, TwoBytes;
    forall v: nat ensures BigEndian(v, 1) == [v % 256] { BigEndianOne(v); }
    if r.mwl.Some? { BigEndianTwo(r.mwl.value); }
    if r.mrl.Some? { BigEndianTwo(r.mrl.value); }
  }

  /** Some byte that came is not the one wanted in its place; bytes missing or left over do not count. */
  predicate IsAnotherAnswer(got: seq<int>, wanted: seq<int>) {
    exists i :: 0 <= i < Min(|got|, |wanted|) && got[i] != wanted[i]
  }

  lemma DiffersIs(got: seq<int>, wanted: seq<int>)
    ensures Differs(got, wanted) <==> IsAnotherAnswer(got, wanted)
  {
  }

  /** The frame ends with a read of at least one byte, a response is expected, and some byte is not the one expected. */
  predicate AnswersWrongly(f: Frame, own: Own, sigs: Signals) {
    && f.segs != [] && f.segs[|f.segs| - 1].read && sigs.responses.Some?
    && var e := WantedResponse(f, own, sigs.responses.value);
       e.Some? && IsAnotherAnswer(f.segs[|f.segs| - 1].bytes, e.value)
  }

  /**
    From any state outside HDR mode with the bus high: the STOP of a frame with
    a direct read raises CCC_RESPONSE_DATA if and only if the frame was answered
    wrongly, whatever the number of samples per level.
   */
  lemma GetIsChecked(c: Core, w: FrameWave, f: Frame, d: Deadlines, stop: Sample)
    requires c.prevScl == 1 && c.prevSda == 1 && c.phase != HDR_MODE
    requires IsFrame(w, f) && !IsEnthdr(f.code) && At(stop, 1, 1)
    requires forall i :: 0 <= i < |f.segs| ==> Addressable(c.own, f.segs[i])
    requires f.segs != [] && f.segs[|f.segs| - 1].read
    ensures RaisedBy(CoreRun(c, FrameSamples(w)), d, stop, {}) ==
            if AnswersWrongly(f, c.own, stop.sigs) then Some(CCC_RESPONSE_DATA) else None
  {
    hide CoreRun, FrameSamples, IsFrame, ExpectedResponse, Differs, OnStop, CoreStep;
    DecodesFrame(c, w, f, stop);
    var e := CoreRun(c, FrameSamples(w));
    SameExpectation(e, f, stop.sigs);
    assert DeadlinesAtEdge(d, e, StopEdge, 1, stop.now) == Cleared(d);
  }

  lemma SameExpectation(e: Core, f: Frame, sigs: Signals)
    requires Reports(e, f) && f.segs != [] && f.segs[|f.segs| - 1].read
    ensures WrongResponse(e.ccc, e.own, sigs) <==> AnswersWrongly(f, e.own, sigs)
  {
    hide ExpectedResponse, WantedResponse;
    if sigs.responses.Some? {
      var wanted := WantedResponse(f, e.own, sigs.responses.value);
      ExpectsWanted(e.ccc, f, e.own, sigs.responses.value);
      if wanted.Some? { DiffersIs(f.segs[|f.segs| - 1].bytes, wanted.value); }
    }
  }

  lemma InvRun(c: Core, ss: seq<Sample>)
    requires Inv(c)
    ensures Inv(CoreRun(c, ss))
  {
    hide Inv, CoreRun;
    ClocksRun(c, INITIAL_DEADLINES, ss);
    InvAfter(c, Clocks(ss));
  }

  // ---------------------------------------------------------------------
  // Only the last segment is checked
  // ---------------------------------------------------------------------

  /** No STOP among the samples, which follow the given levels. */
  predicate StopFree(scl: Bit, sda: Bit, ss: seq<Sample>)
    decreases ss
  {
    ss != [] ==>
      if !ss[0].Defined() then StopFree(scl, sda, ss[1..])
      else
        && !(scl == 1 && ss[0].scl.value == 1 && sda == 0 && ss[0].sda.value == 1)
        && StopFree(ss[0].scl.value, ss[0].sda.value, ss[1..])
  }

  /** The levels after the samples. */
  function Levels(scl: Bit, sda: Bit, ss: seq<Sample>): (Bit, Bit)
    decreases ss
  {
    if ss == [] then (scl, sda)
    else if !ss[0].Defined() then Levels(scl, sda, ss[1..])
    else Levels(ss[0].scl.value, ss[0].sda.value, ss[1..])
  }

  lemma {:induction false} StopFreeAppend(scl: Bit, sda: Bit, x: seq<Sample>, y: seq<Sample>)
    ensures var l := Levels(scl, sda, x);
      && (StopFree(scl, sda, x + y) <==> StopFree(scl, sda, x) && StopFree(l.0, l.1, y))
      && Levels(scl, sda, x + y) == Levels(l.0, l.1, y)
    decreases x
  {
    if x == [] {
      assert x + y == y;
    } else {
      assert (x + y)[0] == x[0] && (x + y)[1..] == x[1..] + y;
      if x[0].Defined() {
        StopFreeAppend(x[0].scl.value, x[0].sda.value, x[1..], y);
      } else {
        StopFreeAppend(scl, sda, x[1..], y);
      }
    }
  }

  /** Samples that start from a low SCL, end with a low SCL and hold no STOP. */
  predicate LowToLow(ss: seq<Sample>) {
    forall sda: Bit :: StopFree(0, sda, ss) && Levels(0, sda, ss).0 == 0
  }

  lemma LowToLowAppend(x: seq<Sample>, y: seq<Sample>)
    requires LowToLow(x) && LowToLow(y)
    ensures LowToLow(x + y)
  {
    hide StopFree, Levels;
    forall sda: Bit ensures StopFree(0, sda, x + y) && Levels(0, sda, x + y).0 == 0 {
      StopFreeAppend(0, sda, x, y);
    }
  }

  lemma {:induction false} LowIsFree(sda: Bit, ss: seq<Sample>)
    requires IsLow(ss)
    ensures StopFree(0, sda, ss) && Levels(0, sda, ss).0 == 0
    decreases ss
  {
    if ss != [] { LowIsFree(if ss[0].Defined() then ss[0].sda.value else sda, ss[1..]); }
  }

  lemma {:induction false} HighIsFree(b: Bit, ss: seq<Sample>)
    requires IsHigh(ss, b)
    ensures StopFree(1, b, ss) && Levels(1, b, ss) == (1, b)
    decreases ss
  {
    if ss != [] { HighIsFree(b, ss[1..]); }
  }

  lemma OneIsFree(scl: Bit, sda: Bit, s: Sample, b: Bit, level: Bit)
    requires At(s, level, b) && (scl == 0 || level == 0 || sda == 1 || b == 0)
    ensures StopFree(scl, sda, [s]) && Levels(scl, sda, [s]) == (level, b)
  {
    assert [s][1..] == [];
  }

  /** SCL low, a rise, SCL high. */
  lemma UpIsFree(sda: Bit, low: seq<Sample>, rise: Sample, high: seq<Sample>, b: Bit)
    requires IsLow(low) && At(rise, 1, b) && IsHigh(high, b)
    ensures var up := low + ([rise] + high); StopFree(0, sda, up) && Levels(0, sda, up) == (1, b)
  {
    hide StopFree, Levels, IsLow, IsHigh;
    LowIsFree(sda, low);
    var l := Levels(0, sda, low);
    OneIsFree(0, l.1, rise, b, 1);
    HighIsFree(b, high);
    StopFreeAppend(0, l.1, [rise], high);
    StopFreeAppend(0, sda, low, [rise] + high);
  }

  lemma ClkIsFree(k: Clk, b: Bit)
    requires Carries(k, b)
    ensures LowToLow(ClkSamples(k))
  {
    hide StopFree, Levels, IsLow, IsHigh;
    forall sda: Bit ensures StopFree(0, sda, ClkSamples(k)) && Levels(0, sda, ClkSamples(k)).0 == 0 {
      var up := k.low + ([k.rise] + k.high);
      assert ClkSamples(k) == up + [k.fall];
      UpIsFree(sda, k.low, k.rise, k.high, b);
      OneIsFree(1, b, k.fall, b, 0);
      StopFreeAppend(0, sda, up, [k.fall]);
    }
  }

  predicate AllCarry(ks: seq<Clk>) {
    forall i :: 0 <= i < |ks| ==> Carries(ks[i], 0) || Carries(ks[i], 1)
  }

  lemma {:induction false} FlatIsFree(ks: seq<Clk>)
    requires AllCarry(ks)
    ensures LowToLow(Flat(ks))
    decreases ks
  {
    hide LowToLow, Carries, ClkSamples;
    if ks == [] {
      NothingIsFree();
    } else {
      ClkIsFree(ks[0], if Carries(ks[0], 0) then 0 else 1);
      FlatIsFree(ks[1..]);
      LowToLowAppend(ClkSamples(ks[0]), Flat(ks[1..]));
    }
  }

  lemma NothingIsFree()
    ensures LowToLow([])
  {
  }

  lemma ByteIsFree(ks: seq<Clk>, v: Byte)
    requires CarriesByte(ks, v)
    ensures LowToLow(Flat(ks))
  {
    hide LowToLow, Carries, BitAt;
    forall i | 0 <= i < |ks| ensures Carries(ks[i], 0) || Carries(ks[i], 1) {
      if i < 8 { assert Carries(ks[i], BitAt(v, i)); }
    }
    FlatIsFree(ks);
  }

  lemma {:induction false} BytesAreFree(ws: seq<seq<Clk>>, bs: seq<Byte>)
    requires CarriesBytes(ws, bs)
    ensures LowToLow(FlatBytes(ws))
    decreases bs
  {
    hide LowToLow, CarriesByte, Flat;
    if bs == [] {
      NothingIsFree();
    } else {
      ByteIsFree(ws[0], bs[0]);
      BytesAreFree(ws[1..], bs[1..]);
      LowToLowAppend(Flat(ws[0]), FlatBytes(ws[1..]));
    }
  }

  lemma StartIsFree(w: StartWave)
    requires IsStart(w)
    ensures StopFree(1, 1, StartSamples(w)) && Levels(1, 1, StartSamples(w)).0 == 0
  {
    hide StopFree, Levels, IsHigh;
    OneIsFree(1, 1, w.start, 0, 1);
    HighIsFree(0, w.hold);
    OneIsFree(1, 0, w.fall, 0, 0);
    StopFreeAppend(1, 0, w.hold, [w.fall]);
    StopFreeAppend(1, 1, [w.start], w.hold + [w.fall]);
  }

  lemma StartThen(w: StartWave, rest: seq<Sample>)
    requires IsStart(w) && LowToLow(rest)
    ensures StopFree(1, 1, StartSamples(w) + rest) && Levels(1, 1, StartSamples(w) + rest).0 == 0
  {
    hide StopFree, Levels, IsStart, StartSamples;
    StartIsFree(w);
    StopFreeAppend(1, 1, StartSamples(w), rest);
  }

  lemma SegIsFree(w: SegWave, s: Seg)
    requires IsSeg(w, s)
    ensures LowToLow(SegSamples(w))
  {
    hide StopFree, Levels, IsStart, StartSamples, IsLow, IsHigh, Flat, FlatBytes, CarriesByte;
    var rest := Flat(w.header) + FlatBytes(w.bytes);
    ByteIsFree(w.header, s.addr * 2 + if s.read then 1 else 0);
    BytesAreFree(w.bytes, s.bytes);
    LowToLowAppend(Flat(w.header), FlatBytes(w.bytes));
    StartThen(w.start, rest);
    var up := w.low + ([w.rise] + w.high);
    forall sda: Bit ensures StopFree(0, sda, SegSamples(w)) && Levels(0, sda, SegSamples(w)).0 == 0 {
      UpIsFree(sda, w.low, w.rise, w.high, 1);
      StopFreeAppend(0, sda, up, StartSamples(w.start) + rest);
    }
  }

  lemma {:induction false} SegsAreFree(ws: seq<SegWave>, ss: seq<Seg>)
    requires AreSegs(ws, ss)
    ensures LowToLow(FlatSegs(ws))
    decreases ss
  {
    hide LowToLow, IsSeg, SegSamples;
    if ss == [] {
      NothingIsFree();
    } else {
      SegIsFree(ws[0], ss[0]);
      SegsAreFree(ws[1..], ss[1..]);
      LowToLowAppend(SegSamples(ws[0]), FlatSegs(ws[1..]));
    }
  }

  /** A frame has one STOP, behind its last sample. */
  lemma FrameIsFree(w: FrameWave, f: Frame)
    requires IsFrame(w, f)
    ensures StopFree(1, 1, FrameSamples(w))
  {
    hide StopFree, Levels, IsStart, StartSamples, IsLow, IsHigh, Flat, FlatBytes, FlatSegs, CarriesByte, LowToLow,
         AreSegs;
    var hd, cd, ex, sg := Flat(w.header), Flat(w.code), FlatBytes(w.extra), FlatSegs(w.segs);
    var st, up := StartSamples(w.start), w.low + ([w.rise] + w.high);
    ByteIsFree(w.header, BROADCAST_ADDR * 2);
    ByteIsFree(w.code, f.code);
    BytesAreFree(w.extra, f.extra);
    SegsAreFree(w.segs, f.segs);
    LowToLowAppend(cd, ex);
    LowToLowAppend(hd, cd + ex);
    LowToLowAppend(hd + (cd + ex), sg);
    var body := (hd + (cd + ex)) + sg;
    StartThen(w.start, body);
    var l := Levels(1, 1, st + body);
    UpIsFree(l.1, w.low, w.rise, w.high, 0);
    HighIsFree(1, w.idle);
    StopFreeAppend(1, 1, st + body, up);
    StopFreeAppend(1, 1, w.idle, (st + body) + up);
    assert FrameSamples(w) == w.idle + ((st + body) + up);
  }

  /** The response check is made at a STOP only. */
  lemma {:induction false} FreeRunUnchecked(c: Core, d: Deadlines, ss: seq<Sample>, sup: set<CheckId>)
    requires StopFree(c.prevScl, c.prevSda, ss) && d.handoffId != CCC_RESPONSE_DATA
    ensures FirstRaise(c, d, Clocks(ss), sup) != Some(CCC_RESPONSE_DATA)
    ensures DeadlineRun(d, c, ss).handoffId != CCC_RESPONSE_DATA
    decreases ss
  {
    hide CoreStep, DeadlineStep, RaisedBy, EdgeOf;
    if ss != [] {
      assert Clocks(ss)[1..] == Clocks(ss[1..]);
      UncheckedAt(c, d, ss[0], sup);
      StepLevels(c, ss[0]);
      FreeRunUnchecked(CoreStep(c, ss[0]), DeadlineStep(d, c, ss[0]), ss[1..], sup);
    }
  }

  lemma StepLevels(c: Core, s: Sample)
    ensures s.Defined() ==> CoreStep(c, s).prevScl == s.scl.value && CoreStep(c, s).prevSda == s.sda.value
    ensures !s.Defined() ==> CoreStep(c, s) == c
  {
    hide OnEdge;
  }

  lemma UncheckedAt(c: Core, d: Deadlines, s: Sample, sup: set<CheckId>)
    requires d.handoffId != CCC_RESPONSE_DATA
    requires s.Defined() ==> !(c.prevScl == 1 && s.scl.value == 1 && c.prevSda == 0 && s.sda.value == 1)
    ensures RaisedBy(c, d, s, sup) != Some(CCC_RESPONSE_DATA)
    ensures DeadlineStep(d, c, s).handoffId != CCC_RESPONSE_DATA
  {
    hide OnFall, ResponseCheck;
  }

  /**
    Over a whole frame with any number of segments, the response check ends the
    monitor only if the last segment was answered wrongly: whatever the segments
    before it answer is never held against the DUT.
   */
  lemma OnlyLastSegmentChecked(c: Core, w: FrameWave, f: Frame, d: Deadlines, stop: Sample, sup: set<CheckId>)
    requires Inv(c) && c.prevScl == 1 && c.prevSda == 1 && c.phase != HDR_MODE && d.handoffId != CCC_RESPONSE_DATA
    requires IsFrame(w, f) && !IsEnthdr(f.code) && At(stop, 1, 1)
    requires forall i :: 0 <= i < |f.segs| ==> Addressable(c.own, f.segs[i])
    ensures FirstRaise(c, d, Clocks(FrameSamples(w) + [stop]), sup) == Some(CCC_RESPONSE_DATA) ==>
            AnswersWrongly(f, c.own, stop.sigs)
  {
    hide CoreRun, FrameSamples, IsFrame, ExpectedResponse, Differs, OnStop, CoreStep, DeadlineStep, Inv, StopFree,
         FirstRaise;
    var ss := FrameSamples(w);
    DecodesFrame(c, w, f, stop);
    InvRun(c, ss);
    FrameIsFree(w, f);
    FreeRunUnchecked(c, d, ss, sup);
    assert Clocks(ss + [stop]) == Clocks(ss) + Clocks([stop]);
    RaiseAppend(c, d, Clocks(ss), Clocks([stop]), sup);
    ClocksRun(c, d, ss);
    LastSample(CoreRun(c, ss), DeadlineRun(d, c, ss), stop, f, sup);
  }

  lemma LastSample(e: Core, d: Deadlines, stop: Sample, f: Frame, sup: set<CheckId>)
    requires Inv(e) && Reports(e, f) && At(stop, 1, 1)
    requires EdgeOf(e, 1, 1) == StopEdge && d.handoffId != CCC_RESPONSE_DATA
    ensures FirstRaise(e, d, Clocks([stop]), sup) == Some(CCC_RESPONSE_DATA) ==> AnswersWrongly(f, e.own, stop.sigs)
  {
    hide RaisedBy, Inv, Reports, AnswersWrongly, WrongResponse, EdgeOf, CoreStep, DeadlineStep;
    OneRaise(e, d, stop, sup);
    StopRaise(e, d, stop, sup);
    if WrongResponse(e.ccc, e.own, stop.sigs) { WrongIsLastRead(e, f, stop.sigs); }
  }

  /** At a STOP nothing but the response check raises, whose deadlines have been dropped. */
  lemma StopRaise(c: Core, d: Deadlines, s: Sample, sup: set<CheckId>)
    requires At(s, 1, 1) && EdgeOf(c, 1, 1) == StopEdge
    ensures RaisedBy(c, d, s, sup) == Some(CCC_RESPONSE_DATA) && d.handoffId != CCC_RESPONSE_DATA ==>
            WrongResponse(c.ccc, c.own, s.sigs)
  {
    hide WrongResponse;
  }

  lemma WrongIsLastRead(e: Core, f: Frame, sigs: Signals)
    requires Inv(e) && Reports(e, f) && WrongResponse(e.ccc, e.own, sigs)
    ensures AnswersWrongly(f, e.own, sigs)
  {
    hide ExpectedResponse, Differs, Widths;
    assert ReadPhase(e.phase);
    assert f.segs != [] && f.segs[|f.segs| - 1].read;
    SameExpectation(e, f, sigs);
  }

  // ---------------------------------------------------------------------
  // Direct SETs
  // ---------------------------------------------------------------------

  /** The frame ends with a write to MWL or MRL that the register does not show. */
  predicate SetIsLost(f: Frame, sigs: Signals) {
    && f.segs != [] && !f.segs[|f.segs| - 1].read && |f.segs[|f.segs| - 1].bytes| >= 2
    && var bytes := f.segs[|f.segs| - 1].bytes;
       var written := bytes[0] as int * 256 + bytes[1];
       || (f.code == 0x89 && sigs.csrMwl.Some? && sigs.csrMwl.value != written)
       || (f.code == 0x8A && sigs.csrMrl.Some? && sigs.csrMrl.value != written)
  }

  /**
    From any reachable state outside HDR mode with the bus high: the STOP of a
    frame that ends with a direct write never raises, and it records a mismatch
    if and only if the write is SETMWL or SETMRL with at least two bytes and the
    register holds something else.
   */
  lemma SetIsRecorded(c: Core, w: FrameWave, f: Frame, d: Deadlines, stop: Sample)
    requires Inv(c) && c.prevScl == 1 && c.prevSda == 1 && c.phase != HDR_MODE
    requires IsFrame(w, f) && !IsEnthdr(f.code) && At(stop, 1, 1)
    requires forall i :: 0 <= i < |f.segs| ==> Addressable(c.own, f.segs[i])
    requires f.segs != [] && !f.segs[|f.segs| - 1].read
    ensures var e := CoreRun(c, FrameSamples(w));
      && RaisedBy(e, d, stop, {}) == None
      && (Mismatch(e, Clock(stop), {}) <==> SetIsLost(f, stop.sigs))
  {
    hide CoreRun, FrameSamples, IsFrame, OnStop, CoreStep, Inv, RaisedBy, Mismatch, SetIsLost, EdgeOf;
    DecodesFrame(c, w, f, stop);
    InvRun(c, FrameSamples(w));
    WriteAtStop(CoreRun(c, FrameSamples(w)), f, d, stop);
  }

  lemma WriteAtStop(e: Core, f: Frame, d: Deadlines, stop: Sample)
    requires Inv(e) && Reports(e, f) && At(stop, 1, 1) && EdgeOf(e, 1, 1) == StopEdge
    requires f.segs != [] && !f.segs[|f.segs| - 1].read
    ensures RaisedBy(e, d, stop, {}) == None && (Mismatch(e, Clock(stop), {}) <==> SetIsLost(f, stop.sigs))
  {
    hide Widths, ExpectedResponse, Differs;
    assert e.phase == WRITE_DATA && !e.ccc.inRead && e.ccc.inWrite && e.ccc.writeBytes == f.segs[|f.segs| - 1].bytes;
  }
}
