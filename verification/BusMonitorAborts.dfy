/**
  Aborted reads: over a whole command frame the monitor counts exactly the direct
  GETs that a Repeated START cut short.
 */
module BusMonitorAborts {
  import opened Wrappers
  import opened BusMonitorModel
  import opened BusMonitorInvariants
  import opened BusMonitorDecode
  import opened BusMonitorFrames

  /** The bytes a GET answers with; zero where the monitor does not know. */
  function Needed(code: Byte, extra: seq<Byte>): nat {
    if code == 0x8B || code == 0x90 then 2
    else if code == 0x8C then 3
    else if code == 0x8D then 6
    else if code == 0x8E || code == 0x8F || code == 0x9A then 1
    else if code == 0x95 then
      if extra == [] || extra[0] == 0x00 then 3 else if extra[0] == 0x93 then 1 else 0
    else 0
  }

  predicate CutShort(s: Seg, code: Byte, extra: seq<Byte>) {
    s.read && |s.bytes| < Needed(code, extra)
  }

  function CutShorts(ss: seq<Seg>, code: Byte, extra: seq<Byte>): nat {
    if ss == [] then 0 else (if CutShort(ss[0], code, extra) then 1 else 0) + CutShorts(ss[1..], code, extra)
  }

  /** The count has grown by `n`, and the flag is set if it has grown. */
  predicate Counted(before: Ccc, after: Ccc, n: nat) {
    after.abortCount == before.abortCount + n && after.aborted == (before.aborted || n > 0)
  }

  lemma CountedMore(a: Ccc, b: Ccc, c: Ccc, m: nat, n: nat)
    requires Counted(a, b, m) && Counted(b, c, n)
    ensures Counted(a, c, m + n)
  {
  }

  /** The command in force, as the frame has it. */
  predicate Commands(c: Core, code: Byte, extra: seq<Byte>) {
    c.ccc.code == Some(code as int) && c.ccc.definingByte == if extra == [] then None else Some(extra[0] as int)
  }

  lemma SameNeed(c: Core, code: Byte, extra: seq<Byte>)
    requires Commands(c, code, extra)
    ensures ExpectedReadCount(c.ccc) == if Needed(code, extra) == 0 then None else Some(Needed(code, extra))
  {
  }

  // ---------------------------------------------------------------------
  // What leaves the count alone
  // ---------------------------------------------------------------------

  lemma {:induction false} BytesKeepCount(c: Core, ws: seq<seq<Clk>>, bs: seq<Byte>)
    requires ByteStart(c) && CarriesBytes(ws, bs)
    requires c.phase == CCC_BYTE && c.byteInMsg == 0 && bs != [] ==> !IsEnthdr(bs[0])
    ensures Counted(c.ccc, CoreRun(c, FlatBytes(ws)).ccc, 0)
    decreases bs
  {
    hide CarriesByte, Flat;
    if bs != [] {
      ByteEffect(c, ws[0], bs[0]);
      CoreRunAppend(c, Flat(ws[0]), FlatBytes(ws[1..]));
      BytesKeepCount(CoreRun(c, Flat(ws[0])), ws[1..], bs[1..]);
    }
  }

  lemma AckKeepsCount(e: Core, d: Core)
    requires d.(stats := e.stats) == AddrAckFall(e, 0).(prevScl := 0, prevSda := 0)
    ensures Counted(e.ccc, d.ccc, 0)
  {
  }

  // ---------------------------------------------------------------------
  // A segment
  // ---------------------------------------------------------------------

  /** The last segment before `c`, if any. */
  predicate Behind(c: Core, last: Option<Seg>) {
    if last.Some? then HasSeg(c, last.value) else c.phase == CCC_BYTE
  }

  /** A Repeated START counts the segment it cuts short. */
  lemma StartCounts(c: Core, last: Option<Seg>, code: Byte, extra: seq<Byte>)
    requires c.busActive && Behind(c, last) && Commands(c, code, extra)
    ensures Counted(c.ccc, OnStart(c).ccc, if last.Some? && CutShort(last.value, code, extra) then 1 else 0)
  {
    hide ExpectedReadCount, Needed;
    SameNeed(c, code, extra);
  }

  lemma SegmentCounts(c: Core, w: SegWave, s: Seg, last: Option<Seg>, code: Byte, extra: seq<Byte>)
    requires Ready(c) && IsSeg(w, s) && Addressable(c.own, s) && Behind(c, last) && Commands(c, code, extra)
    ensures Counted(c.ccc, CoreRun(c, SegSamples(w)).ccc,
                    if last.Some? && CutShort(last.value, code, extra) then 1 else 0)
  {
    hide OnRise, OnStart, AddrAckFall, MatchesDut, StartSamples, Flat, FlatBytes, CoreRun, IsLow, IsHigh, IsStart,
         Behind, CutShort, Counted, Carries, BitAt;
    var up, st, hd, bs := w.low + ([w.rise] + w.high), StartSamples(w.start), Flat(w.header), FlatBytes(w.bytes);
    RaiseClock(c, w.low, w.rise, w.high, 1);
    ConditionRise(c, 1, w.rise.dut.Driving());
    var c1 := CoreRun(c, up);
    SameBehind(c, c1, last);
    StartEffect(c1, w.start);
    RepeatedStart(c1);
    StartCounts(c1, last, code, extra);
    var c2 := CoreRun(c1, st);
    var e := HeaderEffect(c2, w.header, s.addr, s.read);
    AckKeepsCount(e, CoreRun(c2, hd));
    SegmentOpens(c, w, s);
    BytesKeepCount(CoreRun(c2, hd), w.bytes, s.bytes);
    CoreRunAppend(c, up, st + (hd + bs));
    CoreRunAppend(c1, st, hd + bs);
    CoreRunAppend(c2, hd, bs);
    var n := if last.Some? && CutShort(last.value, code, extra) then 1 else 0;
    CountedMore(c1.ccc, c2.ccc, CoreRun(c2, hd).ccc, n, 0);
    CountedMore(c1.ccc, CoreRun(c2, hd).ccc, CoreRun(CoreRun(c2, hd), bs).ccc, n, 0);
  }

  lemma SameBehind(c: Core, d: Core, last: Option<Seg>)
    requires d.phase == c.phase && d.ccc == c.ccc && Behind(c, last)
    ensures Behind(d, last)
  {
  }

  /** The segments that another one follows. */
  function Followed(last: Option<Seg>, ss: seq<Seg>): seq<Seg> {
    var all := (if last.Some? then [last.value] else []) + ss;
    if all == [] then [] else all[..|all| - 1]
  }

  lemma FollowedNext(last: Option<Seg>, ss: seq<Seg>, code: Byte, extra: seq<Byte>)
    requires ss != []
    ensures CutShorts(Followed(last, ss), code, extra) ==
            (if last.Some? && CutShort(last.value, code, extra) then 1 else 0) +
            CutShorts(Followed(Some(ss[0]), ss[1..]), code, extra)
  {
    hide CutShort;
    assert [ss[0]] + ss[1..] == ss;
    if last.Some? {
      assert Followed(last, ss) == [last.value] + ss[..|ss| - 1];
      assert Followed(last, ss)[1..] == ss[..|ss| - 1];
    } else {
      assert [] + ss == ss;
    }
  }

  lemma {:induction false} SegmentsCount(c: Core, ws: seq<SegWave>, ss: seq<Seg>, last: Option<Seg>, code: Byte,
                                         extra: seq<Byte>)
    requires Ready(c) && AreSegs(ws, ss) && forall i :: 0 <= i < |ss| ==> Addressable(c.own, ss[i])
    requires Behind(c, last) && Commands(c, code, extra)
    ensures Counted(c.ccc, CoreRun(c, FlatSegs(ws)).ccc, CutShorts(Followed(last, ss), code, extra))
    decreases ss
  {
    hide IsSeg, HasSeg, SegSamples, Ready, CutShort, Followed, Counted;
    if ss == [] {
      NothingFollows(c, last, code, extra);
    } else {
      assert Addressable(c.own, ss[0]);
      SegmentEffect(c, ws[0], ss[0]);
      SegmentCounts(c, ws[0], ss[0], last, code, extra);
      var c1 := CoreRun(c, SegSamples(ws[0]));
      CoreRunAppend(c, SegSamples(ws[0]), FlatSegs(ws[1..]));
      SegmentsCount(c1, ws[1..], ss[1..], Some(ss[0]), code, extra);
      FollowedNext(last, ss, code, extra);
      CountedMore(c.ccc, c1.ccc, CoreRun(c1, FlatSegs(ws[1..])).ccc,
                  if last.Some? && CutShort(last.value, code, extra) then 1 else 0,
                  CutShorts(Followed(Some(ss[0]), ss[1..]), code, extra));
    }
  }

  lemma NothingFollows(c: Core, last: Option<Seg>, code: Byte, extra: seq<Byte>)
    ensures Counted(c.ccc, c.ccc, CutShorts(Followed(last, []), code, extra))
  {
  }

  // ---------------------------------------------------------------------
  // A frame
  // ---------------------------------------------------------------------

  /** A START on a free bus begins a transfer and counts nothing. */
  lemma FirstStartCounts(c: Core)
    requires !c.busActive
    ensures Counted(c.ccc, OnStart(c).ccc, 0)
  {
  }

  lemma CommandCounts(c: Core, w: FrameWave, f: Frame)
    requires c.prevScl == 1 && c.prevSda == 1 && !c.busActive && c.phase != HDR_MODE
    requires IsFrame(w, f) && !IsEnthdr(f.code)
    ensures Counted(c.ccc, CoreRun(c, CommandSamples(w)).ccc, 0)
  {
    hide OnStart, AddrAckFall, MatchesDut, StartSamples, Flat, FlatBytes, CoreRun, IsLow, IsHigh, IsStart, AreSegs,
         CarriesByte, Counted;
    var st, hd, cd, ex := StartSamples(w.start), Flat(w.header), Flat(w.code), FlatBytes(w.extra);
    HighRun(c, w.idle);
    StartEffect(c, w.start);
    AnyStart(c);
    FirstStartCounts(c);
    var c2 := CoreRun(c, st);
    var e := HeaderEffect(c2, w.header, 0x7E, false);
    BroadcastAck(e);
    var c3 := CoreRun(c2, hd);
    AckKeepsCount(e, c3);
    var ws, bs := [w.code] + w.extra, [f.code] + f.extra;
    assert ws[1..] == w.extra;
    assert FlatBytes(ws) == cd + ex by { FirstThenRest(w); }
    BytesKeepCount(c3, ws, bs);
    CoreRunAppend(c, w.idle, st + (hd + (cd + ex)));
    CoreRunAppend(c, st, hd + (cd + ex));
    CoreRunAppend(c2, hd, cd + ex);
    CountedMore(c.ccc, c2.ccc, c3.ccc, 0, 0);
    CountedMore(c.ccc, c3.ccc, CoreRun(c3, cd + ex).ccc, 0, 0);
  }

  lemma FirstThenRest(w: FrameWave)
    ensures FlatBytes([w.code] + w.extra) == Flat(w.code) + FlatBytes(w.extra)
  {
    hide Flat;
    assert ([w.code] + w.extra)[1..] == w.extra;
  }

  /**
    From a free bus, whatever was counted before: a frame adds one for every
    direct GET that is followed by another segment and has delivered fewer bytes
    than its command answers with, and nothing for the last one, which a STOP
    ends.
   */
  lemma AbortsCounted(c: Core, w: FrameWave, f: Frame)
    requires c.prevScl == 1 && c.prevSda == 1 && !c.busActive && c.phase != HDR_MODE
    requires IsFrame(w, f) && !IsEnthdr(f.code)
    requires forall i :: 0 <= i < |f.segs| ==> Addressable(c.own, f.segs[i])
    ensures var followed := if f.segs == [] then [] else f.segs[..|f.segs| - 1];
      Counted(c.ccc, CoreRun(c, FrameSamples(w)).ccc, CutShorts(followed, f.code, f.extra))
  {
    hide CommandSamples, FlatSegs, CoreRun, Ready, HasSeg, Counted, CarriesByte, IsLow, IsHigh, IsStart, IsSeg, OnRise,
         CutShorts;
    CommandEffect(c, w, f);
    CommandCounts(c, w, f);
    var c1 := CoreRun(c, CommandSamples(w));
    SegmentsCount(c1, w.segs, f.segs, None, f.code, f.extra);
    assert [] + f.segs == f.segs;
    SegmentsEffect(c1, w.segs, f.segs);
    var c2 := CoreRun(c1, FlatSegs(w.segs));
    var up := w.low + ([w.rise] + w.high);
    CoreRunAppend(c, CommandSamples(w), FlatSegs(w.segs) + up);
    CoreRunAppend(c1, FlatSegs(w.segs), up);
    UpKeepsCount(c2, w.low, w.rise, w.high);
    var n := CutShorts(Followed(None, f.segs), f.code, f.extra);
    CountedMore(c.ccc, c1.ccc, c2.ccc, 0, n);
    CountedMore(c.ccc, c2.ccc, CoreRun(c2, up).ccc, n, 0);
  }

  lemma UpKeepsCount(c: Core, low: seq<Sample>, rise: Sample, high: seq<Sample>)
    requires Ready(c) && IsLow(low) && At(rise, 1, 0) && IsHigh(high, 0)
    ensures Counted(c.ccc, CoreRun(c, low + ([rise] + high)).ccc, 0)
  {
    hide OnRise, CoreRun;
    RaiseClock(c, low, rise, high, 0);
    ConditionRise(c, 0, rise.dut.Driving());
  }
}
