/**
  The monitor that raises when data reaches the RX queue after a TE2 error:
  three nested waits on a clock, against a trace specification.
 */
module Te2Monitor {
  import opened Wrappers

  /** What is sampled at one clock edge; `None` is X or Z. */
  datatype Sample = Sample(te2: Option<Bit>, fsmState: Option<nat>, rxWrite: Option<Bit>)

  const FSM_IDLE: nat := 0

  predicate High(s: Sample) { s.te2 == Some(1) }

  predicate Idle(s: Sample) { s.fsmState == Some(FSM_IDLE) }

  /** Data is written while the FSM is known to be busy. */
  predicate BusyWrite(s: Sample) { s.fsmState.Some? && !Idle(s) && s.rxWrite == Some(1) }

  // ---------------------------------------------------------------------
  // Trace specification
  // ---------------------------------------------------------------------

  /** The first index from `from` on at which TE2 is high, or the end of the trace. */
  function FirstHigh(ss: seq<Sample>, from: nat): (i: nat)
    requires from <= |ss|
    ensures from <= i <= |ss| && (i < |ss| ==> High(ss[i])) && forall j :: from <= j < i ==> !High(ss[j])
    decreases |ss| - from
  {
    if from == |ss| || High(ss[from]) then from else FirstHigh(ss, from + 1)
  }

  function FirstLow(ss: seq<Sample>, from: nat): (i: nat)
    requires from <= |ss|
    ensures from <= i <= |ss| && (i < |ss| ==> !High(ss[i])) && forall j :: from <= j < i ==> High(ss[j])
    decreases |ss| - from
  {
    if from == |ss| || !High(ss[from]) then from else FirstLow(ss, from + 1)
  }

  function FirstIdle(ss: seq<Sample>, from: nat): (i: nat)
    requires from <= |ss|
    ensures from <= i <= |ss| && (i < |ss| ==> Idle(ss[i])) && forall j :: from <= j < i ==> !Idle(ss[j])
    decreases |ss| - from
  {
    if from == |ss| || Idle(ss[from]) then from else FirstIdle(ss, from + 1)
  }

  /** One watched TE2 event: it is high from `rise` to `fall` and watched from there to `idle`. */
  datatype Episode = Episode(rise: nat, fall: nat, idle: nat)

  /** The next episode when the monitor looks out for TE2 from `from` on; ends are at the end of an unfinished trace. */
  function EpisodeFrom(ss: seq<Sample>, from: nat): (e: Episode)
    requires from <= |ss|
    ensures from <= e.rise <= e.fall <= e.idle <= |ss|
    ensures e.rise < |ss| ==> e.rise < e.fall && (e.fall < |ss| ==> e.fall < e.idle)
  {
    var r := FirstHigh(ss, from);
    var f := if r < |ss| then FirstLow(ss, r + 1) else r;
    Episode(r, f, if f < |ss| then FirstIdle(ss, f + 1) else f)
  }

  /** `e` is one of the episodes from `from` on; a new one is looked for only after the last has ended. */
  predicate IsEpisode(ss: seq<Sample>, from: nat, e: Episode)
    requires from <= |ss|
    decreases |ss| - from
  {
    var first := EpisodeFrom(ss, from);
    first.rise < |ss| && (e == first || (first.idle < |ss| && IsEpisode(ss, first.idle + 1, e)))
  }

  /** A sample that breaks the rule: a busy write strictly between the fall and the idle of some episode. */
  predicate Violates(ss: seq<Sample>, from: nat, i: nat)
    requires from <= |ss|
    decreases |ss| - from
  {
    var e := EpisodeFrom(ss, from);
    e.rise < |ss| &&
    ((e.fall < i < e.idle && BusyWrite(ss[i])) || (e.idle < |ss| && Violates(ss, e.idle + 1, i)))
  }

  lemma {:induction false} ViolatesInEpisode(ss: seq<Sample>, from: nat, i: nat)
    requires from <= |ss|
    ensures Violates(ss, from, i) <==>
            exists e :: IsEpisode(ss, from, e) && e.fall < i < e.idle <= |ss| && BusyWrite(ss[i])
    decreases |ss| - from
  {
    hide EpisodeFrom, BusyWrite;
    var first := EpisodeFrom(ss, from);
    if first.rise < |ss| && first.idle < |ss| {
      ViolatesInEpisode(ss, first.idle + 1, i);
      if Violates(ss, first.idle + 1, i) {
        var e :| IsEpisode(ss, first.idle + 1, e) && e.fall < i < e.idle <= |ss| && BusyWrite(ss[i]);
        assert IsEpisode(ss, from, e);
      }
    }
    assert first.rise < |ss| ==> IsEpisode(ss, from, first);
  }

  /** Every violation follows a real pulse: high up to its fall, and no idle sample since. */
  lemma {:induction false} ViolationIsReal(ss: seq<Sample>, from: nat, i: nat) returns (rise: nat, fall: nat)
    requires from <= |ss| && Violates(ss, from, i)
    ensures from <= rise < fall < i < |ss| && BusyWrite(ss[i])
    ensures (forall j :: rise <= j < fall ==> High(ss[j])) && !High(ss[fall])
    ensures forall j :: fall < j < i ==> !Idle(ss[j])
    decreases |ss| - from
  {
    var e := EpisodeFrom(ss, from);
    if e.fall < i < e.idle && BusyWrite(ss[i]) {
      rise, fall := e.rise, e.fall;
    } else {
      rise, fall := ViolationIsReal(ss, e.idle + 1, i);
    }
  }

  lemma NoneBefore(ss: seq<Sample>, from: nat, i: nat)
    requires from <= |ss|
    ensures Violates(ss, from, i) ==> from < i
  {
    if Violates(ss, from, i) { var _, _ := ViolationIsReal(ss, from, i); }
  }

  /** The first busy write in `[from, end)`, or `end`. */
  function FirstBusy(ss: seq<Sample>, from: nat, end: nat): (i: nat)
    requires from <= end <= |ss|
    ensures from <= i <= end && (i < end ==> BusyWrite(ss[i]))
    ensures forall j :: from <= j < i ==> !BusyWrite(ss[j])
    decreases end - from
  {
    if from == end || BusyWrite(ss[from]) then from else FirstBusy(ss, from + 1, end)
  }

  /** Where a monitor that looks out for TE2 from `from` on raises, or the end of the trace. */
  function RaiseAt(ss: seq<Sample>, from: nat): (i: nat)
    requires from <= |ss|
    ensures i <= |ss|
    decreases |ss| - from
  {
    var e := EpisodeFrom(ss, from);
    if e.rise == |ss| || e.fall == |ss| then |ss|
    else
      var j := FirstBusy(ss, e.fall + 1, e.idle);
      if j < e.idle then j else if e.idle == |ss| then |ss| else RaiseAt(ss, e.idle + 1)
  }

  /** It raises at the first violation, and at the end of the trace there was none. */
  lemma {:induction false} RaisesAtFirstViolation(ss: seq<Sample>, from: nat)
    requires from <= |ss|
    ensures RaiseAt(ss, from) < |ss| ==> Violates(ss, from, RaiseAt(ss, from))
    ensures forall i :: 0 <= i < RaiseAt(ss, from) ==> !Violates(ss, from, i)
    decreases |ss| - from
  {
    hide BusyWrite, EpisodeFrom, FirstBusy, High, Idle;
    var e := EpisodeFrom(ss, from);
    if e.rise < |ss| && e.fall < |ss| && e.idle < |ss| {
      var next := e.idle + 1;
      RaisesAtFirstViolation(ss, next);
      forall i: nat ensures Violates(ss, next, i) ==> next < i { NoneBefore(ss, next, i); }
    }
  }

  // ---------------------------------------------------------------------
  // The monitor
  // ---------------------------------------------------------------------

  /** Waits out a TE2 pulse that was seen at `i - 1`; returns the index after the sample that ended it. */
  method AwaitDeassert(ss: seq<Sample>, i: nat) returns (next: nat, live: bool)
    requires i <= |ss|
    ensures live <==> FirstLow(ss, i) < |ss|
    ensures next == if live then FirstLow(ss, i) + 1 else |ss|
  {
    next := i;
    while next < |ss|
      invariant i <= next <= |ss| && FirstLow(ss, next) == FirstLow(ss, i)
    {
      var s := ss[next];
      next := next + 1;
      if s.te2 != Some(1) { return next, true; }
    }
    live := false;
  }

  /** Watches for writes until the FSM is idle. */
  method WatchUntilIdle(ss: seq<Sample>, i: nat) returns (next: nat, raised: bool)
    requires i <= |ss|
    ensures raised <==> FirstBusy(ss, i, FirstIdle(ss, i)) < FirstIdle(ss, i)
    ensures next == if raised then FirstBusy(ss, i, FirstIdle(ss, i)) + 1 else Min(FirstIdle(ss, i) + 1, |ss|)
  {
    next := i;
    raised := false;
    while next < |ss|
      invariant i <= next <= |ss| && FirstIdle(ss, next) == FirstIdle(ss, i)
      invariant FirstBusy(ss, next, FirstIdle(ss, i)) == FirstBusy(ss, i, FirstIdle(ss, i))
    {
      var s := ss[next];
      next := next + 1;
      if s.fsmState.None? { continue; }
      if s.fsmState.value == FSM_IDLE { return; }
      if s.rxWrite.None? { continue; }
      if s.rxWrite.value == 1 { return next, true; }
    }
  }

  /** `at` is the sample at which the monitor raised, or the end of the trace. */
  method Run(ss: seq<Sample>) returns (at: nat, raised: bool)
    ensures at == RaiseAt(ss, 0) && (raised <==> at < |ss|)
  {
    hide BusyWrite, RaiseAt, FirstLow, FirstIdle, FirstBusy, EpisodeFrom;
    var te2Prev: Bit, i := 0, 0;
    raised := false;
    ghost var from := 0;
    while i < |ss|
      invariant 0 <= from <= i <= |ss| && te2Prev == 0
      invariant forall j :: from <= j < i ==> !High(ss[j])
      invariant RaiseAt(ss, from) == RaiseAt(ss, 0)
    {
      var s := ss[i];
      if s.te2.None? {
        te2Prev := 0;
        i := i + 1;
        continue;
      }
      if s.te2.value == 1 && te2Prev == 0 {
        PulseAt(ss, from, i);
        var live;
        i, live := AwaitDeassert(ss, i + 1);
        if !live {
          return |ss|, false;
        }
        ghost var watched := i;
        var hit;
        i, hit := WatchUntilIdle(ss, i);
        if hit {
          return i - 1, true;
        }
        te2Prev := 0;
        if FirstIdle(ss, watched) == |ss| { NothingAtEnd(ss); }
        from := i;
        continue;
      }
      te2Prev := s.te2.value;
      i := i + 1;
    }
    at := |ss|;
    NoRise(ss, from);
  }

  /** The first high sample opens the next episode. */
  lemma PulseAt(ss: seq<Sample>, from: nat, i: nat)
    requires from <= i < |ss| && High(ss[i]) && forall j :: from <= j < i ==> !High(ss[j])
    ensures RaiseAt(ss, from) ==
            var fall := FirstLow(ss, i + 1);
            if fall == |ss| then |ss|
            else
              var idle := FirstIdle(ss, fall + 1);
              var hit := FirstBusy(ss, fall + 1, idle);
              if hit < idle then hit else if idle == |ss| then |ss| else RaiseAt(ss, idle + 1)
  {
    hide FirstLow, FirstIdle, FirstBusy, EpisodeFrom, High, Idle, BusyWrite;
    EpisodeAt(ss, from, i);
  }

  lemma EpisodeAt(ss: seq<Sample>, from: nat, i: nat)
    requires from <= i < |ss| && High(ss[i]) && forall j :: from <= j < i ==> !High(ss[j])
    ensures var f := FirstLow(ss, i + 1);
      EpisodeFrom(ss, from) == Episode(i, f, if f < |ss| then FirstIdle(ss, f + 1) else f)
  {
    hide FirstHigh, FirstLow, FirstIdle, High, Idle;
    assert FirstHigh(ss, from) == i;
  }

  lemma NoRise(ss: seq<Sample>, from: nat)
    requires from <= |ss| && forall j :: from <= j < |ss| ==> !High(ss[j])
    ensures RaiseAt(ss, from) == |ss|
  {
  }

  lemma NothingAtEnd(ss: seq<Sample>)
    ensures RaiseAt(ss, |ss|) == |ss|
  {
  }
}
