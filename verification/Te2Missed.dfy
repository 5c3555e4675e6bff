/**
  Which TE2 pulses the monitor sees, in terms of the trace alone: a pulse that
  ends just as an earlier watch is closed goes unseen, and no other does.
 */
module Te2Missed {
  import opened Wrappers
  import opened Te2Monitor

  /** TE2 is high from `rise` up to `fall`, and low before and after. */
  predicate Pulse(ss: seq<Sample>, rise: nat, fall: nat) {
    && rise < fall < |ss| && !High(ss[fall]) && (rise > 0 ==> !High(ss[rise - 1]))
    && forall j :: rise <= j < fall ==> High(ss[j])
  }

  /** Data is written at `i` while the FSM has not been idle since `fall`. */
  predicate WrittenAfter(ss: seq<Sample>, fall: nat, i: nat) {
    fall < i < |ss| && BusyWrite(ss[i]) && forall j :: fall < j < i ==> !Idle(ss[j])
  }

  /** A watch of a monitor that looks out for TE2 from `from` on is closed by the idle sample `x`. */
  ghost predicate ClosesWatch(ss: seq<Sample>, from: nat, x: int)
    requires from <= |ss|
  {
    0 <= x < |ss| && exists e :: IsEpisode(ss, from, e) && e.idle == x
  }

  lemma {:induction false} WatchClosedByIdle(ss: seq<Sample>, from: nat, e: Episode)
    requires from <= |ss| && IsEpisode(ss, from, e)
    ensures from < e.idle && (e.idle < |ss| ==> Idle(ss[e.idle]))
    decreases |ss| - from
  {
    var first := EpisodeFrom(ss, from);
    if e != first { WatchClosedByIdle(ss, first.idle + 1, e); }
  }

  /** The monitor raises inside its first watch, at the first busy write there, or goes on behind it. */
  lemma RaiseStep(ss: seq<Sample>, from: nat)
    requires from <= |ss|
    ensures var e, at := EpisodeFrom(ss, from), RaiseAt(ss, from);
      && (e.rise == |ss| || e.fall == |ss| ==> at == |ss|)
      && (e.rise < |ss| && e.fall < |ss| ==>
            && (e.fall < at < e.idle || at == if e.idle < |ss| then RaiseAt(ss, e.idle + 1) else |ss|)
            && (e.idle == |ss| ==> e.fall < at)
            && forall j :: e.fall < j < e.idle && BusyWrite(ss[j]) ==> at <= j)
  {
    hide High, Idle, BusyWrite, EpisodeFrom;
  }

  /** The part of a pulse that a monitor looking out from `from` on can see. */
  predicate Visible(ss: seq<Sample>, from: nat, rise: nat, fall: nat) {
    && from <= rise < fall < |ss| && !High(ss[fall]) && (rise > from ==> !High(ss[rise - 1]))
    && forall j :: rise <= j < fall ==> High(ss[j])
  }

  lemma CaughtAtOnce(ss: seq<Sample>, from: nat, rise: nat, fall: nat, i: nat)
    requires Visible(ss, from, rise, fall) && WrittenAfter(ss, fall, i) && EpisodeFrom(ss, from).rise == rise
    ensures RaiseAt(ss, from) <= i
  {
    hide High, Idle, BusyWrite, FirstHigh, RaiseAt;
    RaiseStep(ss, from);
    BusyIsNotIdle(ss[i]);
    assert FirstLow(ss, rise + 1) == fall;
    assert FirstIdle(ss, fall + 1) > i;
  }

  lemma BusyIsNotIdle(s: Sample)
    ensures BusyWrite(s) ==> !Idle(s)
  {
  }

  /** Unless a watch is closed at the last high or the first low sample of the pulse, the write is noticed. */
  lemma {:induction false} Caught(ss: seq<Sample>, from: nat, rise: nat, fall: nat, i: nat)
    requires Visible(ss, from, rise, fall) && WrittenAfter(ss, fall, i)
    requires !ClosesWatch(ss, from, fall - 1) && !ClosesWatch(ss, from, fall)
    ensures RaiseAt(ss, from) <= i
    decreases |ss| - from
  {
    hide *;
    Bounds(ss, from, rise, fall, i);
    var e := EpisodeFrom(ss, from);
    FirstSeen(ss, from, rise, fall);
    FirstCloses(ss, from);
    if e.rise == rise {
      CaughtAtOnce(ss, from, rise, fall, i);
    } else {
      assert e.idle != fall - 1 && e.idle != fall;
      if e.idle < fall {
        var next := e.idle + 1;
        RaiseStep(ss, from);
        LaterWatches(ss, from, fall - 1);
        LaterWatches(ss, from, fall);
        StillVisible(ss, from, rise, fall, next);
        Caught(ss, next, if next <= rise then rise else next, fall, i);
      } else {
        WatchedThrough(ss, from, fall, i);
      }
    }
  }

  lemma FirstCloses(ss: seq<Sample>, from: nat)
    requires from <= |ss|
    ensures var e := EpisodeFrom(ss, from); e.rise < |ss| && e.idle < |ss| ==> ClosesWatch(ss, from, e.idle)
  {
    hide EpisodeFrom;
    assert EpisodeFrom(ss, from).rise < |ss| ==> IsEpisode(ss, from, EpisodeFrom(ss, from));
  }

  lemma Bounds(ss: seq<Sample>, from: nat, rise: nat, fall: nat, i: nat)
    requires Visible(ss, from, rise, fall) && WrittenAfter(ss, fall, i)
    ensures from <= rise < fall < i < |ss|
  {
  }

  lemma StillVisible(ss: seq<Sample>, from: nat, rise: nat, fall: nat, next: nat)
    requires Visible(ss, from, rise, fall) && from < next < fall
    ensures Visible(ss, next, if next <= rise then rise else next, fall)
  {
    hide High;
  }

  /** The episode before a visible pulse has fallen before the pulse rises. */
  lemma FirstSeen(ss: seq<Sample>, from: nat, rise: nat, fall: nat)
    requires Visible(ss, from, rise, fall)
    ensures var e := EpisodeFrom(ss, from); e.rise <= rise && (e.rise < rise ==> e.fall < rise)
  {
    var e := EpisodeFrom(ss, from);
    assert High(ss[rise]);
    assert FirstHigh(ss, from) <= rise;
    PulseBefore(ss, from, rise);
  }

  lemma PulseBefore(ss: seq<Sample>, from: nat, rise: nat)
    requires from <= rise < |ss| && (rise > from ==> !High(ss[rise - 1]))
    ensures var e := EpisodeFrom(ss, from); e.rise < rise ==> e.fall < rise
  {
  }

  lemma LaterWatches(ss: seq<Sample>, from: nat, x: int)
    requires from <= |ss| && EpisodeFrom(ss, from).rise < |ss| && EpisodeFrom(ss, from).idle < |ss|
    ensures ClosesWatch(ss, EpisodeFrom(ss, from).idle + 1, x) ==> ClosesWatch(ss, from, x)
  {
    hide EpisodeFrom;
    var next := EpisodeFrom(ss, from).idle + 1;
    if ClosesWatch(ss, next, x) {
      var e :| IsEpisode(ss, next, e) && e.idle == x;
      assert IsEpisode(ss, from, e);
    }
  }

  /** A watch opened before `fall` that is still open at `i` sees the write there. */
  lemma WatchedThrough(ss: seq<Sample>, from: nat, fall: nat, i: nat)
    requires from <= |ss| && WrittenAfter(ss, fall, i)
    requires var e := EpisodeFrom(ss, from); e.rise < |ss| && e.fall < fall < e.idle
    ensures RaiseAt(ss, from) <= i
  {
    hide High, FirstHigh, FirstLow, RaiseAt;
    var e := EpisodeFrom(ss, from);
    RaiseStep(ss, from);
    BusyIsNotIdle(ss[i]);
    assert e.idle < |ss| ==> Idle(ss[e.idle]);
    assert e.idle > i;
  }

  // ---------------------------------------------------------------------
  // The exception is exact
  // ---------------------------------------------------------------------

  /** Without TE2 in between, a monitor that looks out from just behind the pulse raises only later. */
  lemma NothingUntil(ss: seq<Sample>, from: nat, i: nat)
    requires from <= |ss| && i < |ss| && forall j :: from <= j < i ==> !High(ss[j])
    ensures RaiseAt(ss, from) > i
  {
    hide High, Idle, BusyWrite, FirstLow, FirstIdle, RaiseAt;
    var e := EpisodeFrom(ss, from);
    RaiseStep(ss, from);
    assert e.rise >= i;
    if e.rise < |ss| && e.fall < |ss| && e.idle < |ss| { RaisesLater(ss, e.idle + 1); }
  }

  lemma {:induction false} RaisesLater(ss: seq<Sample>, from: nat)
    requires from <= |ss|
    ensures RaiseAt(ss, from) >= from
    decreases |ss| - from
  {
    hide EpisodeFrom, BusyWrite, RaiseAt;
    var e := EpisodeFrom(ss, from);
    RaiseStep(ss, from);
    if e.rise < |ss| && e.fall < |ss| && e.idle < |ss| { RaisesLater(ss, e.idle + 1); }
  }

  /** A watch closed at the end of the pulse: unless the monitor has raised before, it does not see the write. */
  lemma {:induction false} Missed(ss: seq<Sample>, from: nat, fall: nat, i: nat, x: nat)
    requires from <= |ss| && fall < i < |ss| && (x == fall - 1 || x == fall) && ClosesWatch(ss, from, x)
    requires forall j :: fall <= j < i ==> !High(ss[j])
    requires RaiseAt(ss, from) >= fall
    ensures RaiseAt(ss, from) > i
    decreases |ss| - from
  {
    hide High, Idle, BusyWrite, EpisodeFrom, RaiseAt;
    RaiseStep(ss, from);
    var e :| IsEpisode(ss, from, e) && e.idle == x;
    var first := EpisodeFrom(ss, from);
    if e == first {
      NothingUntil(ss, x + 1, i);
    } else {
      WatchClosedByIdle(ss, first.idle + 1, e);
      assert ClosesWatch(ss, first.idle + 1, x);
      Missed(ss, first.idle + 1, fall, i, x);
    }
  }

  /**
    For every trace and every pulse followed by a busy write with no idle sample
    in between, where nothing has been raised before the pulse ends and TE2 does
    not rise again first: the write or an earlier one is raised exactly when no
    earlier watch is closed by the last high or the first low sample of the pulse.
   */
  lemma PulseCaughtIff(ss: seq<Sample>, rise: nat, fall: nat, i: nat)
    requires Pulse(ss, rise, fall) && WrittenAfter(ss, fall, i)
    requires RaiseAt(ss, 0) >= fall && forall j :: fall < j < i ==> !High(ss[j])
    ensures RaiseAt(ss, 0) <= i <==> !ClosesWatch(ss, 0, fall - 1) && !ClosesWatch(ss, 0, fall)
  {
    hide RaiseAt, High, BusyWrite, Idle, IsEpisode;
    if ClosesWatch(ss, 0, fall - 1) {
      Missed(ss, 0, fall, i, fall - 1);
    } else if ClosesWatch(ss, 0, fall) {
      Missed(ss, 0, fall, i, fall);
    } else {
      Caught(ss, 0, rise, fall, i);
    }
  }

  /** Where the FSM is not idle as the pulse ends, the write is always noticed, however TE2 goes on. */
  lemma PulseCaughtWhenBusy(ss: seq<Sample>, rise: nat, fall: nat, i: nat)
    requires Pulse(ss, rise, fall) && WrittenAfter(ss, fall, i)
    requires !Idle(ss[fall - 1]) && !Idle(ss[fall])
    ensures RaiseAt(ss, 0) <= i
  {
    hide RaiseAt, High, BusyWrite, Idle, IsEpisode;
    forall e | IsEpisode(ss, 0, e) ensures e.idle != fall - 1 && e.idle != fall {
      WatchClosedByIdle(ss, 0, e);
    }
    Caught(ss, 0, rise, fall, i);
  }

  /** The shortest trace with a missed pulse: a second pulse while the first watch is closed. */
  lemma PulseMissed()
    ensures var ss := [Sample(Some(1), Some(1), Some(0)), Sample(Some(0), Some(1), Some(0)),
                       Sample(Some(1), Some(0), Some(0)), Sample(Some(0), Some(1), Some(0)),
                       Sample(Some(0), Some(1), Some(1))];
      Pulse(ss, 2, 3) && WrittenAfter(ss, 3, 4) && RaiseAt(ss, 0) == |ss|
  {
    var ss := [Sample(Some(1), Some(1), Some(0)), Sample(Some(0), Some(1), Some(0)),
               Sample(Some(1), Some(0), Some(0)), Sample(Some(0), Some(1), Some(0)),
               Sample(Some(0), Some(1), Some(1))];
    assert EpisodeFrom(ss, 0) == Episode(0, 1, 2);
    assert FirstBusy(ss, 2, 2) == 2;
    NoRise(ss, 3);
  }
}
