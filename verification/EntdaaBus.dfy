/**
  ENTDAA on the bus: what the controller does around the rounds, who may
  interrupt it, and whether it gives the bus back.
 */
module EntdaaBus {
  import opened Wrappers
  import opened ControllerModel
  import opened ControllerRetry
  import E = Entdaa

  /** The rounds came to an end, or an IBI won a 7E/W header among them. */
  datatype RoundsEnd = Through(s: Ctl, daa: E.Daa) | Lost(s: Ctl, ts: seq<E.Target>)

  /** The header of a round: 7E/R, which is not arbitrable, or 7E/W when `te4` injects the wrong direction. */
  function RoundHeader(e: Env, s: Ctl, te4: bool): HeaderOutcome {
    AddrHeader(e, Emit(s, SendStart), RSVD_ADDR, !te4)
  }

  function RoundsFrom(e: Env, s: Ctl, ts: seq<E.Target>, addrs: seq<Address>, k: nat, te3: bool, te4: bool,
                      stopAfter: Option<nat>, results: seq<E.Entry>): RoundsEnd
    requires k <= |addrs|
    decreases |addrs| - k
  {
    if k == |addrs| || (stopAfter.Some? && k >= stopAfter.value) then Through(s, E.Daa(results, ts))
    else
      match RoundHeader(e, s, te4)
      case IbiEvent(s1) => Lost(s1, ts)
      case Answered(s1, _) =>
        match E.OneRound(ts, addrs[k], te3, te4)
        case NoMore(ts1) => Through(s1, E.Daa(results + [E.Entry(None, None, None, addrs[k], false)], ts1))
        case Assigned(ts1, entry) =>
          RoundsFrom(e, Emit(s1, SendLegacy(E.AddressByte(addrs[k], te3))), ts1, addrs, k + 1, te3, te4, stopAfter,
                     results + [entry])
  }

  /** `Raised` is the exception of a lost header, which nothing in the procedure catches. */
  datatype Run = Ended(s: Ctl, daa: E.Daa) | Raised(s: Ctl, ts: seq<E.Target>)

  function Opening(e: Env, s: Ctl): HeaderOutcome {
    AddrHeader(e, Emit(Emit(s, TakeBus), SendStart), RSVD_ADDR, false)
  }

  function Assign(e: Env, s: Ctl, ts: seq<E.Target>, addrs: seq<Address>, te3: bool, te4: bool,
                  stopAfter: Option<nat>): Run
  {
    match Opening(e, s)
    case IbiEvent(s1) => Raised(s1, ts)
    case Answered(s1, _) =>
      match RoundsFrom(e, Emit(s1, SendTbit(E.ENTDAA_CODE, false)), ts, addrs, 0, te3, te4, stopAfter, [])
      case Lost(s2, ts1) => Raised(s2, ts1)
      case Through(s2, d) => Ended(Emit(Emit(s2, SendStop), GiveBus), d.(ts := E.AfterStop(d.ts)))
  }

  // ---------------------------------------------------------------------
  // Assignment
  // ---------------------------------------------------------------------

  lemma {:induction false} RoundsAgree(e: Env, s: Ctl, ts: seq<E.Target>, addrs: seq<Address>, k: nat, te3: bool,
                                       te4: bool, stopAfter: Option<nat>, results: seq<E.Entry>)
    requires k <= |addrs|
    ensures var r := RoundsFrom(e, s, ts, addrs, k, te3, te4, stopAfter, results);
      r.Through? ==> r.daa == E.Rounds(ts, addrs, k, te3, te4, stopAfter, results)
    decreases |addrs| - k
  {
    hide RoundHeader, E.OneRound, E.AddressByte;
    if k < |addrs| && !(stopAfter.Some? && k >= stopAfter.value) {
      var h := RoundHeader(e, s, te4);
      if h.Answered? {
        var r := E.OneRound(ts, addrs[k], te3, te4);
        if r.Assigned? {
          RoundsAgree(e, Emit(h.s, SendLegacy(E.AddressByte(addrs[k], te3))), r.ts, addrs, k + 1, te3, te4, stopAfter,
                      results + [r.entry]);
        }
      }
    }
  }

  /** A call that completes has performed the procedure. */
  lemma CompletedIsProcedure(e: Env, s: Ctl, ts: seq<E.Target>, addrs: seq<Address>, te3: bool, te4: bool,
                             stopAfter: Option<nat>)
    ensures var r := Assign(e, s, ts, addrs, te3, te4, stopAfter);
      r.Ended? ==> r.daa == E.Procedure(ts, addrs, te3, te4, stopAfter)
  {
    hide Opening, RoundsFrom, E.Rounds, E.AfterStop;
    var h := Opening(e, s);
    RoundsAgree(e, Emit(h.s, SendTbit(E.ENTDAA_CODE, false)), ts, addrs, 0, te3, te4, stopAfter, []);
  }

  // ---------------------------------------------------------------------
  // The bus
  // ---------------------------------------------------------------------

  /** What the rounds do to the counts: headers of their own, or one IBI. */
  lemma {:induction false} RoundsTally(e: Env, s: Ctl, ts: seq<E.Target>, addrs: seq<Address>, k: nat, te3: bool,
                                       te4: bool, stopAfter: Option<nat>, results: seq<E.Entry>)
    requires k <= |addrs|
    ensures var r, t := RoundsFrom(e, s, ts, addrs, k, te3, te4, stopAfter, results), TallyOf(s.trace);
      var u := TallyOf(r.s.trace);
      && (r.Through? ==> u == t.(segments := u.segments))
      && (r.Lost? ==> te4 && u == t.(ibis := t.ibis + 1, chained := u.chained))
    decreases |addrs| - k
  {
    hide RoundHeader, E.OneRound, E.AddressByte, TallyOf;
    if k < |addrs| && !(stopAfter.Some? && k >= stopAfter.value) {
      var h := RoundHeader(e, s, te4);
      RoundHeaderTally(e, s, te4);
      if h.Answered? {
        var r := E.OneRound(ts, addrs[k], te3, te4);
        if r.Assigned? {
          var op := SendLegacy(E.AddressByte(addrs[k], te3));
          TallyEmit(h.s.trace, op);
          RoundsTally(e, Emit(h.s, op), r.ts, addrs, k + 1, te3, te4, stopAfter, results + [r.entry]);
        }
      }
    }
  }

  lemma RoundHeaderTally(e: Env, s: Ctl, te4: bool)
    ensures var h, t := RoundHeader(e, s, te4), TallyOf(s.trace);
      var u := TallyOf(h.s.trace);
      && (h.Answered? ==> u == t.(segments := if te4 then t.segments else t.segments + 1))
      && (h.IbiEvent? ==> te4 && u == t.(ibis := t.ibis + 1, chained := u.chained))
  {
    hide TallyOf, SendByteArb, HandleIbi;
    var s1 := Emit(s, SendStart);
    TallyEmit(s.trace, SendStart);
    TallyEmit(s1.trace, Header(RSVD_ADDR, true, false));
    if te4 {
      WonTally(e, s1);
      if RoundHeader(e, s, te4).IbiEvent? { ArbLost(e, s1); }
    }
  }

  /**
    A call that completes takes the bus once and gives it back once, at the end,
    behind its STOP.  A call that raises has handled exactly one IBI and has not
    given the bus back.
   */
  lemma GivesBackIffCompleted(e: Env, s: Ctl, ts: seq<E.Target>, addrs: seq<Address>, te3: bool, te4: bool,
                              stopAfter: Option<nat>)
    ensures var r, t := Assign(e, s, ts, addrs, te3, te4, stopAfter), TallyOf(s.trace);
      var u := TallyOf(r.s.trace);
      if r.Ended?
      then u == t.(takes := t.takes + 1, gives := t.gives + 1, segments := u.segments) && EndsFree(r.s.trace)
      else u == t.(takes := t.takes + 1, ibis := t.ibis + 1, chained := u.chained)
  {
    hide TallyOf, RoundsFrom, Opening, EndsFree;
    OpeningTally(e, s);
    var h := Opening(e, s);
    if h.Answered? {
      var s2 := Emit(h.s, SendTbit(E.ENTDAA_CODE, false));
      TallyEmit(h.s.trace, SendTbit(E.ENTDAA_CODE, false));
      RoundsTally(e, s2, ts, addrs, 0, te3, te4, stopAfter, []);
      var r := RoundsFrom(e, s2, ts, addrs, 0, te3, te4, stopAfter, []);
      if r.Through? {
        TallyEmit(r.s.trace, SendStop);
        TallyEmit(Emit(r.s, SendStop).trace, GiveBus);
        EndsInRelease(r.s);
      }
    }
  }

  predicate EndsFree(ops: seq<Op>) {
    |ops| >= 2 && ops[|ops| - 2..] == [SendStop, GiveBus]
  }

  lemma EndsInRelease(s: Ctl)
    ensures EndsFree(Emit(Emit(s, SendStop), GiveBus).trace)
  {
  }

  lemma OpeningTally(e: Env, s: Ctl)
    ensures var h, t := Opening(e, s), TallyOf(s.trace);
      var u := TallyOf(h.s.trace);
      && (h.Answered? ==> u == t.(takes := t.takes + 1))
      && (h.IbiEvent? ==> u == t.(takes := t.takes + 1, ibis := t.ibis + 1, chained := u.chained))
  {
    hide TallyOf, AddrHeader;
    TallyEmit(s.trace, TakeBus);
    var s1 := Emit(Emit(s, TakeBus), SendStart);
    TallyEmit(Emit(s, TakeBus).trace, SendStart);
    WonTally(e, s1);
    if Opening(e, s).IbiEvent? { ArbLost(e, s1); }
  }

  /** Without the wrong direction injected, the call raises exactly when the opening header is lost. */
  lemma RaisesIffOpeningLost(e: Env, s: Ctl, ts: seq<E.Target>, addrs: seq<Address>, te3: bool, stopAfter: Option<nat>)
    ensures Assign(e, s, ts, addrs, te3, false, stopAfter).Raised? <==>
            !SendByteArb(e.contenders(|s.trace| + 2), RSVD_WRITE, e.readback).ok
  {
    hide TallyOf, RoundsFrom, SendByteArb, HandleIbi;
    var h := Opening(e, s);
    if h.Answered? {
      RoundsTally(e, Emit(h.s, SendTbit(E.ENTDAA_CODE, false)), ts, addrs, 0, te3, false, stopAfter, []);
    }
  }

  /**
    In the caller's terms: with readback, and contenders that drive and back
    off, it raises exactly when one of them sends less than 7E/W; without
    readback it never does.
   */
  lemma RaisesIffContended(e: Env, s: Ctl, ts: seq<E.Target>, addrs: seq<Address>, te3: bool, stopAfter: Option<nat>)
    requires Contend(e.contenders(|s.trace| + 2))
    ensures Assign(e, s, ts, addrs, te3, false, stopAfter).Raised? <==>
            e.readback && Below(e.contenders(|s.trace| + 2), RSVD_WRITE)
  {
    hide Assign, SendByteArb, Contend, Below;
    RaisesIffOpeningLost(e, s, ts, addrs, te3, stopAfter);
    LostIffBelow(e.contenders(|s.trace| + 2), RSVD_WRITE);
    BlindAlwaysWins(e.contenders(|s.trace| + 2), RSVD_WRITE);
  }
}
