/**
  The per-cycle greedy matching loop, and what it means: a plain list matches
  exactly when its predicates hold at strictly increasing cycles.
 */
module SequenceMatch {
  import opened Wrappers
  import opened SequenceModel

  /** `Running`: the simulation ended before the match did. */
  datatype Status = Matched | Failed | TimedOut | Running

  datatype Result = Result(status: Status, cycle: nat, count: nat)

  predicate InTime(cycle: nat, cycleCnt: int) {
    cycleCnt == 0 || cycle < cycleCnt
  }

  /** The loop from `cycle` on, over a simulation of `horizon` cycles. */
  function MatchFrom(start: Cursor, c: Cursor, cycle: nat, count: nat, cycleCnt: int, horizon: nat): Result
    requires cycle <= horizon
    decreases horizon - cycle
  {
    if !InTime(cycle, cycleCnt) then Result(TimedOut, cycle, count)
    else if cycle == horizon then Result(Running, cycle, count)
    else if IsDone(c) then Result(Matched, cycle, count)
    else
      match Tick(c, cycle)
      case (Pass, d) => MatchFrom(start, d, cycle + 1, count + 1, cycleCnt, horizon)
      case (Wait, d) => MatchFrom(start, d, cycle + 1, count, cycleCnt, horizon)
      case (Restart, d) => MatchFrom(start, Again(start, d), cycle + 1, count, cycleCnt, horizon)
      case (Fail, _) => Result(Failed, cycle, count)
  }

  function Match(c: Cursor, cycleCnt: int, horizon: nat): Result {
    MatchFrom(c, c, 0, 0, cycleCnt, horizon)
  }

  /** `raised` is the failed match reported as an exception. */
  method RunMatch(sequence: Cursor, cycleCnt: int, noexcept: bool, horizon: nat) returns (m: Result, raised: bool)
    ensures m == Match(sequence, cycleCnt, horizon)
    ensures raised == (m.status == Failed && !noexcept)
  {
    var it, open := sequence, false;
    var cycle, matchCount := 0, 0;
    raised := false;
    while cycleCnt == 0 || cycle < cycleCnt
      invariant 0 <= cycle <= horizon && (open ==> !IsDone(it))
      invariant MatchFrom(sequence, it, cycle, matchCount, cycleCnt, horizon) == Match(sequence, cycleCnt, horizon)
      decreases horizon - cycle
    {
      if cycle == horizon {
        return Result(Running, cycle, matchCount), false;
      }
      if !open {
        if IsDone(it) {
          return Result(Matched, cycle, matchCount), false;
        }
        open := true;
      }
      var (v, next) := Tick(it, cycle);
      match v {
        case Pass =>
          it, open := next, false;
          matchCount := matchCount + 1;
        case Wait =>
          it, open := next, false;
        case Fail =>
          return Result(Failed, cycle, matchCount), !noexcept;
        case Restart =>
          it, open := Again(sequence, next), false;
      }
      cycle := cycle + 1;
    }
    m := Result(TimedOut, cycle, matchCount);
  }

  // ---------------------------------------------------------------------
  // The iterators as objects
  // ---------------------------------------------------------------------

  /** The iterator of `s1 | s2`: a predicate that moves one of its branches each time it passes. */
  class OrSeqIter {
    var p1: Cursor
    var p2: Cursor
    var next: bool

    ghost function State(): Cursor reads this { OrCur(p1, p2, next) }

    constructor (i1: Cursor, i2: Cursor)
      ensures State() == Or(i1, i2)
    {
      p1, p2, next := i1, i2, true;
    }

    method Call(t: nat) returns (v: Verdict)
      requires next
      modifies this
      ensures (v, State()) == Tick(old(State()), t)
    {
      var v1 := Pass;
      if !IsDone(p1) {
        var r := Tick(p1, t);
        v1, p1 := r.0, r.1;
      }
      if v1 == Fail || v1 == Restart { return v1; }
      v := v1;
      if v1 != Pass {
        v := Pass;
        if !IsDone(p2) {
          var r := Tick(p2, t);
          v, p2 := r.0, r.1;
        }
      }
      if v == Pass && (IsDone(p1) || IsDone(p2)) {
        next := false;
      }
    }
  }

  /** The iterator of `s1 & s2` for two plain lists. */
  class AndSeqIter {
    var pairs: seq<(Pred, Pred)>
    var next: bool

    ghost function State(): Cursor reads this { AndCur(pairs, next) }

    constructor (s1: seq<Pred>, s2: seq<Pred>)
      ensures State() == And(s1, s2)
    {
      pairs, next := Zip(s1, s2), true;
    }

    method Call(t: nat) returns (v: Verdict)
      requires next
      modifies this
      ensures (v, State()) == Tick(old(State()), t)
    {
      v := Pass;
      if pairs != [] {
        v := pairs[0].0(t);
        if v == Pass {
          v := pairs[0].1(t);
        }
        if v == Pass {
          pairs := pairs[1..];
        }
      }
      if pairs == [] {
        next := false;
      }
    }
  }

  // ---------------------------------------------------------------------
  // Plain lists
  // ---------------------------------------------------------------------

  ghost predicate NeverRaises(p: Pred) {
    forall t: nat :: p(t) == Pass || p(t) == Wait
  }

  ghost predicate Plain(ps: seq<Pred>) {
    forall i :: 0 <= i < |ps| ==> NeverRaises(ps[i])
  }

  /** The predicates hold one after the other, at increasing cycles from `from` on. */
  predicate Occurs(ps: seq<Pred>, ts: seq<nat>, from: nat) {
    && |ts| == |ps|
    && (forall i :: 0 <= i < |ts| ==> from <= ts[i] && ps[i](ts[i]) == Pass)
    && (forall i, j :: 0 <= i < j < |ts| ==> ts[i] < ts[j])
  }

  /** The first cycle at which everything has happened. */
  function End(ts: seq<nat>, from: nat): nat {
    if ts == [] then from else ts[|ts| - 1] + 1
  }

  predicate Seen(cycle: nat, cycleCnt: int, horizon: nat) {
    InTime(cycle, cycleCnt) && cycle < horizon
  }

  /** A matched list has occurred, in time, and every predicate was counted once. */
  lemma {:induction false} Sound(start: Cursor, ps: seq<Pred>, cycle: nat, count: nat, cycleCnt: int, horizon: nat)
    returns (ts: seq<nat>)
    requires cycle <= horizon && Plain(ps)
    requires MatchFrom(start, ListCur(ps), cycle, count, cycleCnt, horizon).status == Matched
    ensures var m := MatchFrom(start, ListCur(ps), cycle, count, cycleCnt, horizon);
      && Occurs(ps, ts, cycle) && Seen(End(ts, cycle), cycleCnt, horizon)
      && m.count == count + |ps| && m.cycle == End(ts, cycle)
    decreases horizon - cycle
  {
    if ps == [] {
      ts := [];
    } else {
      assert NeverRaises(ps[0]);
      if ps[0](cycle) == Pass {
        ts := Sound(start, ps[1..], cycle + 1, count + 1, cycleCnt, horizon);
        ts := [cycle] + ts;
      } else {
        ts := Sound(start, ps, cycle + 1, count, cycleCnt, horizon);
      }
    }
  }

  /** Whatever can occur in time is found, no later than it occurs. */
  lemma {:induction false} Complete(start: Cursor, ps: seq<Pred>, ts: seq<nat>, cycle: nat, count: nat, cycleCnt: int,
                                    horizon: nat)
    requires cycle <= horizon && Plain(ps) && Occurs(ps, ts, cycle) && Seen(End(ts, cycle), cycleCnt, horizon)
    ensures var m := MatchFrom(start, ListCur(ps), cycle, count, cycleCnt, horizon);
      m.status == Matched && m.cycle <= End(ts, cycle)
    decreases horizon - cycle
  {
    if ps != [] {
      assert NeverRaises(ps[0]) && cycle <= ts[0] <= ts[|ts| - 1];
      if ps[0](cycle) == Pass {
        Later(ts);
        Complete(start, ps[1..], ts[1..], cycle + 1, count + 1, cycleCnt, horizon);
      } else {
        assert ts[0] != cycle;
        assert forall i :: 0 <= i < |ts| ==> ts[0] <= ts[i];
        Complete(start, ps, ts, cycle + 1, count, cycleCnt, horizon);
      }
    }
  }

  lemma Later(ts: seq<nat>)
    requires ts != [] && forall i, j :: 0 <= i < j < |ts| ==> ts[i] < ts[j]
    ensures forall i :: 0 <= i < |ts[1..]| ==> ts[0] < ts[1..][i]
  {
  }

  /**
    Greedy matching is sound and complete: the list is reported matched if and
    only if it occurs at increasing cycles and the cycle after the last one is
    still in time; the count is then its length and no occurrence ends earlier.
   */
  lemma GreedyIsExact(ps: seq<Pred>, cycleCnt: int, horizon: nat)
    requires Plain(ps)
    ensures var m := Match(ListCur(ps), cycleCnt, horizon);
      && (m.status == Matched <==> exists ts :: Occurs(ps, ts, 0) && Seen(End(ts, 0), cycleCnt, horizon))
      && (m.status == Matched ==> m.count == |ps| && forall ts :: Occurs(ps, ts, 0) ==> m.cycle <= End(ts, 0))
  {
    var m := Match(ListCur(ps), cycleCnt, horizon);
    hide MatchFrom;
    if m.status == Matched {
      var ts := Sound(ListCur(ps), ps, 0, 0, cycleCnt, horizon);
      forall us | Occurs(ps, us, 0) ensures m.cycle <= End(us, 0) {
        if End(us, 0) < m.cycle { Complete(ListCur(ps), ps, us, 0, 0, cycleCnt, horizon); }
      }
    }
    forall ts | Occurs(ps, ts, 0) && Seen(End(ts, 0), cycleCnt, horizon) ensures m.status == Matched {
      Complete(ListCur(ps), ps, ts, 0, 0, cycleCnt, horizon);
    }
  }
}
