/** What `|` means for the sequences it combines. */
module SequenceCombinators {
  import opened Wrappers
  import opened SequenceModel
  import opened SequenceMatch

  /** Called at every cycle from `t`, `n` times or until it is used up. */
  function Ticks(c: Cursor, t: nat, n: nat): Cursor
    decreases n
  {
    if n == 0 || IsDone(c) then c else Ticks(Tick(c, t).1, t + 1, n - 1)
  }

  /** No call to the iterator ever raises, at this cycle or later. */
  predicate Quiet(c: Cursor, t: nat, n: nat)
    decreases n
  {
    n == 0 || IsDone(c) ||
    (Tick(c, t).0 in {Pass, Wait} && Quiet(Tick(c, t).1, t + 1, n - 1))
  }

  lemma OrTick(c1: Cursor, c2: Cursor, t: nat)
    ensures var (v1, d1) := TickOrPass(c1, t);
      var (v2, d2) := TickOrPass(c2, t);
      Tick(OrCur(c1, c2, true), t) ==
      if v1 == Pass then (Pass, OrCur(d1, c2, !IsDone(d1) && !IsDone(c2)))
      else if v1 != Wait then (v1, OrCur(d1, c2, true))
      else (v2, OrCur(d1, d2, v2 != Pass || (!IsDone(d1) && !IsDone(d2))))
  {
  }

  lemma ListTick(ps: seq<Pred>, t: nat)
    requires ps != []
    ensures TickOrPass(ListCur(ps), t) == (ps[0](t), if ps[0](t) == Pass then ListCur(ps[1..]) else ListCur(ps))
    ensures IsDone(ListCur(ps[1..])) <==> ps[1..] == []
  {
  }

  /** A call that does not pass leaves an iterator open. */
  lemma OpenUnlessPassed(c: Cursor, t: nat)
    requires !IsDone(c) && Tick(c, t).0 != Pass
    ensures !IsDone(Tick(c, t).1)
  {
    match c
    case CatCur(parts) =>
      var k := FirstOpen(parts);
      OpenUnlessPassed(parts[k], t);
      var d := Tick(c, t).1;
      assert d.parts[0] == Tick(parts[k], t).1;
    case OrCur(c1, c2, _) =>
      assert Tick(c, t).1.live;
    case _ =>
  }

  /** `s1 | s2` is used up no later than a nonempty `s1` alone. */
  lemma {:induction false} OrNoLaterThanFirst(c1: Cursor, c2: Cursor, t: nat, n: nat)
    requires !IsDone(c1) && Quiet(OrCur(c1, c2, true), t, n)
    requires IsDone(Ticks(c1, t, n))
    ensures IsDone(Ticks(OrCur(c1, c2, true), t, n))
    decreases n
  {
    if n > 0 {
      var (v1, d1) := Tick(c1, t);
      var (v, d) := Tick(OrCur(c1, c2, true), t);
      OrTick(c1, c2, t);
      assert d.c1 == d1;
      if d.live {
        if v1 != Pass { OpenUnlessPassed(c1, t); }
        OrNoLaterThanFirst(d1, d.c2, t + 1, n - 1);
      }
    }
  }

  /** The matching loop finds the first cycle by which the iterator is used up, if that is in time. */
  lemma {:induction false} MatchIsTicks(start: Cursor, c: Cursor, cycle: nat, count: nat, cycleCnt: int, horizon: nat)
    requires cycle <= horizon && Quiet(c, cycle, horizon - cycle)
    ensures var m := MatchFrom(start, c, cycle, count, cycleCnt, horizon);
      && (m.status == Matched ==>
            cycle <= m.cycle && Seen(m.cycle, cycleCnt, horizon) && IsDone(Ticks(c, cycle, m.cycle - cycle)))
      && (forall n: nat :: IsDone(Ticks(c, cycle, n)) && Seen(cycle + n, cycleCnt, horizon) ==>
            m.status == Matched && m.cycle <= cycle + n)
    decreases horizon - cycle
  {
    hide Tick;
    if Seen(cycle, cycleCnt, horizon) && !IsDone(c) {
      var (v, d) := Tick(c, cycle);
      var count1 := if v == Pass then count + 1 else count;
      MatchIsTicks(start, d, cycle + 1, count1, cycleCnt, horizon);
      var m := MatchFrom(start, d, cycle + 1, count1, cycleCnt, horizon);
      assert MatchFrom(start, c, cycle, count, cycleCnt, horizon) == m;
      forall n: nat | IsDone(Ticks(c, cycle, n)) && Seen(cycle + n, cycleCnt, horizon)
        ensures m.status == Matched && m.cycle <= cycle + n
      {
        assert n > 0 && Ticks(c, cycle, n) == Ticks(d, cycle + 1, n - 1);
        assert cycle + n == (cycle + 1) + (n - 1);
      }
    }
  }

  /** If `s1` alone is matched, `s1 | s2` is matched too, and not later. */
  lemma OrMatchesNoLater(c1: Cursor, c2: Cursor, cycleCnt: int, horizon: nat)
    requires !IsDone(c1) && Quiet(c1, 0, horizon) && Quiet(Or(c1, c2), 0, horizon)
    requires Match(c1, cycleCnt, horizon).status == Matched
    ensures Match(Or(c1, c2), cycleCnt, horizon).status == Matched
    ensures Match(Or(c1, c2), cycleCnt, horizon).cycle <= Match(c1, cycleCnt, horizon).cycle
  {
    hide MatchFrom, Tick;
    MatchIsTicks(c1, c1, 0, 0, cycleCnt, horizon);
    MatchIsTicks(Or(c1, c2), Or(c1, c2), 0, 0, cycleCnt, horizon);
    var n := Match(c1, cycleCnt, horizon).cycle;
    QuietPrefix(Or(c1, c2), 0, n, horizon);
    OrNoLaterThanFirst(c1, c2, 0, n);
  }

  lemma {:induction false} QuietPrefix(c: Cursor, t: nat, m: nat, n: nat)
    requires m <= n && Quiet(c, t, n)
    ensures Quiet(c, t, m)
    decreases n
  {
    hide Tick;
    if m > 0 && !IsDone(c) { QuietPrefix(Tick(c, t).1, t + 1, m - 1, n - 1); }
  }

  /** Two plain branches: the cycles at which each of them advanced. */
  datatype Advances = Advances(first: seq<nat>, second: seq<nat>)

  /** Branch lists `ps1` and `ps2` were followed this far, at increasing cycles, never both in one cycle. */
  predicate Followed(ps1: seq<Pred>, ps2: seq<Pred>, a: Advances, from: nat) {
    && |a.first| <= |ps1| && |a.second| <= |ps2|
    && Occurs(ps1[..|a.first|], a.first, from) && Occurs(ps2[..|a.second|], a.second, from)
    && (forall i, j :: 0 <= i < |a.first| && 0 <= j < |a.second| ==> a.first[i] != a.second[j])
  }

  lemma PrependOccurs(ps: seq<Pred>, ts: seq<nat>, t: nat)
    requires ps != [] && ps[0](t) == Pass && |ts| <= |ps| - 1 && Occurs(ps[1..][..|ts|], ts, t + 1)
    ensures Occurs(ps[..|ts| + 1], [t] + ts, t)
  {
    var us := [t] + ts;
    forall i | 0 <= i < |us| ensures t <= us[i] && ps[..|ts| + 1][i](us[i]) == Pass {
      if i > 0 { assert ps[1..][..|ts|][i - 1] == ps[i] && us[i] == ts[i - 1]; }
    }
  }

  lemma OccursLater(ps: seq<Pred>, ts: seq<nat>, t: nat)
    requires Occurs(ps, ts, t + 1)
    ensures Occurs(ps, ts, t)
  {
  }

  /** When `s1 | s2` of plain nonempty lists is used up, one of the two occurred completely. */
  lemma {:induction false} OrFollowsOneBranch(ps1: seq<Pred>, ps2: seq<Pred>, t: nat, n: nat) returns (a: Advances)
    requires ps1 != [] && ps2 != [] && Plain(ps1) && Plain(ps2)
    requires IsDone(Ticks(OrCur(ListCur(ps1), ListCur(ps2), true), t, n))
    ensures Followed(ps1, ps2, a, t)
    ensures |a.first| == |ps1| || |a.second| == |ps2|
    decreases n
  {
    assert NeverRaises(ps1[0]) && NeverRaises(ps2[0]);
    var c := OrCur(ListCur(ps1), ListCur(ps2), true);
    var (v, d) := Tick(c, t);
    OrTick(ListCur(ps1), ListCur(ps2), t);
    ListTick(ps1, t);
    ListTick(ps2, t);
    if ps1[0](t) == Pass {
      assert d.c1 == ListCur(ps1[1..]) && d.c2 == ListCur(ps2);
      if ps1[1..] == [] {
        a := Advances([t], []);
      } else {
        var b := OrFollowsOneBranch(ps1[1..], ps2, t + 1, n - 1);
        PrependOccurs(ps1, b.first, t);
        OccursLater(ps2[..|b.second|], b.second, t);
        a := Advances([t] + b.first, b.second);
      }
    } else if ps2[0](t) == Pass {
      assert d.c1 == ListCur(ps1) && d.c2 == ListCur(ps2[1..]);
      if ps2[1..] == [] {
        a := Advances([], [t]);
      } else {
        var b := OrFollowsOneBranch(ps1, ps2[1..], t + 1, n - 1);
        PrependOccurs(ps2, b.second, t);
        OccursLater(ps1[..|b.first|], b.first, t);
        a := Advances(b.first, [t] + b.second);
      }
    } else {
      assert d == c;
      a := OrFollowsOneBranch(ps1, ps2, t + 1, n - 1);
      OccursLater(ps1[..|a.first|], a.first, t);
      OccursLater(ps2[..|a.second|], a.second, t);
    }
  }

  // ---------------------------------------------------------------------
  // A branch that is used up
  // ---------------------------------------------------------------------

  /**
    With a first branch that is used up from the start, `s1` matches at once,
    but `s1 | s2` takes a cycle and counts a predicate, whatever `s2` is: it is
    matched at cycle 1, and times out where only one cycle is allowed.
   */
  lemma OrOfUsedUp(c1: Cursor, c2: Cursor, cycleCnt: int, horizon: nat)
    requires IsDone(c1) && Seen(0, cycleCnt, horizon)
    ensures Match(c1, cycleCnt, horizon) == Result(Matched, 0, 0)
    ensures Match(Or(c1, c2), cycleCnt, horizon) ==
            Result(if cycleCnt == 1 then TimedOut else if horizon == 1 then Running else Matched, 1, 1)
  {
    var c, d := Or(c1, c2), OrCur(c1, c2, false);
    assert Tick(c, 0) == (Pass, d);
    assert MatchFrom(c, c, 0, 0, cycleCnt, horizon) == MatchFrom(c, d, 1, 1, cycleCnt, horizon);
  }

  /**
    Where nothing raises and `s1` alone is matched, `s1 | s2` is matched no
    later if and only if `s1` is not used up from the start.
   */
  lemma OrNoLaterIff(c1: Cursor, c2: Cursor, cycleCnt: int, horizon: nat)
    requires Quiet(c1, 0, horizon) && Quiet(Or(c1, c2), 0, horizon)
    requires Match(c1, cycleCnt, horizon).status == Matched
    ensures var m, both := Match(c1, cycleCnt, horizon), Match(Or(c1, c2), cycleCnt, horizon);
      (both.status == Matched && both.cycle <= m.cycle) <==> !IsDone(c1)
  {
    hide Quiet, Tick;
    if IsDone(c1) {
      OrOfUsedUp(c1, c2, cycleCnt, horizon);
    } else {
      OrMatchesNoLater(c1, c2, cycleCnt, horizon);
    }
  }
}
