/**
  What `&`, `+` and a plain list mean, with predicates that restart the match.
  A list starts over; but what `&` and `+` build can be iterated only once, so
  a restart there drops the predicate it came from.
 */
module SequenceRestarts {
  import opened Wrappers
  import opened SequenceModel
  import opened SequenceMatch
  import opened SequenceCombinators

  function Conjoin(p: (Pred, Pred)): Pred {
    (t: nat) => Both(p.0(t), p.1(t))
  }

  function Conjunctions(pairs: seq<(Pred, Pred)>): seq<Pred> {
    seq(|pairs|, i requires 0 <= i < |pairs| => Conjoin(pairs[i]))
  }

  const ALWAYS: Pred := (t: nat) => Pass

  /**
    The match of a list in which a restart moves on, uncounted, and, where
    `extra` is set, the last predicate is then followed by one that always holds.
   */
  function Dropping(ps: seq<Pred>, extra: bool, cycle: nat, count: nat, cycleCnt: int, horizon: nat): Result
    requires cycle <= horizon
    decreases horizon - cycle
  {
    if !InTime(cycle, cycleCnt) then Result(TimedOut, cycle, count)
    else if cycle == horizon then Result(Running, cycle, count)
    else if ps == [] then Result(Matched, cycle, count)
    else
      match ps[0](cycle)
      case Pass => Dropping(ps[1..], extra, cycle + 1, count + 1, cycleCnt, horizon)
      case Wait => Dropping(ps, extra, cycle + 1, count, cycleCnt, horizon)
      case Fail => Result(Failed, cycle, count)
      case Restart => Dropping(AfterRestart(ps, extra), extra, cycle + 1, count, cycleCnt, horizon)
  }

  function AfterRestart(ps: seq<Pred>, extra: bool): seq<Pred>
    requires ps != []
  {
    if extra && |ps| == 1 then [ALWAYS] else ps[1..]
  }

  // ---------------------------------------------------------------------
  // Conjunction
  // ---------------------------------------------------------------------

  /** What `s1 & s2` has to go through: the pairs, or one cycle if there are none. */
  function PairList(pairs: seq<(Pred, Pred)>): seq<Pred> {
    if pairs == [] then [ALWAYS] else Conjunctions(pairs)
  }

  ghost predicate Conjoined(c: Cursor, ps: seq<Pred>) {
    c.AndCur? && (if c.live then ps == PairList(c.pairs) else ps == [])
  }

  lemma ConjoinedTick(c: Cursor, ps: seq<Pred>, t: nat)
    requires Conjoined(c, ps)
    ensures IsDone(c) <==> ps == []
    ensures ps != [] ==>
      var (v, d) := Tick(c, t);
      && v == ps[0](t)
      && (v == Pass ==> Conjoined(d, ps[1..]))
      && (v == Wait ==> Conjoined(d, ps))
      && (v == Restart ==> Conjoined(Again(And([], []), d), AfterRestart(ps, true)))
  {
    if ps != [] {
      var pairs := c.pairs;
      if pairs == [] {
        assert ps[1..] == [];
      } else {
        assert ps[0] == Conjoin(pairs[0]);
        assert ps[1..] == Conjunctions(pairs[1..]);
        assert |ps| == 1 <==> pairs[1..] == [];
      }
    }
  }

  lemma AgainAnd(c: Cursor, start: Cursor)
    requires c.AndCur? && start.AndCur?
    ensures Again(start, c) == Again(And([], []), c)
  {
  }

  lemma TickKeepsAnd(c: Cursor, t: nat)
    requires c.AndCur? && !IsDone(c)
    ensures Tick(c, t).1.AndCur?
  {
  }

  lemma {:induction false} AndFrom(start: Cursor, c: Cursor, ps: seq<Pred>, cycle: nat, count: nat, cycleCnt: int,
                                   horizon: nat)
    requires cycle <= horizon && start.AndCur? && Conjoined(c, ps)
    ensures MatchFrom(start, c, cycle, count, cycleCnt, horizon) == Dropping(ps, true, cycle, count, cycleCnt, horizon)
    decreases horizon - cycle
  {
    ConjoinedTick(c, ps, cycle);
    if InTime(cycle, cycleCnt) && cycle < horizon && ps != [] {
      TickKeepsAnd(c, cycle);
      var (v, d) := Tick(c, cycle);
      AgainAnd(d, start);
      hide Tick, IsDone, Conjoined, Again, AfterRestart;
      match v
      case Pass => AndFrom(start, d, ps[1..], cycle + 1, count + 1, cycleCnt, horizon);
      case Wait => AndFrom(start, d, ps, cycle + 1, count, cycleCnt, horizon);
      case Fail =>
      case Restart =>
        AndFrom(start, Again(start, d), AfterRestart(ps, true), cycle + 1, count, cycleCnt, horizon);
    }
  }

  /**
    `s1 & s2` matches as the list of pairwise conjunctions, as long as the
    shorter one, in which every restart drops its pair; after a last pair that
    restarts, one more cycle is taken and counted.
   */
  lemma AndDropsRestarts(s1: seq<Pred>, s2: seq<Pred>, cycleCnt: int, horizon: nat)
    ensures |Conjunctions(Zip(s1, s2))| == Min(|s1|, |s2|)
    ensures Match(And(s1, s2), cycleCnt, horizon) == Dropping(PairList(Zip(s1, s2)), true, 0, 0, cycleCnt, horizon)
  {
    AndFrom(And(s1, s2), And(s1, s2), PairList(Zip(s1, s2)), 0, 0, cycleCnt, horizon);
  }

  // ---------------------------------------------------------------------
  // Concatenation
  // ---------------------------------------------------------------------

  ghost predicate Joined(c: Cursor, ps: seq<Pred>) {
    c.CatCur? &&
    match |c.parts|
    case 1 => c.parts[0] == ListCur(ps)
    case 2 => c.parts[0].ListCur? && c.parts[1].ListCur? && ps == c.parts[0].rest + c.parts[1].rest
    case _ => false
  }

  lemma JoinedTick(c: Cursor, ps: seq<Pred>, t: nat)
    requires Joined(c, ps)
    ensures IsDone(c) <==> ps == []
    ensures ps != [] ==>
      var (v, d) := Tick(c, t);
      v == ps[0](t) && Joined(d, if v == Pass then ps[1..] else ps)
  {
    if |c.parts| == 2 {
      var a, b := c.parts[0].rest, c.parts[1].rest;
      assert IsDone(c) <==> IsDone(c.parts[0]) && IsDone(c.parts[1]);
      if a != [] {
        assert ps[0] == a[0] && ps[1..] == a[1..] + b;
      } else {
        assert ps == b;
      }
    } else {
      assert IsDone(c) <==> IsDone(c.parts[0]);
    }
  }

  lemma JoinedAgain(start: Cursor, c: Cursor, ps: seq<Pred>)
    requires start.CatCur? && Joined(c, ps) && ps != []
    ensures Joined(Again(start, c), ps[1..])
  {
    var d := Discard(c);
    if |c.parts| == 2 {
      var a, b := c.parts[0].rest, c.parts[1].rest;
      assert IsDone(c) <==> IsDone(c.parts[0]) && IsDone(c.parts[1]);
      if a != [] {
        assert FirstOpen(c.parts) == 0 && Discard(c.parts[0]) == ListCur(a[1..]);
        assert d == CatCur([ListCur(a[1..])] + c.parts[1..]) && ps[1..] == a[1..] + b;
      } else {
        assert FirstOpen(c.parts) == 1 && Discard(c.parts[1]) == ListCur(b[1..]);
        assert d == CatCur([ListCur(b[1..])] + c.parts[2..]) && ps == b;
      }
    } else {
      assert IsDone(c) <==> IsDone(c.parts[0]);
      assert FirstOpen(c.parts) == 0 && Discard(c.parts[0]) == ListCur(ps[1..]);
      assert d == CatCur([ListCur(ps[1..])] + c.parts[1..]);
    }
  }

  lemma {:induction false} CatFrom(start: Cursor, c: Cursor, ps: seq<Pred>, cycle: nat, count: nat, cycleCnt: int,
                                   horizon: nat)
    requires cycle <= horizon && start.CatCur? && Joined(c, ps)
    ensures MatchFrom(start, c, cycle, count, cycleCnt, horizon) == Dropping(ps, false, cycle, count, cycleCnt, horizon)
    decreases horizon - cycle
  {
    hide Joined, Tick, Again, IsDone;
    JoinedTick(c, ps, cycle);
    if InTime(cycle, cycleCnt) && cycle < horizon && ps != [] {
      var (v, d) := Tick(c, cycle);
      match v
      case Pass => CatFrom(start, d, ps[1..], cycle + 1, count + 1, cycleCnt, horizon);
      case Wait => CatFrom(start, d, ps, cycle + 1, count, cycleCnt, horizon);
      case Fail =>
      case Restart =>
        JoinedAgain(start, d, ps);
        CatFrom(start, Again(start, d), ps[1..], cycle + 1, count, cycleCnt, horizon);
    }
  }

  /** `s1 + s2` matches as the joined list in which every restart drops its predicate. */
  lemma CatDropsRestarts(s1: seq<Pred>, s2: seq<Pred>, cycleCnt: int, horizon: nat)
    ensures Match(Cat(ListCur(s1), ListCur(s2)), cycleCnt, horizon) ==
            Dropping(s1 + s2, false, 0, 0, cycleCnt, horizon)
  {
    var c := Cat(ListCur(s1), ListCur(s2));
    CatFrom(c, c, s1 + s2, 0, 0, cycleCnt, horizon);
  }

  // ---------------------------------------------------------------------
  // No restart at a cycle the match reaches
  // ---------------------------------------------------------------------

  /** Going through `ps` from `cycle` on, no restart is met before the end. */
  predicate Unrestarted(ps: seq<Pred>, cycle: nat, cycleCnt: int, horizon: nat)
    decreases horizon - cycle
  {
    Seen(cycle, cycleCnt, horizon) && ps != [] ==>
      match ps[0](cycle)
      case Pass => Unrestarted(ps[1..], cycle + 1, cycleCnt, horizon)
      case Wait => Unrestarted(ps, cycle + 1, cycleCnt, horizon)
      case Fail => true
      case Restart => false
  }

  lemma {:induction false} UnrestartedDropping(start: Cursor, ps: seq<Pred>, extra: bool, cycle: nat, count: nat,
                                               cycleCnt: int, horizon: nat)
    requires cycle <= horizon && Unrestarted(ps, cycle, cycleCnt, horizon)
    ensures Dropping(ps, extra, cycle, count, cycleCnt, horizon) ==
            MatchFrom(start, ListCur(ps), cycle, count, cycleCnt, horizon)
    decreases horizon - cycle
  {
    if Seen(cycle, cycleCnt, horizon) && ps != [] {
      ListTick(ps, cycle);
      hide Tick;
      match ps[0](cycle)
      case Pass => UnrestartedDropping(start, ps[1..], extra, cycle + 1, count + 1, cycleCnt, horizon);
      case Wait => UnrestartedDropping(start, ps, extra, cycle + 1, count, cycleCnt, horizon);
      case Fail =>
    }
  }

  /** Unless the match meets a restart, `s1 & s2` of nonempty lists matches exactly as the list of conjunctions. */
  lemma AndIsPairwise(s1: seq<Pred>, s2: seq<Pred>, cycleCnt: int, horizon: nat)
    requires s1 != [] && s2 != [] && Unrestarted(Conjunctions(Zip(s1, s2)), 0, cycleCnt, horizon)
    ensures var both := Conjunctions(Zip(s1, s2));
      && |both| == Min(|s1|, |s2|)
      && Match(And(s1, s2), cycleCnt, horizon) == Match(ListCur(both), cycleCnt, horizon)
  {
    var both := Conjunctions(Zip(s1, s2));
    AndDropsRestarts(s1, s2, cycleCnt, horizon);
    UnrestartedDropping(ListCur(both), both, true, 0, 0, cycleCnt, horizon);
  }

  lemma {:induction false} PlainUnrestarted(ps: seq<Pred>, cycle: nat, cycleCnt: int, horizon: nat)
    requires Plain(ps)
    ensures Unrestarted(ps, cycle, cycleCnt, horizon)
    decreases horizon - cycle
  {
    if Seen(cycle, cycleCnt, horizon) && ps != [] {
      assert NeverRaises(ps[0]);
      if ps[0](cycle) == Pass {
        PlainUnrestarted(ps[1..], cycle + 1, cycleCnt, horizon);
      } else {
        PlainUnrestarted(ps, cycle + 1, cycleCnt, horizon);
      }
    }
  }

  /** At increasing cycles from the start on, predicates of both lists hold at the same time, as far as both reach. */
  predicate OccurTogether(s1: seq<Pred>, s2: seq<Pred>, ts: seq<nat>) {
    && |ts| == Min(|s1|, |s2|)
    && (forall i :: 0 <= i < |ts| ==> s1[i](ts[i]) == Pass && s2[i](ts[i]) == Pass)
    && (forall i, j :: 0 <= i < j < |ts| ==> ts[i] < ts[j])
  }

  lemma TogetherIsConjoined(s1: seq<Pred>, s2: seq<Pred>)
    ensures var both := Conjunctions(Zip(s1, s2));
      && (Plain(s1) && Plain(s2) ==> Plain(both))
      && forall ts: seq<nat> :: OccurTogether(s1, s2, ts) <==> Occurs(both, ts, 0)
  {
    var both := Conjunctions(Zip(s1, s2));
    if Plain(s1) && Plain(s2) {
      forall i | 0 <= i < |both| ensures NeverRaises(both[i]) {
        assert NeverRaises(s1[i]) && NeverRaises(s2[i]);
      }
    }
    forall i, t: nat | 0 <= i < |both| ensures both[i](t) == Pass <==> s1[i](t) == Pass && s2[i](t) == Pass { }
  }

  /**
    Where nothing raises, `s1 & s2` of nonempty lists is matched if and only if
    predicates of both hold at the same time, pair by pair, at increasing cycles
    and in time.
   */
  lemma AndIsTogether(s1: seq<Pred>, s2: seq<Pred>, cycleCnt: int, horizon: nat)
    requires s1 != [] && s2 != [] && Plain(s1) && Plain(s2)
    ensures Match(And(s1, s2), cycleCnt, horizon).status == Matched <==>
            exists ts :: OccurTogether(s1, s2, ts) && Seen(End(ts, 0), cycleCnt, horizon)
  {
    hide Match, OccurTogether, Occurs, Plain;
    var both := Conjunctions(Zip(s1, s2));
    TogetherIsConjoined(s1, s2);
    PlainUnrestarted(both, 0, cycleCnt, horizon);
    AndIsPairwise(s1, s2, cycleCnt, horizon);
    GreedyIsExact(both, cycleCnt, horizon);
    if Match(And(s1, s2), cycleCnt, horizon).status == Matched {
      var ts :| Occurs(both, ts, 0) && Seen(End(ts, 0), cycleCnt, horizon);
      assert OccurTogether(s1, s2, ts);
    }
    forall ts | OccurTogether(s1, s2, ts) && Seen(End(ts, 0), cycleCnt, horizon)
      ensures Match(And(s1, s2), cycleCnt, horizon).status == Matched
    {
      assert Occurs(both, ts, 0);
    }
  }

  /** Unless the match meets a restart, `s1 + s2` matches exactly as the joined list. */
  lemma CatIsAppend(s1: seq<Pred>, s2: seq<Pred>, cycleCnt: int, horizon: nat)
    requires Unrestarted(s1 + s2, 0, cycleCnt, horizon)
    ensures Match(Cat(ListCur(s1), ListCur(s2)), cycleCnt, horizon) == Match(ListCur(s1 + s2), cycleCnt, horizon)
  {
    CatDropsRestarts(s1, s2, cycleCnt, horizon);
    UnrestartedDropping(ListCur(s1 + s2), s1 + s2, false, 0, 0, cycleCnt, horizon);
  }

  // ---------------------------------------------------------------------
  // What dropping means, without cycles
  // ---------------------------------------------------------------------

  /** A restart taken for a pass. */
  function Lenient(p: Pred): Pred {
    (t: nat) => if p(t) == Restart then Pass else p(t)
  }

  function AllLenient(ps: seq<Pred>): seq<Pred> {
    seq(|ps|, i requires 0 <= i < |ps| => Lenient(ps[i]))
  }

  lemma {:induction false} DroppingIsLenient(start: Cursor, ps: seq<Pred>, cycle: nat, count: nat, more: nat,
                                             cycleCnt: int, horizon: nat)
    requires cycle <= horizon
    ensures var d := Dropping(ps, false, cycle, count, cycleCnt, horizon);
      var m := MatchFrom(start, ListCur(AllLenient(ps)), cycle, count + more, cycleCnt, horizon);
      d.status == m.status && d.cycle == m.cycle && d.count <= m.count
    decreases horizon - cycle
  {
    if Seen(cycle, cycleCnt, horizon) && ps != [] {
      var ls := AllLenient(ps);
      ListTick(ls, cycle);
      assert ls[0] == Lenient(ps[0]) && ls[1..] == AllLenient(ps[1..]);
      hide Tick, AllLenient;
      match ps[0](cycle)
      case Pass => DroppingIsLenient(start, ps[1..], cycle + 1, count + 1, more, cycleCnt, horizon);
      case Wait => DroppingIsLenient(start, ps, cycle + 1, count, more, cycleCnt, horizon);
      case Fail =>
      case Restart => DroppingIsLenient(start, ps[1..], cycle + 1, count, more + 1, cycleCnt, horizon);
    } else if ps == [] {
      assert AllLenient(ps) == [];
    }
  }

  ghost predicate NeverFails(ps: seq<Pred>) {
    forall i, t: nat :: 0 <= i < |ps| ==> ps[i](t) != Fail
  }

  /**
    Where nothing fails, `s1 + s2` is matched if and only if its predicates hold
    or restart, one after the other, at increasing cycles in time.
   */
  lemma CatMatchedIff(s1: seq<Pred>, s2: seq<Pred>, cycleCnt: int, horizon: nat)
    requires NeverFails(s1 + s2)
    ensures Match(Cat(ListCur(s1), ListCur(s2)), cycleCnt, horizon).status == Matched <==>
            exists ts :: Occurs(AllLenient(s1 + s2), ts, 0) && Seen(End(ts, 0), cycleCnt, horizon)
  {
    var ls := AllLenient(s1 + s2);
    forall i | 0 <= i < |ls| ensures NeverRaises(ls[i]) {
      forall t: nat ensures ls[i](t) == Pass || ls[i](t) == Wait { assert (s1 + s2)[i](t) != Fail; }
    }
    hide MatchFrom, Dropping;
    CatDropsRestarts(s1, s2, cycleCnt, horizon);
    DroppingIsLenient(ListCur(ls), s1 + s2, 0, 0, 0, cycleCnt, horizon);
    GreedyIsExact(ls, cycleCnt, horizon);
  }

  /**
    The first cycle at which `s1 & s2` has been gone through: one more than for
    a list where the last pair was dropped by a restart.
   */
  function EndDropped(ps: seq<Pred>, ts: seq<nat>, from: nat): nat
    requires |ts| == |ps|
  {
    if ts == [] then from
    else
      var n := |ts| - 1;
      ts[n] + (if ps[n](ts[n]) == Restart then 2 else 1)
  }

  lemma AlwaysEnds(cycle: nat, count: nat, cycleCnt: int, horizon: nat)
    requires cycle <= horizon
    ensures Dropping([ALWAYS], true, cycle, count, cycleCnt, horizon).status == Matched <==>
            Seen(cycle + 1, cycleCnt, horizon)
  {
    if Seen(cycle, cycleCnt, horizon) {
      assert Dropping([ALWAYS], true, cycle, count, cycleCnt, horizon) ==
             Dropping([], true, cycle + 1, count + 1, cycleCnt, horizon);
    }
  }

  lemma {:induction false} DroppedSound(ps: seq<Pred>, cycle: nat, count: nat, cycleCnt: int, horizon: nat)
    returns (ts: seq<nat>)
    requires cycle <= horizon && Dropping(ps, true, cycle, count, cycleCnt, horizon).status == Matched
    ensures Occurs(AllLenient(ps), ts, cycle) && Seen(EndDropped(ps, ts, cycle), cycleCnt, horizon)
    decreases horizon - cycle
  {
    if ps == [] {
      ts := [];
    } else {
      var ls := AllLenient(ps);
      assert ls[0](cycle) == Lenient(ps[0])(cycle) && ls[1..] == AllLenient(ps[1..]);
      hide AllLenient;
      match ps[0](cycle) {
        case Wait =>
          ts := DroppedSound(ps, cycle + 1, count, cycleCnt, horizon);
        case Pass =>
          var us := DroppedSound(ps[1..], cycle + 1, count + 1, cycleCnt, horizon);
          ts := [cycle] + us;
          PrependLenient(ls, us, cycle);
        case Restart =>
          if |ps| == 1 {
            AlwaysEnds(cycle + 1, count, cycleCnt, horizon);
            ts := [cycle];
          } else {
            var us := DroppedSound(ps[1..], cycle + 1, count, cycleCnt, horizon);
            ts := [cycle] + us;
            PrependLenient(ls, us, cycle);
          }
      }
    }
  }

  lemma PrependLenient(ls: seq<Pred>, us: seq<nat>, cycle: nat)
    requires ls != [] && ls[0](cycle) == Pass && Occurs(ls[1..], us, cycle + 1)
    ensures Occurs(ls, [cycle] + us, cycle)
  {
    var ts := [cycle] + us;
    forall i | 0 <= i < |ts| ensures cycle <= ts[i] && ls[i](ts[i]) == Pass {
      if i > 0 { assert ls[1..][i - 1](us[i - 1]) == Pass; }
    }
  }

  lemma {:induction false} DroppedComplete(ps: seq<Pred>, ts: seq<nat>, cycle: nat, count: nat, cycleCnt: int,
                                           horizon: nat)
    requires cycle <= horizon && NeverFails(ps)
    requires Occurs(AllLenient(ps), ts, cycle) && Seen(EndDropped(ps, ts, cycle), cycleCnt, horizon)
    ensures Dropping(ps, true, cycle, count, cycleCnt, horizon).status == Matched
    decreases horizon - cycle
  {
    if ps != [] {
      var ls := AllLenient(ps);
      assert ls[0](cycle) == Lenient(ps[0])(cycle) && ls[1..] == AllLenient(ps[1..]);
      assert ls[0](ts[0]) == Pass && cycle <= ts[0] <= ts[|ts| - 1] && ps[0](cycle) != Fail;
      hide AllLenient;
      if ps[0](cycle) == Wait {
        assert ts[0] != cycle;
        assert forall i :: 0 <= i < |ts| ==> ts[0] <= ts[i];
        DroppedComplete(ps, ts, cycle + 1, count, cycleCnt, horizon);
      } else if |ps| == 1 && ps[0](cycle) == Restart {
        AlwaysEnds(cycle + 1, count, cycleCnt, horizon);
      } else {
        Later(ts);
        TailOccurs(ls, ts, cycle);
        LastOfTail(ps, ts, cycle);
        DroppedComplete(ps[1..], ts[1..], cycle + 1, if ps[0](cycle) == Pass then count + 1 else count, cycleCnt,
                        horizon);
      }
    }
  }

  lemma TailOccurs(ls: seq<Pred>, ts: seq<nat>, cycle: nat)
    requires ls != [] && Occurs(ls, ts, cycle)
    ensures Occurs(ls[1..], ts[1..], cycle + 1)
  {
    forall i | 0 <= i < |ts[1..]| ensures cycle + 1 <= ts[1..][i] && ls[1..][i](ts[1..][i]) == Pass {
      assert ts[0] < ts[i + 1] && ls[i + 1](ts[i + 1]) == Pass;
    }
  }

  lemma LastOfTail(ps: seq<Pred>, ts: seq<nat>, cycle: nat)
    requires |ts| == |ps| > 0 && cycle <= ts[|ts| - 1]
    ensures EndDropped(ps[1..], ts[1..], cycle + 1) <= EndDropped(ps, ts, cycle)
  {
  }

  /**
    Where nothing fails, `s1 & s2` is matched if and only if its pairs hold or
    restart, one after the other, at increasing cycles in time, with one cycle
    more for a last pair that restarts.
   */
  lemma AndMatchedIff(s1: seq<Pred>, s2: seq<Pred>, cycleCnt: int, horizon: nat)
    requires NeverFails(PairList(Zip(s1, s2)))
    ensures var ps := PairList(Zip(s1, s2));
      Match(And(s1, s2), cycleCnt, horizon).status == Matched <==>
      exists ts :: |ts| == |ps| && Occurs(AllLenient(ps), ts, 0) && Seen(EndDropped(ps, ts, 0), cycleCnt, horizon)
  {
    var ps := PairList(Zip(s1, s2));
    hide MatchFrom, Dropping, PairList, AllLenient;
    AndDropsRestarts(s1, s2, cycleCnt, horizon);
    LenientLength(ps);
    if Match(And(s1, s2), cycleCnt, horizon).status == Matched {
      var ts := DroppedSound(ps, 0, 0, cycleCnt, horizon);
    }
    forall ts | |ts| == |ps| && Occurs(AllLenient(ps), ts, 0) && Seen(EndDropped(ps, ts, 0), cycleCnt, horizon)
      ensures Match(And(s1, s2), cycleCnt, horizon).status == Matched
    {
      DroppedComplete(ps, ts, 0, 0, cycleCnt, horizon);
    }
  }

  lemma LenientLength(ps: seq<Pred>)
    ensures |AllLenient(ps)| == |ps|
  {
  }

  // ---------------------------------------------------------------------
  // Plain lists
  // ---------------------------------------------------------------------

  /** What is left of a list at cycle `t`; a restart brings all of it back. */
  function Left(all: seq<Pred>, t: nat): seq<Pred> {
    if t == 0 then all
    else
      var ps := Left(all, t - 1);
      if ps == [] then []
      else match ps[0](t - 1)
        case Pass => ps[1..]
        case Restart => all
        case _ => ps
  }

  /** The list is begun at cycle `r`: at the start, or after a restart. */
  predicate Begins(all: seq<Pred>, r: nat) {
    r == 0 || (Left(all, r - 1) != [] && Left(all, r - 1)[0](r - 1) == Restart)
  }

  /** The last attempt: begun at `r`, not restarted, and everything occurs in time. */
  ghost predicate LastAttempt(all: seq<Pred>, r: nat, ts: seq<nat>, cycleCnt: int, horizon: nat) {
    && Begins(all, r) && Unrestarted(all, r, cycleCnt, horizon)
    && Occurs(all, ts, r) && Seen(End(ts, r), cycleCnt, horizon)
  }

  function ListMatch(all: seq<Pred>, ps: seq<Pred>, cycle: nat, count: nat, cycleCnt: int, horizon: nat): Result
    requires cycle <= horizon
  {
    MatchFrom(ListCur(all), ListCur(ps), cycle, count, cycleCnt, horizon)
  }

  /** One cycle of a list. */
  lemma ListStep(all: seq<Pred>, ps: seq<Pred>, cycle: nat, count: nat, cycleCnt: int, horizon: nat)
    requires Seen(cycle, cycleCnt, horizon) && ps != []
    ensures ListMatch(all, ps, cycle, count, cycleCnt, horizon) ==
            match ps[0](cycle)
            case Pass => ListMatch(all, ps[1..], cycle + 1, count + 1, cycleCnt, horizon)
            case Wait => ListMatch(all, ps, cycle + 1, count, cycleCnt, horizon)
            case Fail => Result(Failed, cycle, count)
            case Restart => ListMatch(all, all, cycle + 1, count, cycleCnt, horizon)
  {
    ListTick(ps, cycle);
  }

  lemma ListEnd(all: seq<Pred>, ps: seq<Pred>, cycle: nat, count: nat, cycleCnt: int, horizon: nat)
    requires cycle <= horizon && (!Seen(cycle, cycleCnt, horizon) || ps == [])
    ensures ListMatch(all, ps, cycle, count, cycleCnt, horizon).status == Matched <==>
            Seen(cycle, cycleCnt, horizon)
  {
  }

  /** A matched run has a last attempt: the present one, or one begun later. */
  lemma {:induction false} HasLastAttempt(all: seq<Pred>, ps: seq<Pred>, cycle: nat, count: nat, cycleCnt: int,
                                          horizon: nat) returns (later: bool, r: nat, ts: seq<nat>)
    requires cycle <= horizon && ps == Left(all, cycle)
    requires ListMatch(all, ps, cycle, count, cycleCnt, horizon).status == Matched
    ensures later ==> LastAttempt(all, r, ts, cycleCnt, horizon)
    ensures !later ==> Unrestarted(ps, cycle, cycleCnt, horizon) && Occurs(ps, ts, cycle) &&
                       Seen(End(ts, cycle), cycleCnt, horizon)
    decreases horizon - cycle
  {
    hide ListMatch, LastAttempt, Occurs, Left;
    if !Seen(cycle, cycleCnt, horizon) || ps == [] {
      ListEnd(all, ps, cycle, count, cycleCnt, horizon);
      NothingOccurs(cycle);
      later, r, ts := false, 0, [];
    } else {
      ListStep(all, ps, cycle, count, cycleCnt, horizon);
      LeftNext(all, cycle);
      match ps[0](cycle) {
        case Pass =>
          later, r, ts := HasLastAttempt(all, ps[1..], cycle + 1, count + 1, cycleCnt, horizon);
          if !later {
            PrependLenient(ps, ts, cycle);
            ts := [cycle] + ts;
          }
        case Wait =>
          later, r, ts := HasLastAttempt(all, ps, cycle + 1, count, cycleCnt, horizon);
          if !later { OccursLater(ps, ts, cycle); }
        case Restart =>
          later, r, ts := HasLastAttempt(all, all, cycle + 1, count, cycleCnt, horizon);
          if !later {
            BegunAgain(all, cycle, ts, cycleCnt, horizon);
            later, r := true, cycle + 1;
          }
      }
    }
  }

  lemma NothingOccurs(cycle: nat)
    ensures Occurs([], [], cycle)
  {
  }

  lemma LeftNext(all: seq<Pred>, t: nat)
    ensures var ps := Left(all, t);
      ps != [] ==>
        Left(all, t + 1) == match ps[0](t) case Pass => ps[1..] case Restart => all case _ => ps
  {
  }

  lemma BegunAgain(all: seq<Pred>, t: nat, ts: seq<nat>, cycleCnt: int, horizon: nat)
    requires Left(all, t) != [] && Left(all, t)[0](t) == Restart && Unrestarted(all, t + 1, cycleCnt, horizon)
    requires Occurs(all, ts, t + 1) && Seen(End(ts, t + 1), cycleCnt, horizon)
    ensures LastAttempt(all, t + 1, ts, cycleCnt, horizon)
  {
    hide Left, Unrestarted, Occurs;
  }

  /** An attempt that is not restarted finds what occurs. */
  lemma {:induction false} AttemptSucceeds(all: seq<Pred>, ps: seq<Pred>, ts: seq<nat>, cycle: nat, count: nat,
                                           cycleCnt: int, horizon: nat)
    requires cycle <= horizon && NeverFails(ps) && Unrestarted(ps, cycle, cycleCnt, horizon)
    requires Occurs(ps, ts, cycle) && Seen(End(ts, cycle), cycleCnt, horizon)
    ensures ListMatch(all, ps, cycle, count, cycleCnt, horizon).status == Matched
    decreases horizon - cycle
  {
    hide ListMatch;
    if ps == [] {
      ListEnd(all, ps, cycle, count, cycleCnt, horizon);
    } else {
      assert cycle <= ts[0] <= ts[|ts| - 1] && ps[0](cycle) != Fail;
      ListStep(all, ps, cycle, count, cycleCnt, horizon);
      if ps[0](cycle) == Pass {
        Later(ts);
        AttemptSucceeds(all, ps[1..], ts[1..], cycle + 1, count + 1, cycleCnt, horizon);
      } else {
        assert ts[0] != cycle;
        assert forall i :: 0 <= i < |ts| ==> ts[0] <= ts[i];
        AttemptSucceeds(all, ps, ts, cycle + 1, count, cycleCnt, horizon);
      }
    }
  }

  lemma {:induction false} LeftBefore(all: seq<Pred>, t: nat, r: nat)
    requires t <= r && Left(all, r) != []
    ensures Left(all, t) != []
    decreases r
  {
    if t < r { LeftBefore(all, t, r - 1); }
  }

  /** As long as something is left, the run gets from one cycle to a later one. */
  lemma {:induction false} RunGetsTo(all: seq<Pred>, t: nat, r: nat, count: nat, cycleCnt: int, horizon: nat)
    returns (countThen: nat)
    requires t <= r <= horizon && NeverFails(all)
    requires r > 0 ==> Left(all, r - 1) != [] && Seen(r - 1, cycleCnt, horizon)
    ensures ListMatch(all, Left(all, t), t, count, cycleCnt, horizon) ==
            ListMatch(all, Left(all, r), r, countThen, cycleCnt, horizon)
    decreases r - t
  {
    hide ListMatch;
    countThen := count;
    if t < r {
      LeftBefore(all, t, r - 1);
      var ps := Left(all, t);
      LeftIsTail(all, t);
      ListStep(all, ps, t, count, cycleCnt, horizon);
      countThen := RunGetsTo(all, t + 1, r, if ps[0](t) == Pass then count + 1 else count, cycleCnt, horizon);
    }
  }

  lemma {:induction false} LeftIsTail(all: seq<Pred>, t: nat)
    requires NeverFails(all)
    ensures NeverFails(Left(all, t))
    decreases t
  {
    if t > 0 {
      LeftIsTail(all, t - 1);
      var ps := Left(all, t - 1);
      if ps != [] {
        forall i, u: nat | 0 <= i < |ps[1..]| ensures ps[1..][i](u) != Fail { assert ps[1..][i] == ps[i + 1]; }
      }
    }
  }

  /**
    Where nothing fails, a list is matched if and only if, begun at the start
    or after one of its restarts, it goes through without another one and its
    predicates hold at increasing cycles in time.
   */
  lemma ListMatchedIff(ps: seq<Pred>, cycleCnt: int, horizon: nat)
    requires NeverFails(ps)
    ensures Match(ListCur(ps), cycleCnt, horizon).status == Matched <==>
            exists r: nat, ts :: LastAttempt(ps, r, ts, cycleCnt, horizon)
  {
    hide Unrestarted, Occurs;
    assert Match(ListCur(ps), cycleCnt, horizon) == ListMatch(ps, Left(ps, 0), 0, 0, cycleCnt, horizon);
    hide ListMatch;
    if Match(ListCur(ps), cycleCnt, horizon).status == Matched {
      var later, r, ts := HasLastAttempt(ps, ps, 0, 0, cycleCnt, horizon);
      assert LastAttempt(ps, if later then r else 0, ts, cycleCnt, horizon);
    }
    forall r: nat, ts | LastAttempt(ps, r, ts, cycleCnt, horizon)
      ensures Match(ListCur(ps), cycleCnt, horizon).status == Matched
    {
      EndNotBefore(ps, ts, r);
      var count := RunGetsTo(ps, 0, r, 0, cycleCnt, horizon);
      AttemptSucceeds(ps, ps, ts, r, count, cycleCnt, horizon);
    }
  }

  lemma EndNotBefore(ps: seq<Pred>, ts: seq<nat>, r: nat)
    requires Occurs(ps, ts, r)
    ensures End(ts, r) >= r
  {
  }

  // ---------------------------------------------------------------------
  // Disjunctions
  // ---------------------------------------------------------------------

  lemma TickKeepsOr(c: Cursor, t: nat)
    requires c.OrCur? && !IsDone(c)
    ensures Tick(c, t).1.OrCur?
  {
  }

  /**
    A restart of `s1 | s2` for two plain lists begins both of them anew, however
    far they had come: from the next cycle on the match goes as from the start,
    with what has been counted.
   */
  lemma OrRestartsBoth(s1: seq<Pred>, s2: seq<Pred>, c: Cursor, cycle: nat, count: nat, cycleCnt: int, horizon: nat)
    requires c.OrCur? && !IsDone(c) && Seen(cycle, cycleCnt, horizon) && Tick(c, cycle).0 == Restart
    ensures var start := Or(ListCur(s1), ListCur(s2));
      MatchFrom(start, c, cycle, count, cycleCnt, horizon) ==
      MatchFrom(start, start, cycle + 1, count, cycleCnt, horizon)
  {
    TickKeepsOr(c, cycle);
    hide Tick;
    var start, d := Or(ListCur(s1), ListCur(s2)), Tick(c, cycle).1;
    assert Again(ListCur(s1), d.c1) == ListCur(s1) && Again(ListCur(s2), d.c2) == ListCur(s2);
    assert Again(start, d) == start;
  }

  // ---------------------------------------------------------------------
  // Witnesses
  // ---------------------------------------------------------------------

  /** A conjunction of one pair that restarts the match once is reported matched, whether the pair ever holds or not. */
  lemma AndRestartSkipsPair(p: Pred, q: Pred, cycleCnt: int, horizon: nat)
    requires Both(p(0), q(0)) == Restart && Seen(2, cycleCnt, horizon)
    ensures Match(And([p], [q]), cycleCnt, horizon) == Result(Matched, 2, 1)
  {
    AndDropsRestarts([p], [q], cycleCnt, horizon);
    var ps := PairList(Zip([p], [q]));
    assert |ps| == 1 && ps[0](0) == Restart;
    assert Dropping([], true, 2, 1, cycleCnt, horizon) == Result(Matched, 2, 1);
    assert Dropping([ALWAYS], true, 1, 0, cycleCnt, horizon) == Result(Matched, 2, 1);
  }

  /** So is a concatenation whose first predicate restarts once and whose second then holds. */
  lemma CatRestartSkipsPredicate(p: Pred, q: Pred, cycleCnt: int, horizon: nat)
    requires p(0) == Restart && q(1) == Pass && Seen(2, cycleCnt, horizon)
    ensures Match(Cat(ListCur([p]), ListCur([q])), cycleCnt, horizon) == Result(Matched, 2, 1)
  {
    CatDropsRestarts([p], [q], cycleCnt, horizon);
    var ps := [p] + [q];
    assert ps[0] == p && ps[1..] == [q] && [q][1..] == [];
    assert Dropping([], false, 2, 1, cycleCnt, horizon) == Result(Matched, 2, 1);
    assert Dropping([q], false, 1, 0, cycleCnt, horizon) == Result(Matched, 2, 1);
  }
}
