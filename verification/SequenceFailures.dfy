/**
  When a plain list fails, with predicates that may also restart it: exactly at
  the first cycle at which the predicate then asked says so, before everything
  has held and in time.
 */
module SequenceFailures {
  import opened Wrappers
  import opened SequenceModel
  import opened SequenceMatch
  import opened SequenceRestarts

  /** At cycle `t` something is left, and its first predicate does not fail. */
  predicate GoesOn(all: seq<Pred>, t: nat) {
    Left(all, t) != [] && Left(all, t)[0](t) != Fail
  }

  /** Cycle `m` is seen, and the predicate that is asked then fails for the first time. */
  predicate FailsAt(all: seq<Pred>, m: nat, cycleCnt: int, horizon: nat) {
    && Seen(m, cycleCnt, horizon) && Left(all, m) != [] && Left(all, m)[0](m) == Fail
    && forall t: nat :: t < m ==> GoesOn(all, t)
  }

  lemma SeenBefore(t: nat, m: nat, cycleCnt: int, horizon: nat)
    requires t <= m && Seen(m, cycleCnt, horizon)
    ensures Seen(t, cycleCnt, horizon)
  {
  }

  /** A run gets as far as nothing fails. */
  lemma {:induction false} GetsTo(all: seq<Pred>, m: nat, cycleCnt: int, horizon: nat) returns (count: nat)
    requires Seen(m, cycleCnt, horizon) && forall t: nat :: t < m ==> GoesOn(all, t)
    ensures Match(ListCur(all), cycleCnt, horizon) == ListMatch(all, Left(all, m), m, count, cycleCnt, horizon)
    decreases m
  {
    if m == 0 {
      count := 0;
    } else {
      SeenBefore(m - 1, m, cycleCnt, horizon);
      count := GetsTo(all, m - 1, cycleCnt, horizon);
      hide ListMatch, Match;
      var ps := Left(all, m - 1);
      assert GoesOn(all, m - 1);
      ListStep(all, ps, m - 1, count, cycleCnt, horizon);
      LeftNext(all, m - 1);
      count := if ps[0](m - 1) == Pass then count + 1 else count;
    }
  }

  /** A run that fails from cycle `t` on has a cycle that fails it. */
  lemma {:induction false} FindsFailure(all: seq<Pred>, t: nat, count: nat, cycleCnt: int, horizon: nat)
    returns (m: nat)
    requires t <= horizon && ListMatch(all, Left(all, t), t, count, cycleCnt, horizon).status == Failed
    requires forall u: nat :: u < t ==> GoesOn(all, u)
    ensures FailsAt(all, m, cycleCnt, horizon)
    ensures ListMatch(all, Left(all, t), t, count, cycleCnt, horizon).cycle == m
    decreases horizon - t
  {
    var ps := Left(all, t);
    if !Seen(t, cycleCnt, horizon) || ps == [] {
      assert false;
    } else {
      hide ListMatch;
      ListStep(all, ps, t, count, cycleCnt, horizon);
      LeftNext(all, t);
      if ps[0](t) == Fail {
        m := t;
      } else {
        m := FindsFailure(all, t + 1, if ps[0](t) == Pass then count + 1 else count, cycleCnt, horizon);
      }
    }
  }

  /** A list fails if and only if some cycle fails it, and it fails at that cycle. */
  lemma FailedIff(ps: seq<Pred>, cycleCnt: int, horizon: nat)
    ensures var r := Match(ListCur(ps), cycleCnt, horizon);
      && (r.status == Failed <==> exists m: nat :: FailsAt(ps, m, cycleCnt, horizon))
      && (r.status == Failed ==> FailsAt(ps, r.cycle, cycleCnt, horizon))
  {
    assert Match(ListCur(ps), cycleCnt, horizon) == ListMatch(ps, Left(ps, 0), 0, 0, cycleCnt, horizon);
    if Match(ListCur(ps), cycleCnt, horizon).status == Failed {
      var m := FindsFailure(ps, 0, 0, cycleCnt, horizon);
    }
    forall m: nat | FailsAt(ps, m, cycleCnt, horizon) ensures Match(ListCur(ps), cycleCnt, horizon).status == Failed {
      var count := GetsTo(ps, m, cycleCnt, horizon);
      ListStep(ps, Left(ps, m), m, count, cycleCnt, horizon);
    }
  }

  /** A failure is final: a longer simulation ends at the same cycle. */
  lemma FailureIsFinal(ps: seq<Pred>, m: nat, cycleCnt: int, horizon: nat, longer: nat)
    requires FailsAt(ps, m, cycleCnt, horizon) && longer >= horizon
    ensures var r := Match(ListCur(ps), cycleCnt, longer); r.status == Failed && r.cycle == m
  {
    hide Match, ListMatch;
    var count := GetsTo(ps, m, cycleCnt, longer);
    ListStep(ps, Left(ps, m), m, count, cycleCnt, longer);
  }

  // ---------------------------------------------------------------------
  // Conjunctions
  // ---------------------------------------------------------------------

  lemma {:induction false} WaitsOn(ps: seq<Pred>, extra: bool, cycle: nat, count: nat, horizon: nat)
    requires cycle <= horizon && ps != [] && forall t: nat :: ps[0](t) == Wait
    ensures Dropping(ps, extra, cycle, count, 0, horizon) == Result(Running, horizon, count)
    decreases horizon - cycle
  {
    if cycle < horizon { WaitsOn(ps, extra, cycle + 1, count, horizon); }
  }

  /**
    In `s1 & s2` the second predicate of a pair is asked only where the first
    one holds: while the first waits, the match waits, whatever the second would
    say, a failure included.
   */
  lemma SecondWaitsForFirst(s1: seq<Pred>, s2: seq<Pred>, horizon: nat)
    requires s1 != [] && s2 != [] && forall t: nat :: s1[0](t) == Wait
    ensures Match(And(s1, s2), 0, horizon) == Result(Running, horizon, 0)
  {
    AndDropsRestarts(s1, s2, 0, horizon);
    var ps := PairList(Zip(s1, s2));
    forall t: nat ensures ps[0](t) == Wait { }
    WaitsOn(ps, true, 0, 0, horizon);
  }

  /** Where the first holds throughout, the second decides: the first failure of it fails the match. */
  lemma SecondFailsMatch(s1: seq<Pred>, s2: seq<Pred>, cycleCnt: int, horizon: nat)
    requires s1 != [] && s2 != [] && s1[0](0) == Pass && s2[0](0) == Fail && Seen(0, cycleCnt, horizon)
    ensures Match(And(s1, s2), cycleCnt, horizon) == Result(Failed, 0, 0)
  {
    AndDropsRestarts(s1, s2, cycleCnt, horizon);
    var ps := PairList(Zip(s1, s2));
    assert ps[0](0) == Fail;
  }
}
