/**
  Sequences of predicates matched cycle by cycle.  A `Cursor` is an iterator
  together with the predicate it last handed out; it is advanced by at most one
  predicate a cycle.
 */
module SequenceModel {
  import opened Wrappers

  /** What a predicate says at a cycle: holds, does not hold, fails the match, or restarts it. */
  datatype Verdict = Pass | Wait | Fail | Restart

  type Pred = nat -> Verdict

  datatype Cursor =
    | ListCur(rest: seq<Pred>)
    | CatCur(parts: seq<Cursor>)
    | OrCur(c1: Cursor, c2: Cursor, live: bool)
    | AndCur(pairs: seq<(Pred, Pred)>, live: bool)

  /** The iterator has nothing more to hand out. */
  predicate IsDone(c: Cursor) {
    match c
    case ListCur(rest) => rest == []
    case CatCur(parts) => forall i :: 0 <= i < |parts| ==> IsDone(parts[i])
    case OrCur(_, _, live) => !live
    case AndCur(_, live) => !live
  }

  /** `s1 + s2`, `s1 | s2` and, for two plain lists, `s1 & s2`. */
  function Cat(c1: Cursor, c2: Cursor): Cursor { CatCur([c1, c2]) }

  function Or(c1: Cursor, c2: Cursor): Cursor { OrCur(c1, c2, true) }

  function And(s1: seq<Pred>, s2: seq<Pred>): Cursor {
    AndCur(Zip(s1, s2), true)
  }

  function Zip(s1: seq<Pred>, s2: seq<Pred>): (z: seq<(Pred, Pred)>)
    ensures |z| == Min(|s1|, |s2|)
  {
    seq(Min(|s1|, |s2|), i requires 0 <= i < Min(|s1|, |s2|) => (s1[i], s2[i]))
  }

  function Both(v1: Verdict, v2: Verdict): Verdict {
    if v1 == Pass then v2 else v1
  }

  /** A branch that is used up passes for free. */
  function TickOrPass(c: Cursor, t: nat): (Verdict, Cursor)
    decreases c, 1
  {
    if IsDone(c) then (Pass, c) else Tick(c, t)
  }

  /** Calls the current predicate at cycle `t`; on a pass the iterator moves on. */
  function Tick(c: Cursor, t: nat): (Verdict, Cursor)
    requires !IsDone(c)
    decreases c, 0
  {
    match c
    case ListCur(rest) =>
      var v := rest[0](t);
      (v, if v == Pass then ListCur(rest[1..]) else c)
    case CatCur(parts) =>
      var k := FirstOpen(parts);
      var (v, p) := Tick(parts[k], t);
      (v, CatCur([p] + parts[k + 1..]))
    case OrCur(c1, c2, _) =>
      var (v1, d1) := TickOrPass(c1, t);
      if v1 == Pass then (Pass, OrCur(d1, c2, !IsDone(d1) && !IsDone(c2)))
      else if v1 != Wait then (v1, OrCur(d1, c2, true))
      else
        var (v2, d2) := TickOrPass(c2, t);
        (v2, OrCur(d1, d2, v2 != Pass || (!IsDone(d1) && !IsDone(d2))))
    case AndCur(pairs, _) =>
      if pairs == [] then (Pass, AndCur([], false))
      else
        var v := Both(pairs[0].0(t), pairs[0].1(t));
        (v, if v == Pass then AndCur(pairs[1..], pairs[1..] != []) else c)
  }

  function FirstOpen(parts: seq<Cursor>): (k: nat)
    requires !forall i :: 0 <= i < |parts| ==> IsDone(parts[i])
    ensures k < |parts| && !IsDone(parts[k])
    decreases |parts|
  {
    if !IsDone(parts[0]) then 0
    else
      assert exists i :: 0 <= i < |parts[1..]| && !IsDone(parts[1..][i]) by {
        var i :| 0 <= i < |parts| && !IsDone(parts[i]);
        assert parts[1..][i - 1] == parts[i];
      }
      1 + FirstOpen(parts[1..])
  }

  // ---------------------------------------------------------------------
  // Restarting
  // ---------------------------------------------------------------------

  /** The iterator without the predicate it has handed out; combined predicates hand themselves out again. */
  function Discard(c: Cursor): Cursor {
    match c
    case ListCur(rest) => if rest == [] then c else ListCur(rest[1..])
    case CatCur(parts) =>
      if IsDone(c) then c
      else
        var k := FirstOpen(parts);
        CatCur([Discard(parts[k])] + parts[k + 1..])
    case _ => c
  }

  /**
    Iterating the sequence `start` again when its iterator has come to `c`: a
    list starts over, but a concatenation and a conjunction can be iterated
    only once and go on behind the predicate they have handed out.
   */
  function Again(start: Cursor, c: Cursor): Cursor
    decreases start
  {
    match (start, c)
    case (OrCur(s1, s2, _), OrCur(c1, c2, _)) => OrCur(Again(s1, c1), Again(s2, c2), true)
    case (CatCur(_), CatCur(_)) => Discard(c)
    case (AndCur(_, _), AndCur(pairs, _)) => AndCur(if pairs == [] then [] else pairs[1..], true)
    case _ => start
  }
}
