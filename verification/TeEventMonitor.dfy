/**
  The monitor that counts target error pulses, one signal for each error type,
  and raises on a type that is not expected.
 */
module TeEventMonitor {
  import opened Wrappers

  const TYPES: nat := 7

  /** One clock edge; `None` is X or Z. */
  datatype Sample = Sample(errors: seq<Option<Bit>>, fsmState: Option<nat>)

  predicate Complete(ss: seq<Sample>) {
    forall i :: 0 <= i < |ss| ==> |ss[i].errors| == TYPES
  }

  /** The signal becomes 1; undefined is not 1. */
  predicate Rise(ss: seq<Sample>, i: nat, n: nat)
    requires i < |ss| && Complete(ss) && n < TYPES
  {
    ss[i].errors[n] == Some(1) && (i == 0 || ss[i - 1].errors[n] != Some(1))
  }

  /** Error pulses of type `n` in the first `k` samples. */
  function Pulses(ss: seq<Sample>, n: nat, k: nat): nat
    requires k <= |ss| && Complete(ss) && n < TYPES
  {
    if k == 0 then 0 else Pulses(ss, n, k - 1) + (if Rise(ss, k - 1, n) then 1 else 0)
  }

  /** A pulse the monitor cannot pass: nobody expects it, or it cannot be described. */
  predicate Stops(ss: seq<Sample>, i: nat, n: nat, expected: set<nat>)
    requires i < |ss| && Complete(ss) && n < TYPES
  {
    Rise(ss, i, n) && (n !in expected || ss[i].fsmState.None?)
  }

  /** Nothing stops the monitor before signal `n` of sample `i`. */
  predicate Passes(ss: seq<Sample>, i: nat, n: nat, expected: set<nat>)
    requires i <= |ss| && Complete(ss) && n <= TYPES && (i == |ss| ==> n == 0)
  {
    && (forall j, m :: 0 <= j < i && 0 <= m < TYPES ==> !Stops(ss, j, m, expected))
    && (forall m :: 0 <= m < n ==> !Stops(ss, i, m, expected))
  }

  /** The pulse that stops the monitor. */
  predicate FirstStop(ss: seq<Sample>, i: nat, n: nat, expected: set<nat>)
    requires Complete(ss)
  {
    i < |ss| && n < TYPES && Stops(ss, i, n, expected) && Passes(ss, i, n, expected)
  }

  lemma FirstStopUnique(ss: seq<Sample>, i: nat, n: nat, j: nat, m: nat, expected: set<nat>)
    requires Complete(ss) && FirstStop(ss, i, n, expected) && FirstStop(ss, j, m, expected)
    ensures i == j && n == m
  {
    hide Stops;
  }

  lemma NoStopIffPasses(ss: seq<Sample>, expected: set<nat>)
    requires Complete(ss) && Passes(ss, |ss|, 0, expected)
    ensures forall i: nat, n: nat :: !FirstStop(ss, i, n, expected)
  {
    hide Stops;
  }

  /** A single pulse at an undefined FSM state stops the monitor, whether it is expected or not. */
  lemma UndefinedStateStops(expected: set<nat>)
    ensures var ss := [Sample([Some(1), Some(0), Some(0), Some(0), Some(0), Some(0), Some(0)], None)];
      Complete(ss) && FirstStop(ss, 0, 0, expected) && ss[0].fsmState.None?
  {
  }

  /** Pulses are counted, so there is at least one low sample between two of them, and none if the signal stays low. */
  lemma {:induction false} PulsesAlternate(ss: seq<Sample>, n: nat, k: nat)
    requires k <= |ss| && Complete(ss) && n < TYPES
    ensures 2 * Pulses(ss, n, k) <= k + (if k > 0 && ss[k - 1].errors[n] == Some(1) then 1 else 0)
    ensures Pulses(ss, n, k) == 0 <==> forall i :: 0 <= i < k ==> ss[i].errors[n] != Some(1)
    decreases k
  {
    if k > 0 { PulsesAlternate(ss, n, k - 1); }
  }

  /** An undefined error signal reads as 0. */
  function Val(s: Sample, n: nat): Bit
    requires n < |s.errors|
  {
    if s.errors[n].Some? then s.errors[n].value else 0
  }

  /** `Unexpected`: raised and recorded; `Crashed`: an uncaught conversion error, which leaves no record. */
  datatype Outcome = Ran | Unexpected(at: nat, error: nat) | Crashed(at: nat, error: nat)

  class TeErrorEventMonitor {
    var errorCounts: seq<nat>
    var prev: seq<Bit>
    var expected: set<nat>
    var unexpected: seq<nat>

    predicate Valid() reads this { |errorCounts| == TYPES && |prev| == TYPES }

    constructor ()
      ensures Valid() && errorCounts == seq(TYPES, _ => 0) && prev == seq(TYPES, _ => 0)
      ensures expected == {} && unexpected == []
    {
      errorCounts, prev, expected, unexpected := seq(TYPES, _ => 0), seq(TYPES, _ => 0), {}, [];
    }

    method ExpectError(types: seq<nat>)
      modifies this`expected
      ensures expected == old(expected) + set n | n in types
    {
      var i := 0;
      while i < |types|
        invariant 0 <= i <= |types| && expected == old(expected) + set n | n in types[..i]
      {
        assert types[..i + 1] == types[..i] + [types[i]];
        expected := expected + {types[i]};
        i := i + 1;
      }
      assert types[..i] == types;
    }

    method ClearExpectations()
      modifies this`expected
      ensures expected == {}
    {
      expected := {};
    }

    /** Raises when anything unexpected has been recorded. */
    method Check() returns (raised: bool)
      ensures raised <==> unexpected != []
    {
      raised := unexpected != [];
    }

    method ResetCounts()
      requires Valid()
      modifies this`errorCounts
      ensures Valid() && errorCounts == seq(TYPES, _ => 0)
    {
      errorCounts := seq(TYPES, _ => 0);
    }

    /** The counts at signal `n` of sample `i`. */
    ghost predicate Counted(base: seq<nat>, ss: seq<Sample>, i: nat, n: nat)
      requires i <= |ss| && Complete(ss) && n <= TYPES && (i == |ss| ==> n == 0) && |base| == TYPES
      reads this
    {
      |errorCounts| == TYPES &&
      forall m: nat :: m < TYPES ==> errorCounts[m] == base[m] + Pulses(ss, m, if m < n then i + 1 else i)
    }

    /** All error signals of one sample; `k < TYPES` when signal `k` stopped the monitor. */
    method OneSample(ghost base: seq<nat>, ss: seq<Sample>, i: nat) returns (k: nat)
      requires i < |ss| && Complete(ss) && |base| == TYPES
      requires Counted(base, ss, i, 0) && |prev| == TYPES
      requires forall m :: 0 <= m < TYPES ==> prev[m] == (if i == 0 then 0 else Val(ss[i - 1], m))
      modifies this`errorCounts, this`prev, this`unexpected
      ensures Valid() && k <= TYPES && (forall m :: 0 <= m < k ==> !Stops(ss, i, m, expected))
      ensures k == TYPES ==> Counted(base, ss, i + 1, 0) && unexpected == old(unexpected) &&
                             forall m :: 0 <= m < TYPES ==> prev[m] == Val(ss[i], m)
      ensures k < TYPES ==> Stops(ss, i, k, expected) &&
                            if ss[i].fsmState.Some?
                            then unexpected == old(unexpected) + [k] && Counted(base, ss, i, k + 1)
                            else unexpected == old(unexpected) && Counted(base, ss, i, k)
    {
      hide Pulses;
      k := 0;
      while k < TYPES
        invariant 0 <= k <= TYPES && |prev| == TYPES && unexpected == old(unexpected)
        invariant Counted(base, ss, i, k)
        invariant forall m :: 0 <= m < TYPES ==>
          prev[m] == (if m < k then Val(ss[i], m) else if i == 0 then 0 else Val(ss[i - 1], m))
        invariant forall m :: 0 <= m < k ==> !Stops(ss, i, m, expected)
      {
        PulsesNext(ss, k, i);
        var val := Val(ss[i], k);
        if val == 1 && prev[k] == 0 {
          if ss[i].fsmState.None? { return; }
          errorCounts := errorCounts[k := errorCounts[k] + 1];
          if k !in expected {
            unexpected := unexpected + [k];
            return;
          }
        }
        prev := prev[k := val];
        k := k + 1;
      }
    }

    /**
      Watches a trace.  The monitor gets through it exactly when every pulse is
      of an expected type and comes with a known FSM state, and has then counted
      every pulse.  Otherwise it stops at the first other pulse, and leaves no
      record of it exactly when that pulse comes with an undefined FSM state.
     */
    method Run(ss: seq<Sample>) returns (r: Outcome)
      requires Valid() && Complete(ss) && prev == seq(TYPES, _ => 0)
      modifies this`errorCounts, this`prev, this`unexpected
      ensures Valid()
      ensures r.Ran? <==> Passes(ss, |ss|, 0, expected)
      ensures r.Ran? ==> Counted(old(errorCounts), ss, |ss|, 0) && unexpected == old(unexpected)
      ensures !r.Ran? ==> FirstStop(ss, r.at, r.error, expected)
      ensures r.Unexpected? ==> unexpected == old(unexpected) + [r.error] && r.error !in expected &&
                                ss[r.at].fsmState.Some? && Counted(old(errorCounts), ss, r.at, r.error + 1)
      ensures r.Crashed? ==> unexpected == old(unexpected) && Counted(old(errorCounts), ss, r.at, r.error)
      ensures r.Crashed? <==> exists i: nat, n: nat :: FirstStop(ss, i, n, expected) && ss[i].fsmState.None?
    {
      hide Pulses, Rise;
      ghost var base := errorCounts;
      StartsCounted(ss);
      var i := 0;
      while i < |ss|
        invariant 0 <= i <= |ss| && Valid() && Counted(base, ss, i, 0) && unexpected == old(unexpected)
        invariant forall m :: 0 <= m < TYPES ==> prev[m] == (if i == 0 then 0 else Val(ss[i - 1], m))
        invariant Passes(ss, i, 0, expected)
      {
        var k := OneSample(base, ss, i);
        if k < TYPES {
          assert FirstStop(ss, i, k, expected);
          forall j: nat, m: nat | FirstStop(ss, j, m, expected) ensures j == i {
            FirstStopUnique(ss, i, k, j, m, expected);
          }
          return if ss[i].fsmState.None? then Crashed(i, k) else Unexpected(i, k);
        }
        i := i + 1;
      }
      NoStopIffPasses(ss, expected);
      r := Ran;
    }
  }

  lemma PulsesNext(ss: seq<Sample>, n: nat, i: nat)
    requires i < |ss| && Complete(ss) && n < TYPES
    ensures Pulses(ss, n, i + 1) == Pulses(ss, n, i) + (if Rise(ss, i, n) then 1 else 0)
  {
  }

  lemma StartsCounted(ss: seq<Sample>)
    requires Complete(ss)
    ensures forall n: nat :: n < TYPES ==> Pulses(ss, n, 0) == 0
  {
  }
}
