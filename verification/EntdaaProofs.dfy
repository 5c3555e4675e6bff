/**
  ENTDAA assigns the addresses in the order of the targets' identities, for any
  number of targets and addresses; and what each fault injection does to it.
 */
module EntdaaProofs {
  import opened Wrappers
  import opened Bits
  import opened WiredAnd
  import opened Entdaa

  /** Identities are 64-bit and distinct, and nobody is waiting for a STOP. */
  predicate Fit(ts: seq<Target>) {
    && (forall k :: 0 <= k < |ts| ==> ts[k].id < Pow2(ID_BITS) && !ts[k].waitsForStop)
    && (forall j, k :: 0 <= j < k < |ts| ==> ts[j].id != ts[k].id)
  }

  /** The identities still without an address. */
  function Free(ts: seq<Target>): set<nat> {
    set k | 0 <= k < |ts| && ts[k].addr.None? :: ts[k].id
  }

  /** The 64 bits an entry was parsed from. */
  function IdOf(e: Entry): nat
    requires e.pid.Some? && e.bcr.Some? && e.dcr.Some?
  {
    e.pid.value * 0x1_0000 + e.bcr.value * 0x100 + e.dcr.value
  }

  lemma Pow2By4(n: nat)
    ensures Pow2(n + 4) == 16 * Pow2(n)
  {
    assert Pow2(n + 2) == 4 * Pow2(n);
  }

  lemma Pow2Of64()
    ensures Pow2(64) == 0x1_0000_0000_0000_0000
  {
    Pow2By4(0); Pow2By4(4); Pow2By4(8); Pow2By4(12); Pow2By4(16); Pow2By4(20); Pow2By4(24); Pow2By4(28);
    Pow2By4(32); Pow2By4(36); Pow2By4(40); Pow2By4(44); Pow2By4(48); Pow2By4(52); Pow2By4(56); Pow2By4(60);
  }

  /** PID, BCR and DCR lose nothing of the identity. */
  lemma IdentityRecombines(bits: nat, addr: Address, ack: bool)
    requires bits < Pow2(ID_BITS)
    ensures IdOf(Identity(bits, addr, ack)) == bits
  {
    Pow2Of64();
    hide Pow2;
    var hi, lo := bits / 0x1_0000, bits % 0x1_0000;
    assert hi < 0x1_0000_0000_0000;
    assert bits / 0x100 % 0x100 == lo / 0x100 && bits % 0x100 == lo % 0x100;
  }

  // ---------------------------------------------------------------------
  // One round
  // ---------------------------------------------------------------------

  /** What one round with identity `v` and address `addr` leaves of a target. */
  function Served(t: Target, v: nat, addr: Address): Target {
    if t.addr.None? && t.id == v then t.(addr := Some(addr)) else t
  }

  /** The race among the free targets is won by the least free identity. */
  lemma RaceForAddress(ts: seq<Target>) returns (v: nat)
    requires Fit(ts) && Free(ts) != {}
    ensures exists k :: 0 <= k < |ts| && Joins(ts[k], false)
    ensures v in Free(ts) && (forall x :: x in Free(ts) ==> v <= x)
    ensures var r := RaceFrom(Race(0, Drivers(ts, false)), 0);
      r.bits == v && |r.ds| == |ts| &&
      forall k :: 0 <= k < |ts| ==> (r.ds[k].active <==> ts[k].addr.None? && ts[k].id == v)
  {
    hide Pow2, RaceFrom;
    var ds := Drivers(ts, false);
    var x :| x in Free(ts);
    var w :| 0 <= w < |ts| && ts[w].addr.None? && ts[w].id == x;
    assert ds[w].joined;
    LeastWins(ds);
    v := RaceFrom(Race(0, ds), 0).bits;
    var m :| 0 <= m < |ds| && ds[m].joined && ds[m].word == v;
    assert Joins(ts[m], false);
    forall y | y in Free(ts) ensures v <= y {
      var j :| 0 <= j < |ts| && ts[j].addr.None? && ts[j].id == y;
      assert ds[j].joined;
    }
  }

  /** The winner alone takes the address. */
  lemma RoundServesLeast(ts: seq<Target>, addr: Address) returns (v: nat)
    requires Fit(ts) && Free(ts) != {}
    ensures v in Free(ts) && (forall x :: x in Free(ts) ==> v <= x)
    ensures OneRound(ts, addr, false, false) ==
            Assigned(seq(|ts|, k requires 0 <= k < |ts| => Served(ts[k], v, addr)), Identity(v, addr, true))
  {
    hide Pow2, RaceFrom, AddressByte, Identity, Drivers, Ones;
    assert AfterHeader(ts, false) == ts;
    var b := AddressByte(addr, false);
    AddressByteDecodes(addr, false);
    v := RaceForAddress(ts);
    var r := RaceFrom(Race(0, Drivers(ts, false)), 0);
    var m :| 0 <= m < |ts| && ts[m].addr.None? && ts[m].id == v;
    assert r.ds[m].active && Accepts(ts[m], b);
    assert AfterAddress(ts, r.ds, b) == seq(|ts|, k requires 0 <= k < |ts| => Served(ts[k], v, addr));
  }

  lemma FreeHas(ts: seq<Target>, k: nat)
    requires k < |ts|
    ensures ts[k].addr.None? ==> ts[k].id in Free(ts)
  {
  }

  lemma RoundWithoutFree(ts: seq<Target>, addr: Address)
    requires Fit(ts) && Free(ts) == {}
    ensures OneRound(ts, addr, false, false) == NoMore(ts)
  {
    assert AfterHeader(ts, false) == ts;
    forall k | 0 <= k < |ts| ensures !Joins(ts[k], false) {
      FreeHas(ts, k);
    }
  }

  lemma ServedKeepsFit(ts: seq<Target>, v: nat, addr: Address)
    requires Fit(ts) && v in Free(ts)
    ensures var ts1 := seq(|ts|, k requires 0 <= k < |ts| => Served(ts[k], v, addr));
      Fit(ts1) && Free(ts1) == Free(ts) - {v}
  {
    hide Pow2;
    var ts1 := seq(|ts|, k requires 0 <= k < |ts| => Served(ts[k], v, addr));
    forall x ensures x in Free(ts1) <==> x in Free(ts) && x != v {
      if x in Free(ts) && x != v {
        var k :| 0 <= k < |ts| && ts[k].addr.None? && ts[k].id == x;
        assert ts1[k] == ts[k];
      }
      if x in Free(ts1) {
        var k :| 0 <= k < |ts1| && ts1[k].addr.None? && ts1[k].id == x;
        assert ts[k].id == x && ts[k].addr.None?;
      }
    }
  }

  // ---------------------------------------------------------------------
  // The whole procedure
  // ---------------------------------------------------------------------

  /** `ids` are the least free identities in increasing order, at most `n` of them. */
  predicate LeastInOrder(ids: seq<nat>, free: set<nat>, n: nat) {
    && |ids| == Min(|free|, n)
    && (forall i, j :: 0 <= i < j < |ids| ==> ids[i] < ids[j])
    && (forall i :: 0 <= i < |ids| ==> ids[i] in free)
    && (forall x, i :: x in free && x !in ids && 0 <= i < |ids| ==> ids[i] < x)
  }

  /** Entry `i` reports identity `ids[i]`; one more entry without an ACK when addresses are left over. */
  predicate Reported(results: seq<Entry>, ids: seq<nat>, addrs: seq<Address>) {
    && |ids| <= |addrs|
    && |results| == |ids| + (if |ids| < |addrs| then 1 else 0)
    && (forall i :: 0 <= i < |ids| ==> results[i] == Identity(ids[i], addrs[i], true))
    && (|ids| < |addrs| ==> results[|ids|] == Entry(None, None, None, addrs[|ids|], false))
  }

  /** The target with identity `ids[i]` holds `addrs[i]`; everybody else is as before. */
  predicate Distributed(ts: seq<Target>, ts1: seq<Target>, ids: seq<nat>, addrs: seq<Address>) {
    && |ts1| == |ts| && |ids| <= |addrs|
    && forall k :: 0 <= k < |ts| ==>
         && (ts[k].addr.Some? || ts[k].id !in ids ==> ts1[k] == ts[k])
         && (forall i :: 0 <= i < |ids| && ts[k].addr.None? && ts[k].id == ids[i] ==>
                ts1[k] == ts[k].(addr := Some(addrs[i])))
  }

  lemma NobodyServed(ts: seq<Target>, addrs: seq<Address>, results: seq<Entry>)
    requires addrs == [] || Free(ts) == {}
    requires results == if addrs == [] then [] else [Entry(None, None, None, addrs[0], false)]
    ensures LeastInOrder([], Free(ts), |addrs|) && Reported(results, [], addrs) && Distributed(ts, ts, [], addrs)
  {
  }

  lemma {:induction false} RoundsInOrder(ts: seq<Target>, addrs: seq<Address>, k: nat, results: seq<Entry>)
    returns (ids: seq<nat>)
    requires Fit(ts) && k <= |addrs|
    ensures LeastInOrder(ids, Free(ts), |addrs| - k)
    ensures var d := Rounds(ts, addrs, k, false, false, None, results);
      && |d.results| >= |results| && d.results[..|results|] == results
      && Reported(d.results[|results|..], ids, addrs[k..])
      && Distributed(ts, d.ts, ids, addrs[k..])
    decreases |addrs| - k
  {
    hide OneRound, Fit, Pow2, Identity, LeastInOrder, Reported, Distributed, Free;
    ids := [];
    if k == |addrs| {
      NobodyServed(ts, addrs[k..], []);
    } else {
      if Free(ts) == {} {
        RoundWithoutFree(ts, addrs[k]);
        NobodyServed(ts, addrs[k..], [Entry(None, None, None, addrs[k], false)]);
        var d := Rounds(ts, addrs, k, false, false, None, results);
        assert d.results[|results|..] == [Entry(None, None, None, addrs[k], false)];
      } else {
        var v := RoundServesLeast(ts, addrs[k]);
        var ts1 := seq(|ts|, j requires 0 <= j < |ts| => Served(ts[j], v, addrs[k]));
        var e := Identity(v, addrs[k], true);
        ServedKeepsFit(ts, v, addrs[k]);
        var later := RoundsInOrder(ts1, addrs, k + 1, results + [e]);
        ids := [v] + later;
        Prepend(ts, ts1, v, later, addrs, k, results, Rounds(ts1, addrs, k + 1, false, false, None, results + [e]));
      }
    }
  }

  /** One served round in front of the later ones. */
  lemma Prepend(ts: seq<Target>, ts1: seq<Target>, v: nat, later: seq<nat>, addrs: seq<Address>, k: nat,
                results: seq<Entry>, d: Daa)
    requires k < |addrs| && v in Free(ts) && (forall x :: x in Free(ts) ==> v <= x)
    requires |ts1| == |ts| && forall j :: 0 <= j < |ts| ==> ts1[j] == Served(ts[j], v, addrs[k])
    requires Free(ts1) == Free(ts) - {v} && LeastInOrder(later, Free(ts1), |addrs| - k - 1)
    requires |d.results| >= |results| + 1 && d.results[..|results| + 1] == results + [Identity(v, addrs[k], true)]
    requires Reported(d.results[|results| + 1..], later, addrs[k + 1..])
    requires Distributed(ts1, d.ts, later, addrs[k + 1..])
    ensures LeastInOrder([v] + later, Free(ts), |addrs| - k)
    ensures d.results[..|results|] == results
    ensures Reported(d.results[|results|..], [v] + later, addrs[k..])
    ensures Distributed(ts, d.ts, [v] + later, addrs[k..])
  {
    hide Identity;
    PrependOrder(v, later, Free(ts), |addrs| - k);
    assert d.results[..|results|] == (results + [Identity(v, addrs[k], true)])[..|results|];
    assert d.results[|results|] == (results + [Identity(v, addrs[k], true)])[|results|];
    PrependReport(d.results[|results|..], v, later, addrs[k..]);
    assert v !in later by { assert v !in Free(ts1); }
    PrependShares(ts, ts1, d.ts, v, later, addrs[k..]);
  }

  lemma PrependOrder(v: nat, later: seq<nat>, free: set<nat>, n: nat)
    requires n >= 1 && v in free && (forall x :: x in free ==> v <= x) && LeastInOrder(later, free - {v}, n - 1)
    ensures LeastInOrder([v] + later, free, n)
  {
    var ids := [v] + later;
    forall x, i | x in free && x !in ids && 0 <= i < |ids| ensures ids[i] < x {
      assert v in ids && x != v;
      if i > 0 { assert ids[i] == later[i - 1] && x !in later; }
    }
    forall i, j | 0 <= i < j < |ids| ensures ids[i] < ids[j] {
      assert ids[j] == later[j - 1] && ids[j] in free - {v};
    }
  }

  lemma PrependReport(results: seq<Entry>, v: nat, later: seq<nat>, addrs: seq<Address>)
    requires |addrs| >= 1 && |results| >= 1 && results[0] == Identity(v, addrs[0], true)
    requires Reported(results[1..], later, addrs[1..])
    ensures Reported(results, [v] + later, addrs)
  {
    hide Identity;
    forall i | 0 <= i < |later| + 1 ensures results[i] == Identity(([v] + later)[i], addrs[i], true) {
      if i > 0 { assert results[i] == results[1..][i - 1]; }
    }
  }

  lemma PrependShares(ts: seq<Target>, ts1: seq<Target>, ts2: seq<Target>, v: nat, later: seq<nat>, addrs: seq<Address>)
    requires |addrs| >= 1 && |ts1| == |ts| && forall j :: 0 <= j < |ts| ==> ts1[j] == Served(ts[j], v, addrs[0])
    requires Distributed(ts1, ts2, later, addrs[1..]) && v !in later
    ensures Distributed(ts, ts2, [v] + later, addrs)
  {
    var ids := [v] + later;
    forall k | 0 <= k < |ts|
      ensures ts[k].addr.Some? || ts[k].id !in ids ==> ts2[k] == ts[k]
    {
      assert v in ids && forall x :: x in later ==> x in ids;
    }
    forall k, i | 0 <= k < |ts| && 0 <= i < |ids| && ts[k].addr.None? && ts[k].id == ids[i]
      ensures ts2[k] == ts[k].(addr := Some(addrs[i]))
    {
      if i > 0 { assert later[i - 1] == ids[i] && addrs[1..][i - 1] == addrs[i]; }
    }
  }

  /**
    Without faults: the i-th address goes to the target with the i-th least
    identity, each such target gets exactly one address, and a last entry
    without an ACK appears exactly when addresses are left over.
   */
  lemma AssignsInOrder(ts: seq<Target>, addrs: seq<Address>) returns (ids: seq<nat>)
    requires Fit(ts)
    ensures LeastInOrder(ids, Free(ts), |addrs|)
    ensures var d := Procedure(ts, addrs, false, false, None);
      Reported(d.results, ids, addrs) && Distributed(ts, d.ts, ids, addrs)
  {
    hide OneRound, Pow2, Identity;
    ids := RoundsInOrder(ts, addrs, 0, []);
    var d := Rounds(ts, addrs, 0, false, false, None, []);
    assert addrs[0..] == addrs && d.results[0..] == d.results;
    assert AfterStop(d.ts) == d.ts by {
      forall k | 0 <= k < |ts| ensures !d.ts[k].waitsForStop {
        if ts[k].addr.None? && ts[k].id in ids { var i :| 0 <= i < |ids| && ids[i] == ts[k].id; }
      }
    }
  }

  /** Distinct addresses stay distinct: no two targets are given the same one. */
  lemma NoAddressTwice(ts: seq<Target>, addrs: seq<Address>, j: nat, k: nat)
    requires Fit(ts) && j < k < |ts| && ts[j].addr.None? && ts[k].addr.None?
    requires forall i, l :: 0 <= i < l < |addrs| ==> addrs[i] != addrs[l]
    ensures var d := Procedure(ts, addrs, false, false, None);
      |d.ts| == |ts| && (d.ts[j].addr.Some? ==> d.ts[j].addr != d.ts[k].addr)
  {
    hide OneRound, Pow2;
    var ids := AssignsInOrder(ts, addrs);
    var d := Procedure(ts, addrs, false, false, None);
    if d.ts[j].addr.Some? && d.ts[k].addr.Some? {
      var i :| 0 <= i < |ids| && ids[i] == ts[j].id;
      var l :| 0 <= l < |ids| && ids[l] == ts[k].id;
      assert addrs[i] != addrs[l];
    }
  }

  // ---------------------------------------------------------------------
  // Fault injection
  // ---------------------------------------------------------------------

  /** A flipped parity is refused by targets that check it: nobody moves, and the round is lost. */
  lemma BadParityRound(ts: seq<Target>, addr: Address)
    requires Fit(ts) && Free(ts) != {} && forall k :: 0 <= k < |ts| ==> ts[k].checksParity
    ensures var r := OneRound(ts, addr, true, false);
      r.Assigned? && r.ts == ts && !r.entry.ack && r.entry.pid.Some?
  {
    hide RaceFrom, Pow2, AddressByte, Ones;
    AddressByteDecodes(addr, true);
    assert AfterHeader(ts, false) == ts;
    var x :| x in Free(ts);
    var w :| 0 <= w < |ts| && ts[w].addr.None? && ts[w].id == x;
    assert Joins(ts[w], false);
    RaceKeepsLength(Race(0, Drivers(ts, false)), 0);
    assert forall k :: 0 <= k < |ts| ==> !Accepts(ts[k], AddressByte(addr, true));
  }

  lemma {:induction false} BadParityRounds(ts: seq<Target>, addrs: seq<Address>, k: nat, results: seq<Entry>)
    requires Fit(ts) && Free(ts) != {} && (forall i :: 0 <= i < |ts| ==> ts[i].checksParity) && k <= |addrs|
    ensures var d := Rounds(ts, addrs, k, true, false, None, results);
      && d.ts == ts && |d.results| == |results| + |addrs| - k && results <= d.results
      && forall i :: |results| <= i < |d.results| ==> !d.results[i].ack && d.results[i].pid.Some?
    decreases |addrs| - k
  {
    hide OneRound, Pow2, Free;
    if k < |addrs| {
      BadParityRound(ts, addrs[k]);
      BadParityRounds(ts, addrs, k + 1, results + [OneRound(ts, addrs[k], true, false).entry]);
    }
  }

  /**
    With the parity flipped, targets that check it refuse every address: each
    round reads an identity and is not acknowledged, and nobody moves.
   */
  lemma BadParityAssignsNobody(ts: seq<Target>, addrs: seq<Address>)
    requires Fit(ts) && Free(ts) != {} && forall k :: 0 <= k < |ts| ==> ts[k].checksParity
    ensures var d := Procedure(ts, addrs, true, false, None);
      && d.ts == ts && |d.results| == |addrs|
      && forall i :: 0 <= i < |addrs| ==> !d.results[i].ack && d.results[i].pid.Some?
  {
    hide Rounds, Free, Pow2;
    BadParityRounds(ts, addrs, 0, []);
    assert AfterStop(ts) == ts;
  }

  /** 7E/W in place of 7E/R: targets that check the header all refuse, and the procedure ends at once. */
  lemma BadHeaderEndsProcedure(ts: seq<Target>, addrs: seq<Address>)
    requires Fit(ts) && addrs != [] && forall k :: 0 <= k < |ts| ==> ts[k].checksHeader
    ensures Procedure(ts, addrs, false, true, None) == Daa([Entry(None, None, None, addrs[0], false)], ts)
  {
    assert OneRound(ts, addrs[0], false, true) == NoMore(AfterHeader(ts, true));
    assert AfterStop(AfterHeader(ts, true)) == ts;
    assert [] + [Entry(None, None, None, addrs[0], false)] == [Entry(None, None, None, addrs[0], false)];
  }

  lemma {:induction false} OutOfRace(r: Race, i: nat, k: nat)
    requires i <= ID_BITS && k < |r.ds| && !r.ds[k].active
    ensures k < |RaceFrom(r, i).ds| && !RaceFrom(r, i).ds[k].active
    decreases ID_BITS - i
  {
    hide Level, MsbBit;
    if i < ID_BITS { OutOfRace(RaceStep(r, i), i + 1, k); }
  }

  /** A target that takes no part in a round, and was not refused in it before, is left as it was. */
  lemma BystanderKept(ts: seq<Target>, addr: Address, te3: bool, te4: bool, k: nat)
    requires k < |ts| && !Joins(ts[k], te4) && (ts[k].waitsForStop || ts[k].addr.Some?)
    ensures var r := OneRound(ts, addr, te3, te4); |r.ts| == |ts| && r.ts[k] == ts[k]
  {
    hide RaceFrom, AddressByte, Ones;
    RaceKeepsLength(Race(0, Drivers(ts, te4)), 0);
    OutOfRace(Race(0, Drivers(ts, te4)), 0, k);
  }

  /** A free target that meets a 7E/W it checks waits for the STOP from then on. */
  lemma RefusedWaits(ts: seq<Target>, addr: Address, te3: bool, k: nat)
    requires k < |ts| && ts[k].addr.None? && ts[k].checksHeader
    ensures var r := OneRound(ts, addr, te3, true); |r.ts| == |ts| && r.ts[k] == ts[k].(waitsForStop := true)
  {
    hide RaceFrom, AddressByte, Ones;
    RaceKeepsLength(Race(0, Drivers(ts, true)), 0);
    OutOfRace(Race(0, Drivers(ts, true)), 0, k);
  }

  /**
    A target that waits for the STOP is given no address in any round, whatever
    is injected into it, and waits on until the STOP.
   */
  lemma {:induction false} WaitingStaysOut(ts: seq<Target>, addrs: seq<Address>, n: nat, te3: bool, te4: bool,
                                           stopAfter: Option<nat>, results: seq<Entry>, k: nat)
    requires n <= |addrs| && k < |ts| && ts[k].waitsForStop
    ensures var d := Rounds(ts, addrs, n, te3, te4, stopAfter, results); |d.ts| == |ts| && d.ts[k] == ts[k]
    decreases |addrs| - n
  {
    hide OneRound;
    if n < |addrs| && !(stopAfter.Some? && n >= stopAfter.value) {
      BystanderKept(ts, addrs[n], te3, te4, k);
      var r := OneRound(ts, addrs[n], te3, te4);
      if r.Assigned? {
        WaitingStaysOut(r.ts, addrs, n + 1, te3, te4, stopAfter, results + [r.entry], k);
      }
    }
  }

  /** Stopping early is the same as offering fewer addresses. */
  lemma {:induction false} StopsEarly(ts: seq<Target>, addrs: seq<Address>, k: nat, n: nat, te3: bool, te4: bool,
                                      results: seq<Entry>)
    requires k <= n <= |addrs|
    ensures Rounds(ts, addrs, k, te3, te4, Some(n), results) == Rounds(ts, addrs[..n], k, te3, te4, None, results)
    decreases n - k
  {
    hide OneRound;
    if k < n {
      var r := OneRound(ts, addrs[k], te3, te4);
      if r.Assigned? { StopsEarly(r.ts, addrs, k + 1, n, te3, te4, results + [r.entry]); }
    }
  }
}
