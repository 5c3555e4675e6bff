/**
  ENTDAA as a listener on the bus hears it: the operations of a completed call,
  one after the other, and that the targets hold what was sent to them.
 */
module EntdaaWire {
  import opened Wrappers
  import opened Bits
  import opened ControllerModel
  import opened EntdaaBus
  import opened EntdaaProofs
  import W = ControllerOnBus
  import E = Entdaa

  /** 7E/R, or 7E/W won against everybody when the wrong direction is injected. */
  function Opens(te4: bool): Op {
    if te4 then ArbHeader(true, 0xFC) else Header(0x7E, true, false)
  }

  /** Answered rounds: Repeated START, header, and the byte behind the identity. */
  function RoundOps(bytes: seq<Byte>, te4: bool): seq<Op> {
    if bytes == [] then [] else [SendStart, Opens(te4), SendLegacy(bytes[0])] + RoundOps(bytes[1..], te4)
  }

  /** The i-th byte carries the i-th address, with an odd number of ones unless the parity fault is injected. */
  predicate Offers(bytes: seq<Byte>, addrs: seq<Address>, te3: bool) {
    |bytes| <= |addrs| &&
    forall i :: 0 <= i < |bytes| ==> bytes[i] / 2 == addrs[i] && (E.Ones(bytes[i]) % 2 == 1 <==> !te3)
  }

  /** Answered rounds report an identity; one more entry, without, stands for a header nobody answered. */
  predicate Entries(results: seq<E.Entry>, n: nat) {
    && n <= |results| <= n + 1
    && (forall i :: 0 <= i < n ==> results[i].pid.Some?)
    && (|results| == n + 1 ==> results[n].pid.None?)
  }

  lemma RoundHeaderOnBus(e: Env, s: Ctl, te4: bool)
    ensures var h := RoundHeader(e, s, te4); h.Answered? ==> h.s.trace == s.trace + [SendStart, Opens(te4)]
  {
    hide AddrHeader;
    W.WonHeader(e, Emit(s, SendStart), 0x7E, !te4);
    assert s.trace + [SendStart] + [Opens(te4)] == s.trace + [SendStart, Opens(te4)];
  }

  lemma {:induction false} RoundsOnBus(e: Env, s: Ctl, ts: seq<E.Target>, addrs: seq<Address>, k: nat, te3: bool,
                                       te4: bool, stopAfter: Option<nat>, results: seq<E.Entry>)
    returns (bytes: seq<Byte>)
    requires k <= |addrs|
    ensures var r := RoundsFrom(e, s, ts, addrs, k, te3, te4, stopAfter, results);
      r.Through? ==>
        && Offers(bytes, addrs[k..], te3) && results <= r.daa.results && Entries(r.daa.results[|results|..], |bytes|)
        && r.s.trace == s.trace + (RoundOps(bytes, te4) +
                                   if |r.daa.results| > |results| + |bytes| then [SendStart, Opens(te4)] else [])
    decreases |addrs| - k
  {
    hide RoundHeader, E.OneRound, E.AddressByte, E.Ones, Opens;
    bytes := [];
    if k < |addrs| && !(stopAfter.Some? && k >= stopAfter.value) {
      var h := RoundHeader(e, s, te4);
      RoundHeaderOnBus(e, s, te4);
      if h.Answered? {
        var r := E.OneRound(ts, addrs[k], te3, te4);
        if r.Assigned? {
          var b := E.AddressByte(addrs[k], te3);
          E.AddressByteDecodes(addrs[k], te3);
          HasIdentity(ts, addrs[k], te3, te4);
          var rest := RoundsOnBus(e, Emit(h.s, SendLegacy(b)), r.ts, addrs, k + 1, te3, te4, stopAfter,
                                  results + [r.entry]);
          bytes := [b] + rest;
          var end := RoundsFrom(e, s, ts, addrs, k, te3, te4, stopAfter, results);
          if end.Through? {
            PrependOffer(b, rest, addrs[k..], te3);
            PrependEntry(end.daa.results, results, r.entry, |rest|);
            PrependOps(s.trace, b, rest, te4, end.s.trace,
                       if |end.daa.results| > |results| + |bytes| then [SendStart, Opens(te4)] else []);
          }
        } else {
          assert s.trace + [SendStart, Opens(te4)] == s.trace + ([] + [SendStart, Opens(te4)]);
        }
      }
    }
  }

  lemma HasIdentity(ts: seq<E.Target>, addr: Address, te3: bool, te4: bool)
    ensures var r := E.OneRound(ts, addr, te3, te4); r.Assigned? ==> r.entry.pid.Some?
  {
    hide E.AddressByte, E.RaceFrom, E.AfterAddress, E.Drivers;
  }

  lemma PrependOffer(b: Byte, rest: seq<Byte>, addrs: seq<Address>, te3: bool)
    requires addrs != [] && b / 2 == addrs[0] && (E.Ones(b) % 2 == 1 <==> !te3) && Offers(rest, addrs[1..], te3)
    ensures Offers([b] + rest, addrs, te3)
  {
    hide E.Ones;
    var bytes := [b] + rest;
    forall i | 0 <= i < |bytes| ensures bytes[i] / 2 == addrs[i] && (E.Ones(bytes[i]) % 2 == 1 <==> !te3) {
      if i > 0 { assert bytes[i] == rest[i - 1] && addrs[i] == addrs[1..][i - 1]; }
    }
  }

  lemma PrependEntry(all: seq<E.Entry>, results: seq<E.Entry>, entry: E.Entry, n: nat)
    requires results + [entry] <= all && Entries(all[|results| + 1..], n) && entry.pid.Some?
    ensures results <= all && Entries(all[|results|..], n + 1)
  {
    var later := all[|results|..];
    assert later[0] == (results + [entry])[|results|];
    forall i | 0 < i < |later| ensures later[i] == all[|results| + 1..][i - 1] { }
  }

  lemma PrependOps(ops: seq<Op>, b: Byte, rest: seq<Byte>, te4: bool, end: seq<Op>, tail: seq<Op>)
    requires end == ((ops + [SendStart, Opens(te4)]) + [SendLegacy(b)]) + (RoundOps(rest, te4) + tail)
    ensures end == ops + (RoundOps([b] + rest, te4) + tail)
  {
    hide Opens;
    assert ([b] + rest)[1..] == rest;
    assert RoundOps([b] + rest, te4) == [SendStart, Opens(te4), SendLegacy(b)] + RoundOps(rest, te4);
  }

  lemma OpeningOnBus(e: Env, s: Ctl)
    ensures var h := Opening(e, s); h.Answered? ==> h.s.trace == s.trace + [TakeBus, SendStart, ArbHeader(true, 0xFC)]
  {
    hide AddrHeader;
    W.WonHeader(e, Emit(Emit(s, TakeBus), SendStart), 0x7E, false);
    assert s.trace + [TakeBus] + [SendStart] + [ArbHeader(true, 0xFC)] ==
           s.trace + [TakeBus, SendStart, ArbHeader(true, 0xFC)];
  }

  /**
    A completed call, operation by operation: 7E/W, the command 0x07, a round
    per address byte sent, one header more if nobody answered it, STOP, and the
    bus given back.  The i-th byte carries the i-th address and an odd number of
    ones, or an even number when the parity fault is injected.
   */
  lemma CompletedOnBus(e: Env, s: Ctl, ts: seq<E.Target>, addrs: seq<Address>, te3: bool, te4: bool,
                       stopAfter: Option<nat>)
    returns (bytes: seq<Byte>)
    requires Assign(e, s, ts, addrs, te3, te4, stopAfter).Ended?
    ensures var r := Assign(e, s, ts, addrs, te3, te4, stopAfter);
      && Offers(bytes, addrs, te3) && Entries(r.daa.results, |bytes|)
      && r.s.trace == s.trace + ([TakeBus, SendStart, ArbHeader(true, 0xFC), SendTbit(0x07, false)] +
                                 (RoundOps(bytes, te4) +
                                  ((if |r.daa.results| > |bytes| then [SendStart, Opens(te4)] else []) +
                                   [SendStop, GiveBus])))
  {
    hide Opening, RoundsFrom, E.AfterStop, RoundOps, Opens, Offers, Entries;
    OpeningOnBus(e, s);
    var s1 := Emit(Opening(e, s).s, SendTbit(0x07, false));
    bytes := RoundsOnBus(e, s1, ts, addrs, 0, te3, te4, stopAfter, []);
    assert addrs[0..] == addrs;
    var r := Assign(e, s, ts, addrs, te3, te4, stopAfter);
    assert r.daa.results[0..] == r.daa.results;
  }

  /**
    Without faults the targets hold what was sent to them: the target with the
    i-th least identity holds the upper seven bits of the i-th byte on the wire,
    there are as many bytes as targets or addresses, and no other target moves.
   */
  lemma TargetsHoldWhatWasSent(e: Env, s: Ctl, ts: seq<E.Target>, addrs: seq<Address>)
    returns (bytes: seq<Byte>, ids: seq<nat>)
    requires Fit(ts) && Assign(e, s, ts, addrs, false, false, None).Ended?
    ensures var r := Assign(e, s, ts, addrs, false, false, None);
      && LeastInOrder(ids, Free(ts), |addrs|) && |bytes| == |ids| && |r.daa.ts| == |ts|
      && r.s.trace == s.trace + ([TakeBus, SendStart, ArbHeader(true, 0xFC), SendTbit(0x07, false)] +
                                 (RoundOps(bytes, false) +
                                  ((if |r.daa.results| > |bytes| then [SendStart, Opens(false)] else []) +
                                   [SendStop, GiveBus])))
      && forall k :: 0 <= k < |ts| ==>
           && (ts[k].addr.Some? || ts[k].id !in ids ==> r.daa.ts[k] == ts[k])
           && (forall i :: 0 <= i < |ids| && ts[k].addr.None? && ts[k].id == ids[i] ==>
                 r.daa.ts[k].addr == Some(bytes[i] / 2))
  {
    hide Assign, RoundOps, Opens, E.Procedure, E.Identity, E.Ones, Fit, LeastInOrder, Free;
    bytes := CompletedOnBus(e, s, ts, addrs, false, false, None);
    CompletedIsProcedure(e, s, ts, addrs, false, false, None);
    ids := AssignsInOrder(ts, addrs);
    SameCount(E.Procedure(ts, addrs, false, false, None).results, |bytes|, ids, addrs);
  }

  lemma SameCount(results: seq<E.Entry>, n: nat, ids: seq<nat>, addrs: seq<Address>)
    requires Entries(results, n) && Reported(results, ids, addrs)
    ensures n == |ids|
  {
  }
}
