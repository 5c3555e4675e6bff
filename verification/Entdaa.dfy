/**
  Dynamic address assignment (ENTDAA) as a distributed protocol: the controller
  reads 64 identity bits off a wired-AND line, the targets race for it, and the
  winner takes the address.  Target behaviour follows the ENTDAA target FSM.
 */
module Entdaa {
  import opened Wrappers
  import opened Bits
  import opened WiredAnd

  const ID_BITS: nat := 64
  const ENTDAA_CODE: Byte := 0x07

  /** `id` is PID, BCR and DCR in one 64-bit word. */
  datatype Target = Target(id: nat, addr: Option<Address>, checksParity: bool, checksHeader: bool, waitsForStop: bool)

  datatype Entry = Entry(pid: Option<nat>, bcr: Option<nat>, dcr: Option<nat>, addr: Address, ack: bool)

  // ---------------------------------------------------------------------
  // Parity of the address byte
  // ---------------------------------------------------------------------

  function Ones(v: nat): nat {
    if v == 0 then 0 else v % 2 + Ones(v / 2)
  }

  function Xor(a: Bit, b: Bit): Bit {
    if a == b then 0 else 1
  }

  function XorOfBits(v: nat): Bit {
    if v == 0 then 0 else Xor(v % 2, XorOfBits(v / 2))
  }

  /** The bit the address byte ends in; a target accepts the address only with it. */
  function Parity(addr: Address): Bit {
    1 - XorOfBits(addr)
  }

  lemma {:induction false} XorCountsOnes(v: nat)
    ensures XorOfBits(v) == Ones(v) % 2
  {
    if v > 0 { XorCountsOnes(v / 2); }
  }

  /** Address and parity together hold an odd number of ones. */
  lemma ParityIsOdd(addr: Address)
    ensures (Ones(addr) + Parity(addr)) % 2 == 1
  {
    XorCountsOnes(addr);
  }

  /** The byte that offers an address; a flipped parity is the injected fault. */
  function AddressByte(addr: Address, te3: bool): Byte {
    addr * 2 + if te3 then 1 - Parity(addr) else Parity(addr)
  }

  /** It carries the address above its parity bit, and an odd number of ones unless the fault is injected. */
  lemma AddressByteDecodes(addr: Address, te3: bool)
    ensures var b := AddressByte(addr, te3); b / 2 == addr && (Ones(b) % 2 == 1 <==> !te3)
  {
    ParityIsOdd(addr);
  }

  method OddParity(addr: Address) returns (p: Bit)
    ensures p == Parity(addr)
  {
    p := 1;
    var rest: nat, i := addr, 0;
    ShrBoundAddr(addr);
    while i < 7
      invariant 0 <= i <= 7 && rest == Shr(addr, i)
      invariant Xor(p, XorOfBits(rest)) == Parity(addr)
    {
      p := Xor(p, rest % 2);
      rest := rest / 2;
      i := i + 1;
    }
  }

  lemma ShrBoundAddr(addr: Address)
    ensures Shr(addr, 7) == 0
  {
    Pow2Small();
    ShrAll(addr, 7);
  }

  // ---------------------------------------------------------------------
  // The race
  // ---------------------------------------------------------------------

  /** The bits read so far and the drivers still sending. */
  datatype Race = Race(bits: nat, ds: seq<Driver>)

  function RaceStep(r: Race, i: nat): Race
    requires i < ID_BITS
  {
    var level := Level(r.ds, ID_BITS, i);
    Race(r.bits * 2 + level, Settle(r.ds, ID_BITS, i, level))
  }

  function RaceFrom(r: Race, i: nat): Race
    requires i <= ID_BITS
    decreases ID_BITS - i
  {
    if i == ID_BITS then r else RaceFrom(RaceStep(r, i), i + 1)
  }

  /** The race stays fair and somebody stays in it. */
  predicate Running(r: Race, ds: seq<Driver>, i: nat)
    requires i <= ID_BITS
  {
    && Leads(r.ds, ID_BITS, i, r.bits) && AllBackOff(r.ds)
    && (exists k :: 0 <= k < |r.ds| && r.ds[k].active)
    && |r.ds| == |ds| && forall k :: 0 <= k < |ds| ==> r.ds[k].word == ds[k].word && r.ds[k].joined == ds[k].joined
  }

  lemma RunningStep(r: Race, ds: seq<Driver>, i: nat)
    requires i < ID_BITS && Running(r, ds, i)
    ensures Running(RaceStep(r, i), ds, i + 1)
  {
    var level := Level(r.ds, ID_BITS, i);
    hide MsbBit, Leads, Shr;
    LeadsStep(r.ds, ID_BITS, i, r.bits, level);
    var k := LevelIsSomebodys(r.ds, ID_BITS, i);
    assert RaceStep(r, i).ds[k].active;
  }

  lemma {:induction false} RunningFrom(r: Race, ds: seq<Driver>, i: nat)
    requires i <= ID_BITS && Running(r, ds, i)
    ensures Running(RaceFrom(r, i), ds, ID_BITS)
    decreases ID_BITS - i
  {
    hide RaceStep, Running;
    if i < ID_BITS {
      RunningStep(r, ds, i);
      RunningFrom(RaceStep(r, i), ds, i + 1);
    }
  }

  /** The identity read is the least of the racers', and only its owners are still sending. */
  lemma {:induction false} LeastWins(ds: seq<Driver>)
    requires AllBackOff(ds) && exists k :: 0 <= k < |ds| && ds[k].joined
    requires forall k :: 0 <= k < |ds| ==> ds[k].active == ds[k].joined && ds[k].word < Pow2(ID_BITS)
    ensures var r := RaceFrom(Race(0, ds), 0);
      && |r.ds| == |ds|
      && (exists k :: 0 <= k < |ds| && ds[k].joined && ds[k].word == r.bits)
      && (forall k :: 0 <= k < |ds| ==>
            (ds[k].joined ==> r.bits <= ds[k].word) &&
            (r.ds[k].active <==> ds[k].joined && ds[k].word == r.bits))
  {
    LeadsStart(ds, ID_BITS);
    hide Pow2, RaceFrom, Leads;
    var r := RaceFrom(Race(0, ds), 0);
    RunningFrom(Race(0, ds), ds, 0);
    RaceOver(r, ds);
  }

  lemma RaceOver(r: Race, ds: seq<Driver>)
    requires Running(r, ds, ID_BITS)
    ensures exists k :: 0 <= k < |ds| && ds[k].joined && ds[k].word == r.bits
    ensures forall k :: 0 <= k < |ds| ==>
      (ds[k].joined ==> r.bits <= ds[k].word) && (r.ds[k].active <==> ds[k].joined && ds[k].word == r.bits)
  {
    forall k | 0 <= k < |ds|
      ensures (ds[k].joined ==> r.bits <= ds[k].word) && (r.ds[k].active <==> ds[k].joined && ds[k].word == r.bits)
    {
      assert LeadsOne(r.ds[k], ID_BITS, ID_BITS, r.bits);
    }
    var k :| 0 <= k < |r.ds| && r.ds[k].active;
    assert ds[k].joined && ds[k].word == r.bits;
  }

  /** The controller's side: 64 bits shifted in. */
  method ReadId(ds: seq<Driver>) returns (bits: nat, left: seq<Driver>)
    ensures Race(bits, left) == RaceFrom(Race(0, ds), 0)
  {
    bits, left := 0, ds;
    var i := 0;
    while i < 64
      invariant 0 <= i <= 64
      invariant RaceFrom(Race(bits, left), i) == RaceFrom(Race(0, ds), 0)
    {
      var level := Level(left, ID_BITS, i);
      bits := bits * 2 + level;
      left := Settle(left, ID_BITS, i, level);
      i := i + 1;
    }
  }

  // ---------------------------------------------------------------------
  // One round
  // ---------------------------------------------------------------------

  /** Takes part in a round opened by 7E/R, or by 7E/W when `te4` injects the wrong direction. */
  predicate Joins(t: Target, te4: bool) {
    t.addr.None? && !t.waitsForStop && !(te4 && t.checksHeader)
  }

  function AfterHeader(ts: seq<Target>, te4: bool): (r: seq<Target>)
    ensures |r| == |ts|
  {
    seq(|ts|, k requires 0 <= k < |ts| =>
      ts[k].(waitsForStop := ts[k].waitsForStop || (ts[k].addr.None? && te4 && ts[k].checksHeader)))
  }

  function Drivers(ts: seq<Target>, te4: bool): (ds: seq<Driver>)
    ensures |ds| == |ts|
  {
    seq(|ts|, k requires 0 <= k < |ts| => Driver(ts[k].id, true, Joins(ts[k], te4), Joins(ts[k], te4)))
  }

  /** A target that checks parity wants an odd number of ones in the byte on the wire. */
  predicate Accepts(t: Target, b: Byte) {
    Ones(b) % 2 == 1 || !t.checksParity
  }

  /** The winners of the race take the address in the byte on the wire if its parity suits them. */
  function AfterAddress(ts: seq<Target>, left: seq<Driver>, b: Byte): seq<Target>
    requires |left| == |ts|
  {
    seq(|ts|, k requires 0 <= k < |ts| =>
      if left[k].active && Accepts(ts[k], b) then ts[k].(addr := Some(b / 2)) else ts[k])
  }

  datatype Round = NoMore(ts: seq<Target>) | Assigned(ts: seq<Target>, entry: Entry)

  function Identity(bits: nat, addr: Address, ack: bool): Entry {
    Entry(Some(bits / 0x1_0000 % 0x1_0000_0000_0000), Some(bits / 0x100 % 0x100), Some(bits % 0x100), addr, ack)
  }

  function OneRound(ts: seq<Target>, addr: Address, te3: bool, te4: bool): Round {
    var ts1 := AfterHeader(ts, te4);
    if !exists k :: 0 <= k < |ts| && Joins(ts[k], te4) then NoMore(ts1)
    else
      var r := RaceFrom(Race(0, Drivers(ts, te4)), 0);
      RaceKeepsLength(Race(0, Drivers(ts, te4)), 0);
      var b := AddressByte(addr, te3);
      var ack := exists k :: 0 <= k < |ts1| && r.ds[k].active && Accepts(ts1[k], b);
      Assigned(AfterAddress(ts1, r.ds, b), Identity(r.bits, addr, ack))
  }

  lemma {:induction false} RaceKeepsLength(r: Race, i: nat)
    requires i <= ID_BITS
    ensures |RaceFrom(r, i).ds| == |r.ds|
    decreases ID_BITS - i
  {
    if i < ID_BITS { RaceKeepsLength(RaceStep(r, i), i + 1); }
  }

  // ---------------------------------------------------------------------
  // The whole procedure
  // ---------------------------------------------------------------------

  datatype Daa = Daa(results: seq<Entry>, ts: seq<Target>)

  /** The rounds from the `k`-th address on, after `results`. */
  function Rounds(ts: seq<Target>, addrs: seq<Address>, k: nat, te3: bool, te4: bool, stopAfter: Option<nat>,
                  results: seq<Entry>): Daa
    requires k <= |addrs|
    decreases |addrs| - k
  {
    if k == |addrs| || (stopAfter.Some? && k >= stopAfter.value) then Daa(results, ts)
    else
      match OneRound(ts, addrs[k], te3, te4)
      case NoMore(ts1) => Daa(results + [Entry(None, None, None, addrs[k], false)], ts1)
      case Assigned(ts1, entry) => Rounds(ts1, addrs, k + 1, te3, te4, stopAfter, results + [entry])
  }

  /** The STOP ends every target's part. */
  function AfterStop(ts: seq<Target>): seq<Target> {
    seq(|ts|, k requires 0 <= k < |ts| => ts[k].(waitsForStop := false))
  }

  function Procedure(ts: seq<Target>, addrs: seq<Address>, te3: bool, te4: bool, stopAfter: Option<nat>): Daa {
    var d := Rounds(ts, addrs, 0, te3, te4, stopAfter, []);
    d.(ts := AfterStop(d.ts))
  }

  /** Repeated START, 7E/R or 7E/W, 64 identity bits, the address byte. */
  method RunRound(targets: seq<Target>, addr: Address, injectTe3Parity: bool, injectTe4Rsvd: bool)
    returns (acked: bool, entry: Entry, addrByte: Byte, ts: seq<Target>)
    ensures OneRound(targets, addr, injectTe3Parity, injectTe4Rsvd) == if acked then Assigned(ts, entry) else NoMore(ts)
    ensures !acked ==> entry == Entry(None, None, None, addr, false)
    ensures acked ==> addrByte == AddressByte(addr, injectTe3Parity)
  {
    hide RaceFrom, Drivers, AfterHeader, AfterAddress, Accepts, Joins, Parity;
    var ds := Drivers(targets, injectTe4Rsvd);
    acked := exists k :: 0 <= k < |targets| && Joins(targets[k], injectTe4Rsvd);
    ts := AfterHeader(targets, injectTe4Rsvd);
    if !acked {
      entry, addrByte := Entry(None, None, None, addr, false), 0;
      return;
    }
    var idBits, left := ReadId(ds);
    RaceKeepsLength(Race(0, ds), 0);
    var pid, bcr, dcr := idBits / 0x1_0000 % 0x1_0000_0000_0000, idBits / 0x100 % 0x100, idBits % 0x100;
    var parity := OddParity(addr);
    if injectTe3Parity {
      parity := 1 - parity;
    }
    addrByte := addr * 2 + parity;
    var targetAcked := exists k :: 0 <= k < |ts| && left[k].active && Accepts(ts[k], addrByte);
    entry := Entry(Some(pid), Some(bcr), Some(dcr), addr, targetAcked);
    ts := AfterAddress(ts, left, addrByte);
  }
}
