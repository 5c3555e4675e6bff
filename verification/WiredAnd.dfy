/**
  Bitwise arbitration on a wired-AND line: the level is low as soon as one
  active driver pulls it low, and a driver that backs off drops out at the first bit
  where it released the line and read it low.
 */
module WiredAnd {
  import opened Wrappers
  import opened Bits

  /** A device sending the bits of `word`, most significant first, if it has joined the race at all. */
  datatype Driver = Driver(word: nat, backsOff: bool, joined: bool, active: bool)

  predicate PullsLow(d: Driver, w: nat, i: nat)
    requires i < w
  {
    d.active && MsbBit(d.word, w, i) == 0
  }

  function Level(ds: seq<Driver>, w: nat, i: nat): Bit
    requires i < w
  {
    if exists k :: 0 <= k < |ds| && PullsLow(ds[k], w, i) then 0 else 1
  }

  function SettleOne(d: Driver, w: nat, i: nat, level: Bit): Driver
    requires i < w
  {
    d.(active := d.active && !(d.backsOff && MsbBit(d.word, w, i) == 1 && level == 0))
  }

  function Settle(ds: seq<Driver>, w: nat, i: nat, level: Bit): (r: seq<Driver>)
    requires i < w
    ensures |r| == |ds| && forall k :: 0 <= k < |ds| ==> r[k] == SettleOne(ds[k], w, i, level)
  {
    seq(|ds|, k requires 0 <= k < |ds| => SettleOne(ds[k], w, i, level))
  }

  /** After `i` bits read as `p`, the racers left are those whose first `i` bits are `p`, and nobody had less. */
  predicate Leads(ds: seq<Driver>, w: nat, i: nat, p: nat)
    requires i <= w
  {
    forall k :: 0 <= k < |ds| ==> LeadsOne(ds[k], w, i, p)
  }

  predicate LeadsOne(d: Driver, w: nat, i: nat, p: nat)
    requires i <= w
  {
    if d.joined then Shr(d.word, w - i) >= p && (d.active <==> Shr(d.word, w - i) == p) else !d.active
  }

  predicate AllBackOff(ds: seq<Driver>) {
    forall k :: 0 <= k < |ds| ==> ds[k].backsOff
  }

  lemma LeadsStart(ds: seq<Driver>, w: nat)
    requires forall k :: 0 <= k < |ds| ==> ds[k].active == ds[k].joined && ds[k].word < Pow2(w)
    ensures Leads(ds, w, 0, 0)
  {
    forall k | 0 <= k < |ds| ensures LeadsOne(ds[k], w, 0, 0) {
      ShrBound(ds[k].word, w, w);
    }
  }

  /** One bit, read no higher than the drivers left it, keeps the race fair. */
  lemma LeadsStep(ds: seq<Driver>, w: nat, i: nat, p: nat, level: Bit)
    requires i < w && AllBackOff(ds) && Leads(ds, w, i, p) && level <= Level(ds, w, i)
    ensures Leads(Settle(ds, w, i, level), w, i + 1, 2 * p + level) && AllBackOff(Settle(ds, w, i, level))
  {
    forall k | 0 <= k < |ds| ensures LeadsOne(Settle(ds, w, i, level)[k], w, i + 1, 2 * p + level) {
      assert LeadsOne(ds[k], w, i, p);
      NextBit(ds[k].word, w, i);
      assert ds[k].active && MsbBit(ds[k].word, w, i) == 0 ==> PullsLow(ds[k], w, i);
      hide Shr;
    }
  }

  /** A line that is read high was released by every active driver; read low, some driver pulled it. */
  lemma LevelIsSomebodys(ds: seq<Driver>, w: nat, i: nat) returns (k: nat)
    requires i < w && exists j :: 0 <= j < |ds| && ds[j].active
    ensures k < |ds| && ds[k].active && MsbBit(ds[k].word, w, i) == Level(ds, w, i)
  {
    if Level(ds, w, i) == 0 {
      k :| 0 <= k < |ds| && PullsLow(ds[k], w, i);
    } else {
      k :| 0 <= k < |ds| && ds[k].active;
      assert !PullsLow(ds[k], w, i);
    }
  }
}
