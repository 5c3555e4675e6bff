/**
  Which registers the tracker's walk collects, told by paths through the map
  instead of by the walk.
 */
module TrackerPaths {
  import opened Wrappers
  import opened Tracker

  /** `v` stands under `key`; of entries with the same key the first one counts. */
  ghost predicate Under(entries: seq<(string, Value)>, key: string, v: Value) {
    exists i :: 0 <= i < |entries| && entries[i] == (key, v) && forall j :: 0 <= j < i ==> entries[j].0 != key
  }

  /** The number under `key`, or `default` where there is none. */
  ghost predicate NumberUnder(entries: seq<(string, Value)>, key: string, default: int, n: int) {
    Under(entries, key, Num(n)) || (n == default && forall m :: !Under(entries, key, Num(m)))
  }

  ghost predicate HasKey(entries: seq<(string, Value)>, key: string) {
    exists i :: 0 <= i < |entries| && entries[i].0 == key
  }

  /** A register has an offset, and a field: something in it with a low bit. */
  ghost predicate Register(v: Value) {
    && v.Dict? && HasKey(v.entries, "offset")
    && exists i :: 0 <= i < |v.entries| && v.entries[i].1.Dict? && HasKey(v.entries[i].1.entries, "low")
  }

  /** Keys that are not part of a name. */
  predicate Unnamed(key: string) {
    key == "base_addr" || key == "start_addr" || key == "offset"
  }

  /**
    `path` leads from `v` to the register `r`: through dictionaries that are no
    registers, each with a start address of its own or that of the one around
    it, and named by their keys with a dot behind each.
   */
  ghost predicate Leads(v: Value, path: seq<nat>, prefix: string, base: int, r: Reg)
    decreases |path|
  {
    && v.Dict? && path != [] && path[0] < |v.entries|
    && exists start :: NumberUnder(v.entries, "start_addr", base, start) && LeadsOn(v, path, prefix, start, r)
  }

  ghost predicate LeadsOn(v: Value, path: seq<nat>, prefix: string, start: int, r: Reg)
    requires v.Dict? && path != [] && path[0] < |v.entries|
    decreases |path|, 0
  {
    var key, e := v.entries[path[0]].0, v.entries[path[0]].1;
    if |path| == 1 then Register(e) && r.name == prefix + key && NumberUnder(e.entries, "offset", 0, r.addr - start)
    else e.Dict? && !Register(e) && Leads(e, path[1..], if Unnamed(key) then prefix else prefix + key + ".", start, r)
  }

  // ---------------------------------------------------------------------
  // Looking up
  // ---------------------------------------------------------------------

  lemma {:induction false} GetFinds(entries: seq<(string, Value)>, key: string)
    ensures Get(entries, key).Some? <==> HasKey(entries, key)
    ensures forall v :: Under(entries, key, v) <==> Get(entries, key) == Some(v)
    decreases |entries|
  {
    if entries != [] {
      var rest := entries[1..];
      GetFinds(rest, key);
      forall v
        ensures Under(entries, key, v) <==> if entries[0].0 == key then entries[0].1 == v else Under(rest, key, v)
      {
        UnderRest(entries, key, v);
      }
      if HasKey(rest, key) {
        var i :| 0 <= i < |rest| && rest[i].0 == key;
        assert entries[i + 1].0 == key;
      }
      if HasKey(entries, key) && entries[0].0 != key {
        var i :| 0 <= i < |entries| && entries[i].0 == key;
        assert rest[i - 1].0 == key;
      }
    }
  }

  lemma UnderRest(entries: seq<(string, Value)>, key: string, v: Value)
    requires entries != []
    ensures Under(entries, key, v) <==> if entries[0].0 == key then entries[0].1 == v else Under(entries[1..], key, v)
  {
    var rest := entries[1..];
    if entries[0].0 == key {
      if entries[0].1 == v { assert entries[0] == (key, v); }
    } else {
      if Under(rest, key, v) {
        var i :| 0 <= i < |rest| && rest[i] == (key, v) && forall j :: 0 <= j < i ==> rest[j].0 != key;
        assert entries[i + 1] == (key, v);
        forall j | 0 <= j < i + 1 ensures entries[j].0 != key { if j > 0 { assert entries[j] == rest[j - 1]; } }
      }
      if Under(entries, key, v) {
        var i :| 0 <= i < |entries| && entries[i] == (key, v) && forall j :: 0 <= j < i ==> entries[j].0 != key;
        assert rest[i - 1] == (key, v);
        forall j | 0 <= j < i - 1 ensures rest[j].0 != key { assert rest[j] == entries[j + 1]; }
      }
    }
  }

  lemma NumberFound(entries: seq<(string, Value)>, key: string, default: int, n: int)
    ensures NumberUnder(entries, key, default, n) <==> n == NumAt(entries, key, default)
  {
    hide Get, Under;
    GetFinds(entries, key);
  }

  lemma RegisterFound(v: Value)
    ensures (Register(v) <==> IsRegister(v)) && (Register(v) ==> v.Dict?)
  {
    hide Get, HasKey;
    if v.Dict? {
      GetFinds(v.entries, "offset");
      forall i | 0 <= i < |v.entries| && v.entries[i].1.Dict?
        ensures HasKey(v.entries[i].1.entries, "low") <==> Get(v.entries[i].1.entries, "low").Some?
      {
        GetFinds(v.entries[i].1.entries, "low");
      }
    }
  }

  // ---------------------------------------------------------------------
  // The walk
  // ---------------------------------------------------------------------

  lemma {:induction false} SomeEntry(v: Value, i: nat, prefix: string, sa: int, r: Reg) returns (j: nat)
    requires v.Dict? && i <= |v.entries| && r in CollectFrom(v, i, prefix, sa)
    ensures i <= j < |v.entries| && r in CollectEntry(v.entries[j].1, v.entries[j].0, prefix, sa)
    decreases |v.entries| - i
  {
    hide CollectEntry;
    if i == |v.entries| {
      j := i;
    } else if r in CollectEntry(v.entries[i].1, v.entries[i].0, prefix, sa) {
      j := i;
    } else {
      j := SomeEntry(v, i + 1, prefix, sa, r);
    }
  }

  lemma {:induction false} EveryEntry(v: Value, i: nat, j: nat, prefix: string, sa: int, r: Reg)
    requires v.Dict? && i <= j < |v.entries| && r in CollectEntry(v.entries[j].1, v.entries[j].0, prefix, sa)
    ensures r in CollectFrom(v, i, prefix, sa)
    decreases j - i
  {
    hide CollectEntry;
    if i < j { EveryEntry(v, i + 1, j, prefix, sa, r); }
  }

  lemma {:induction false} CollectedHasPath(v: Value, prefix: string, base: int, r: Reg) returns (path: seq<nat>)
    requires r in Collect(v, prefix, base)
    ensures Leads(v, path, prefix, base, r)
    decreases v
  {
    hide NumberUnder, Register, IsRegister, IsSection, NumAt;
    var sa := NumAt(v.entries, "start_addr", base);
    NumberFound(v.entries, "start_addr", base, sa);
    var j := SomeEntry(v, 0, prefix, sa, r);
    var key, e := v.entries[j].0, v.entries[j].1;
    RegisterFound(e);
    if IsRegister(e) {
      path := [j];
      NumberFound(e.entries, "offset", 0, r.addr - sa);
    } else {
      var rest := CollectedHasPath(e, SubPrefix(prefix, key), sa, r);
      path := [j] + rest;
      assert path[1..] == rest && |path| > 1;
    }
    assert LeadsOn(v, path, prefix, sa, r);
  }

  lemma {:induction false} PathIsCollected(v: Value, path: seq<nat>, prefix: string, base: int, r: Reg)
    requires Leads(v, path, prefix, base, r)
    ensures r in Collect(v, prefix, base)
    decreases |path|
  {
    hide NumberUnder, Register, IsRegister, NumAt;
    var start :| NumberUnder(v.entries, "start_addr", base, start) && LeadsOn(v, path, prefix, start, r);
    NumberFound(v.entries, "start_addr", base, start);
    var j := path[0];
    var key, e := v.entries[j].0, v.entries[j].1;
    RegisterFound(e);
    if |path| == 1 {
      NumberFound(e.entries, "offset", 0, r.addr - start);
    } else {
      PathIsCollected(e, path[1..], SubPrefix(prefix, key), start, r);
      PathInSection(e, path[1..], SubPrefix(prefix, key), start, r);
    }
    EveryEntry(v, 0, j, prefix, start, r);
  }

  lemma PathInSection(e: Value, path: seq<nat>, prefix: string, base: int, r: Reg)
    requires Leads(e, path, prefix, base, r)
    ensures IsSection(e)
  {
    hide NumberUnder;
    assert e.entries[path[0]].1.Dict?;
  }

  /**
    The walk collects exactly the registers that some path leads to, at the
    start address that holds there plus their offset, under the keys on the way.
   */
  lemma CollectedIff(v: Value, prefix: string, base: int, r: Reg)
    ensures r in Collect(v, prefix, base) <==> exists path :: Leads(v, path, prefix, base, r)
  {
    hide Collect, Leads;
    if r in Collect(v, prefix, base) {
      var path := CollectedHasPath(v, prefix, base, r);
    }
    forall path | Leads(v, path, prefix, base, r) ensures r in Collect(v, prefix, base) {
      PathIsCollected(v, path, prefix, base, r);
    }
  }

  /** The log parser knows exactly the names that some path gives to a register at or below 0xFFF. */
  lemma KnownIff(v: Value, prefix: string, base: int, name: string)
    ensures name in CollectNames(v, prefix, base) <==>
            exists path, addr :: addr <= 0xFFF && Leads(v, path, prefix, base, Reg(addr, name))
  {
    hide Collect, CollectNames, Leads, Reachable;
    var regs := Collect(v, prefix, base);
    WalksAgree(v, prefix, base);
    if name in CollectNames(v, prefix, base) {
      var i :| 0 <= i < |Reachable(regs)| && Reachable(regs)[i].name == name;
      var r := Reachable(regs)[i];
      ReachableIs(regs, r);
      CollectedIff(v, prefix, base, r);
      var path :| Leads(v, path, prefix, base, r);
      assert r == Reg(r.addr, name);
    }
    forall path, addr | addr <= 0xFFF && Leads(v, path, prefix, base, Reg(addr, name))
      ensures name in CollectNames(v, prefix, base)
    {
      var r := Reg(addr, name);
      PathIsCollected(v, path, prefix, base, r);
      ReachableIs(regs, r);
      var i :| 0 <= i < |Reachable(regs)| && Reachable(regs)[i] == r;
      assert Names(Reachable(regs))[i] == name;
    }
  }

  // ---------------------------------------------------------------------
  // Names
  // ---------------------------------------------------------------------

  predicate StandsAt(s: string, sub: string, i: nat) {
    i + |sub| <= |s| && s[i..i + |sub|] == sub
  }

  /** `sub` stands somewhere in `s`. */
  ghost predicate StandsIn(s: string, sub: string) {
    exists i: nat :: StandsAt(s, sub, i)
  }

  lemma {:induction false} ContainsIff(s: string, sub: string)
    ensures Contains(s, sub) <==> StandsIn(s, sub)
    decreases |s|
  {
    if s == "" {
      assert StandsIn(s, sub) ==> sub == "";
      assert sub == "" ==> StandsAt(s, sub, 0);
    } else {
      ContainsIff(s[1..], sub);
      if |sub| <= |s| && s[..|sub|] == sub { assert StandsAt(s, sub, 0); }
      if StandsIn(s[1..], sub) {
        var i: nat :| StandsAt(s[1..], sub, i);
        assert StandsAt(s, sub, i + 1);
      }
      if StandsIn(s, sub) && s[..|sub|] != sub {
        var i: nat :| StandsAt(s, sub, i);
        assert StandsAt(s[1..], sub, i - 1);
      }
    }
  }

  /** The section of a dotted name is what stands before its first dot; other names share one. */
  lemma {:induction false} SectionIs(name: string)
    ensures '.' !in name ==> SectionOf(name) == "OTHER"
    ensures '.' in name ==> SectionOf(name) + "." <= name && '.' !in SectionOf(name)
  {
    if '.' in name { BeforeDot(name); }
  }

  lemma {:induction false} BeforeDot(name: string)
    requires '.' in name
    ensures UpToDot(name) + "." <= name && '.' !in UpToDot(name)
    decreases |name|
  {
    if name[0] != '.' {
      assert name == [name[0]] + name[1..];
      BeforeDot(name[1..]);
      var rest := UpToDot(name[1..]);
      assert UpToDot(name) == [name[0]] + rest;
      assert UpToDot(name) + "." == [name[0]] + (rest + ".");
    } else {
      assert UpToDot(name) == "" && "" + "." == ".";
    }
  }
}
