/**
  The generator of the CSR transaction tracker: it walks the register map, sorts
  the registers by address and emits one case label per address; and the log
  parser's own walk over the same map.
 */
module Tracker {
  import opened Wrappers

  /** A register map: nested dictionaries with numbers at the leaves. */
  datatype Value = Num(n: int) | Dict(entries: seq<(string, Value)>)

  datatype Reg = Reg(addr: int, name: string)

  const LAST_ADDR: int := 0xFFF

  function Get(entries: seq<(string, Value)>, key: string): Option<Value> {
    if entries == [] then None else if entries[0].0 == key then Some(entries[0].1) else Get(entries[1..], key)
  }

  function NumAt(entries: seq<(string, Value)>, key: string, default: int): int {
    match Get(entries, key)
    case Some(Num(n)) => n
    case _ => default
  }

  predicate HasField(entries: seq<(string, Value)>) {
    exists i :: 0 <= i < |entries| && entries[i].1.Dict? && Get(entries[i].1.entries, "low").Some?
  }

  predicate HasDict(entries: seq<(string, Value)>) {
    exists i :: 0 <= i < |entries| && entries[i].1.Dict?
  }

  predicate IsRegister(v: Value) {
    v.Dict? && Get(v.entries, "offset").Some? && HasField(v.entries)
  }

  predicate IsSection(v: Value) {
    v.Dict? && HasDict(v.entries)
  }

  function SubPrefix(prefix: string, key: string): string {
    if key == "base_addr" || key == "start_addr" || key == "offset" then prefix else prefix + key + "."
  }

  // ---------------------------------------------------------------------
  // The two walks
  // ---------------------------------------------------------------------

  /** Every register below `v`, in the order of the map. */
  function Collect(v: Value, prefix: string, base: int): seq<Reg>
    decreases v, 1, 0
  {
    match v
    case Num(_) => []
    case Dict(entries) => CollectFrom(v, 0, prefix, NumAt(entries, "start_addr", base))
  }

  function CollectFrom(v: Value, i: nat, prefix: string, sa: int): seq<Reg>
    requires v.Dict? && i <= |v.entries|
    decreases v, 0, |v.entries| - i
  {
    if i == |v.entries| then []
    else
      var (k, e) := v.entries[i];
      CollectEntry(e, k, prefix, sa) + CollectFrom(v, i + 1, prefix, sa)
  }

  function CollectEntry(e: Value, k: string, prefix: string, sa: int): seq<Reg>
    decreases e, 2, 0
  {
    if IsRegister(e) then [Reg(sa + NumAt(e.entries, "offset", 0), prefix + k)]
    else if IsSection(e) then Collect(e, SubPrefix(prefix, k), sa)
    else []
  }

  /** The log parser's walk: the same registers, but only those it can see, by name. */
  function CollectNames(v: Value, prefix: string, base: int): seq<string>
    decreases v, 1, 0
  {
    match v
    case Num(_) => []
    case Dict(entries) => CollectNamesFrom(v, 0, prefix, NumAt(entries, "start_addr", base))
  }

  function CollectNamesFrom(v: Value, i: nat, prefix: string, sa: int): seq<string>
    requires v.Dict? && i <= |v.entries|
    decreases v, 0, |v.entries| - i
  {
    if i == |v.entries| then []
    else
      var (k, e) := v.entries[i];
      CollectNamesEntry(e, k, prefix, sa) + CollectNamesFrom(v, i + 1, prefix, sa)
  }

  function CollectNamesEntry(e: Value, k: string, prefix: string, sa: int): seq<string>
    decreases e, 2, 0
  {
    if IsRegister(e) then if sa + NumAt(e.entries, "offset", 0) <= LAST_ADDR then [prefix + k] else []
    else if IsSection(e) then CollectNames(e, SubPrefix(prefix, k), sa)
    else []
  }

  /** The registers a 12-bit address can reach. */
  function Reachable(regs: seq<Reg>): seq<Reg> {
    if regs == [] then []
    else (if regs[0].addr <= LAST_ADDR then [regs[0]] else []) + Reachable(regs[1..])
  }

  function Names(regs: seq<Reg>): seq<string> {
    seq(|regs|, i requires 0 <= i < |regs| => regs[i].name)
  }

  lemma {:induction false} ReachableAppend(x: seq<Reg>, y: seq<Reg>)
    ensures Reachable(x + y) == Reachable(x) + Reachable(y)
    decreases |x|
  {
    if x == [] {
      assert x + y == y;
    } else {
      assert (x + y)[0] == x[0] && (x + y)[1..] == x[1..] + y;
      ReachableAppend(x[1..], y);
      var h := if x[0].addr <= LAST_ADDR then [x[0]] else [];
      assert (h + Reachable(x[1..])) + Reachable(y) == h + (Reachable(x[1..]) + Reachable(y));
    }
  }

  /** The parser lists exactly the names of the reachable registers, in the generator's order. */
  lemma {:induction false} WalksAgree(v: Value, prefix: string, base: int)
    ensures CollectNames(v, prefix, base) == Names(Reachable(Collect(v, prefix, base)))
    decreases v, 1, 0
  {
    if v.Dict? { WalksAgreeFrom(v, 0, prefix, NumAt(v.entries, "start_addr", base)); }
  }

  lemma {:induction false} WalksAgreeFrom(v: Value, i: nat, prefix: string, sa: int)
    requires v.Dict? && i <= |v.entries|
    ensures CollectNamesFrom(v, i, prefix, sa) == Names(Reachable(CollectFrom(v, i, prefix, sa)))
    decreases v, 0, |v.entries| - i
  {
    hide CollectFrom, CollectNamesFrom, CollectEntry, CollectNamesEntry, Reachable, Names;
    if i < |v.entries| {
      var e := v.entries[i];
      WalksAgreeFrom(v, i + 1, prefix, sa);
      WalksAgreeEntry(e.1, e.0, prefix, sa);
      WalksStep(v, i, prefix, sa);
    } else {
      WalksEnd(v, prefix, sa);
    }
  }

  lemma WalksStep(v: Value, i: nat, prefix: string, sa: int)
    requires v.Dict? && i < |v.entries|
    requires CollectNamesFrom(v, i + 1, prefix, sa) == Names(Reachable(CollectFrom(v, i + 1, prefix, sa)))
    requires var (k, e) := v.entries[i];
      CollectNamesEntry(e, k, prefix, sa) == Names(Reachable(CollectEntry(e, k, prefix, sa)))
    ensures CollectNamesFrom(v, i, prefix, sa) == Names(Reachable(CollectFrom(v, i, prefix, sa)))
  {
    hide *;
    var (k, e) := v.entries[i];
    var head, tail := CollectEntry(e, k, prefix, sa), CollectFrom(v, i + 1, prefix, sa);
    WalksUnfold(v, i, prefix, sa);
    ReachableAppend(head, tail);
    NamesOfAppend(Reachable(head), Reachable(tail));
  }

  lemma WalksUnfold(v: Value, i: nat, prefix: string, sa: int)
    requires v.Dict? && i < |v.entries|
    ensures var (k, e) := v.entries[i];
      && CollectFrom(v, i, prefix, sa) == CollectEntry(e, k, prefix, sa) + CollectFrom(v, i + 1, prefix, sa)
      && CollectNamesFrom(v, i, prefix, sa) ==
         CollectNamesEntry(e, k, prefix, sa) + CollectNamesFrom(v, i + 1, prefix, sa)
  {
    hide CollectEntry, CollectNamesEntry;
  }

  lemma WalksEnd(v: Value, prefix: string, sa: int)
    requires v.Dict?
    ensures CollectNamesFrom(v, |v.entries|, prefix, sa) == Names(Reachable(CollectFrom(v, |v.entries|, prefix, sa)))
  {
    assert CollectFrom(v, |v.entries|, prefix, sa) == [];
  }

  lemma NamesOfAppend(x: seq<Reg>, y: seq<Reg>)
    ensures Names(x + y) == Names(x) + Names(y)
  {
  }

  lemma {:induction false} WalksAgreeEntry(e: Value, k: string, prefix: string, sa: int)
    ensures CollectNamesEntry(e, k, prefix, sa) == Names(Reachable(CollectEntry(e, k, prefix, sa)))
    decreases e, 2, 0
  {
    if !IsRegister(e) && IsSection(e) { WalksAgree(e, SubPrefix(prefix, k), sa); }
  }

  /** The generator's walk as it is written: a loop that appends to one list. */
  method Walk(v: Value, prefix: string, base: int, before: seq<Reg>) returns (regs: seq<Reg>)
    ensures regs == before + Collect(v, prefix, base)
    decreases v
  {
    hide IsSection, HasField, SubPrefix, NumAt;
    regs := before;
    if v.Num? { return; }
    var sa := NumAt(v.entries, "start_addr", base);
    var i := 0;
    while i < |v.entries|
      invariant 0 <= i <= |v.entries|
      invariant regs + CollectFrom(v, i, prefix, sa) == before + CollectFrom(v, 0, prefix, sa)
    {
      var (k, e) := v.entries[i];
      if IsRegister(e) {
        regs := regs + [Reg(sa + NumAt(e.entries, "offset", 0), prefix + k)];
      } else if IsSection(e) {
        regs := Walk(e, SubPrefix(prefix, k), sa, regs);
      }
      i := i + 1;
    }
  }

  // ---------------------------------------------------------------------
  // Aliases and order
  // ---------------------------------------------------------------------

  /** The names registered at an address, in the order they were collected. */
  function NamesAt(regs: seq<Reg>, addr: int): seq<string> {
    if regs == [] then []
    else (if regs[0].addr == addr then [regs[0].name] else []) + NamesAt(regs[1..], addr)
  }

  predicate StrLess(s: string, t: string) {
    if t == "" then false
    else if s == "" then true
    else s[0] < t[0] || (s[0] == t[0] && StrLess(s[1..], t[1..]))
  }

  predicate Before(a: Reg, b: Reg) {
    a.addr < b.addr || (a.addr == b.addr && StrLess(a.name, b.name))
  }

  function Insert(r: Reg, sorted: seq<Reg>): seq<Reg> {
    if sorted == [] || !Before(sorted[0], r) then [r] + sorted else [sorted[0]] + Insert(r, sorted[1..])
  }

  /** Sorting by address, then name. */
  function Sort(regs: seq<Reg>): seq<Reg> {
    if regs == [] then [] else Insert(regs[0], Sort(regs[1..]))
  }

  /** Nothing comes before what stands ahead of it. */
  predicate Sorted(regs: seq<Reg>) {
    forall i, j :: 0 <= i < j < |regs| ==> !Before(regs[j], regs[i])
  }

  lemma {:induction false} StrLessOrder(s: string, t: string, u: string)
    ensures StrLess(s, t) ==> !StrLess(t, s)
    ensures StrLess(s, u) ==> StrLess(s, t) || StrLess(t, u)
    ensures s != t ==> StrLess(s, t) || StrLess(t, s)
    decreases |s| + |t| + |u|
  {
    if s != "" && t != "" {
      assert s == [s[0]] + s[1..] && t == [t[0]] + t[1..];
      StrLessOrder(s[1..], t[1..], if u == "" then "" else u[1..]);
    }
  }

  lemma BeforeOrder(a: Reg, b: Reg, c: Reg)
    ensures Before(a, b) ==> !Before(b, a)
    ensures Before(a, c) ==> Before(a, b) || Before(b, c)
  {
    StrLessOrder(a.name, b.name, c.name);
  }

  lemma {:induction false} InsertKeeps(r: Reg, sorted: seq<Reg>)
    requires Sorted(sorted)
    ensures Sorted(Insert(r, sorted))
    decreases |sorted|
  {
    hide Before;
    if sorted != [] {
      var h, tail := sorted[0], sorted[1..];
      if Before(h, r) {
        var rest := Insert(r, tail);
        InsertKeeps(r, tail);
        BeforeOrder(h, r, h);
        forall k | 0 <= k < |rest| ensures !Before(rest[k], h) {
          InsertHolds(r, tail, rest[k]);
          if rest[k] != r {
            var m :| 0 <= m < |tail| && tail[m] == rest[k];
            assert sorted[m + 1] == rest[k];
          }
        }
        PrependSorted(h, rest);
      } else {
        forall k | 0 <= k < |sorted| ensures !Before(sorted[k], r) { BeforeOrder(sorted[k], h, r); }
        PrependSorted(r, sorted);
      }
    }
  }

  lemma PrependSorted(r: Reg, rest: seq<Reg>)
    requires Sorted(rest) && forall k :: 0 <= k < |rest| ==> !Before(rest[k], r)
    ensures Sorted([r] + rest)
  {
    hide Before;
  }

  lemma {:induction false} InsertHolds(r: Reg, sorted: seq<Reg>, x: Reg)
    ensures x in Insert(r, sorted) <==> x == r || x in sorted
    decreases |sorted|
  {
    if sorted != [] && Before(sorted[0], r) {
      InsertHolds(r, sorted[1..], x);
      assert sorted == [sorted[0]] + sorted[1..];
    }
  }

  lemma {:induction false} SortKeeps(regs: seq<Reg>)
    ensures Sorted(Sort(regs)) && forall x :: x in Sort(regs) <==> x in regs
    decreases |regs|
  {
    if regs != [] {
      SortKeeps(regs[1..]);
      InsertKeeps(regs[0], Sort(regs[1..]));
      forall x ensures x in Sort(regs) <==> x in regs {
        InsertHolds(regs[0], Sort(regs[1..]), x);
        assert regs == [regs[0]] + regs[1..];
      }
    }
  }

  // ---------------------------------------------------------------------
  // Emission
  // ---------------------------------------------------------------------

  /** A line of the case statement: a section comment, or a label with the names for writes and reads. */
  datatype Line = Section(title: string) | Case(addr: int, onWrite: string, onRead: string)

  predicate Contains(s: string, sub: string) {
    |sub| <= |s| && (s[..|sub|] == sub || (s != "" && Contains(s[1..], sub)))
  }

  function FirstWith(names: seq<string>, sub: string): (r: Option<string>)
    ensures r.Some? ==> r.value in names && Contains(r.value, sub)
    ensures r.None? ==> forall n <- names :: !Contains(n, sub)
  {
    if names == [] then None else if Contains(names[0], sub) then Some(names[0]) else FirstWith(names[1..], sub)
  }

  /** The part of a dotted name before the first dot. */
  function SectionOf(name: string): string {
    if '.' in name then UpToDot(name) else "OTHER"
  }

  function UpToDot(name: string): string {
    if name == "" || name[0] == '.' then "" else [name[0]] + UpToDot(name[1..])
  }

  /** The labels among the lines. */
  function Labels(lines: seq<Line>): seq<int> {
    if lines == [] then []
    else Labels(lines[..|lines| - 1]) + (match lines[|lines| - 1] case Case(a, _, _) => [a] case _ => [])
  }

  lemma LabelsAppend(lines: seq<Line>, l: Line)
    ensures Labels(lines + [l]) == Labels(lines) + (match l case Case(a, _, _) => [a] case _ => [])
  {
    assert (lines + [l])[..|lines|] == lines;
  }

  predicate Ascending(xs: seq<int>) {
    forall i, j :: 0 <= i < j < |xs| ==> xs[i] < xs[j]
  }

  /** A register at `addr` whose name contains `sub`. */
  ghost predicate Has(regs: seq<Reg>, addr: int, sub: string) {
    exists n :: Reg(addr, n) in regs && Contains(n, sub)
  }

  /** The first register collected at `addr` whose name contains `sub` is called `name`. */
  ghost predicate FirstNamed(regs: seq<Reg>, addr: int, sub: string, name: string) {
    exists i :: 0 <= i < |regs| && regs[i] == Reg(addr, name) && Contains(name, sub) &&
      forall j :: 0 <= j < i && regs[j].addr == addr ==> !Contains(regs[j].name, sub)
  }

  /**
    With a TX and an RX register at the address, writes show the first TX name
    collected there and reads the first RX name; otherwise both directions show
    the first name collected there.
   */
  ghost predicate LabelRight(l: Line, regs: seq<Reg>) {
    l.Case? ==>
      if Has(regs, l.addr, "TX_") && Has(regs, l.addr, "RX_")
      then FirstNamed(regs, l.addr, "TX_", l.onWrite) && FirstNamed(regs, l.addr, "RX_", l.onRead)
      else FirstNamed(regs, l.addr, "", l.onWrite) && l.onRead == l.onWrite
  }

  ghost predicate NamesRight(lines: seq<Line>, regs: seq<Reg>) {
    forall l :: l in lines ==> LabelRight(l, regs)
  }

  lemma {:induction false} NamesAtRegistered(regs: seq<Reg>, addr: int)
    ensures forall n :: n in NamesAt(regs, addr) <==> Reg(addr, n) in regs
    decreases |regs|
  {
    if regs != [] {
      NamesAtRegistered(regs[1..], addr);
      forall n ensures n in NamesAt(regs, addr) <==> Reg(addr, n) in regs {
        assert regs == [regs[0]] + regs[1..];
      }
    }
  }

  /** One label for the registers at `addr`: TX for writes and RX for reads where both exist. */
  function LabelFor(regs: seq<Reg>, addr: int, name: string): Line {
    var names := NamesAt(regs, addr);
    if |names| > 1 then
      var tx, rx := FirstWith(names, "TX_"), FirstWith(names, "RX_");
      if tx.Some? && rx.Some? then Case(addr, tx.value, rx.value) else Case(addr, names[0], names[0])
    else Case(addr, name, name)
  }

  lemma LabelForRight(regs: seq<Reg>, r: Reg)
    requires r in regs
    ensures var l := LabelFor(regs, r.addr, r.name); l.Case? && l.addr == r.addr && LabelRight(l, regs)
  {
    hide Contains, FirstNamed;
    var names := NamesAt(regs, r.addr);
    NamesAtRegistered(regs, r.addr);
    HasFound(regs, r.addr, "TX_");
    HasFound(regs, r.addr, "RX_");
    EmptyFound(names);
    if |names| <= 1 { assert names == [r.name]; }
    FoundIsFirst(regs, r.addr, "TX_");
    FoundIsFirst(regs, r.addr, "RX_");
    FoundIsFirst(regs, r.addr, "");
  }

  lemma EmptyFound(names: seq<string>)
    ensures names != [] ==> FirstWith(names, "") == Some(names[0])
    ensures forall sub :: |names| == 1 && FirstWith(names, sub).Some? ==> FirstWith(names, sub) == Some(names[0])
  {
  }

  lemma {:induction false} FoundIsFirst(regs: seq<Reg>, addr: int, sub: string)
    ensures var f := FirstWith(NamesAt(regs, addr), sub); f.Some? ==> FirstNamed(regs, addr, sub, f.value)
    decreases |regs|
  {
    hide Contains;
    var f := FirstWith(NamesAt(regs, addr), sub);
    if regs != [] && f.Some? {
      var rest := regs[1..];
      if regs[0].addr == addr {
        assert NamesAt(regs, addr)[0] == regs[0].name && NamesAt(regs, addr)[1..] == NamesAt(rest, addr);
      } else {
        assert NamesAt(regs, addr) == NamesAt(rest, addr);
      }
      if regs[0].addr == addr && Contains(regs[0].name, sub) {
        assert regs[0] == Reg(addr, f.value);
      } else {
        FoundIsFirst(rest, addr, sub);
        var i :| 0 <= i < |rest| && rest[i] == Reg(addr, f.value) && Contains(f.value, sub) &&
          forall j :: 0 <= j < i && rest[j].addr == addr ==> !Contains(rest[j].name, sub);
        assert regs[i + 1] == Reg(addr, f.value);
        forall j | 0 <= j < i + 1 && regs[j].addr == addr ensures !Contains(regs[j].name, sub) {
          if j > 0 { assert rest[j - 1] == regs[j]; }
        }
      }
    }
  }

  lemma HasFound(regs: seq<Reg>, addr: int, sub: string)
    ensures Has(regs, addr, sub) <==> FirstWith(NamesAt(regs, addr), sub).Some?
  {
    hide Contains;
    var names := NamesAt(regs, addr);
    NamesAtRegistered(regs, addr);
    if FirstWith(names, sub).Some? {
      assert Reg(addr, FirstWith(names, sub).value) in regs;
    }
  }

  lemma {:induction false} SingleNameOnce(regs: seq<Reg>, i: nat, j: nat)
    requires i < j < |regs| && regs[i].addr == regs[j].addr
    ensures |NamesAt(regs, regs[i].addr)| > 1
    decreases |regs|
  {
    var a := regs[i].addr;
    if i > 0 {
      SingleNameOnce(regs[1..], i - 1, j - 1);
    } else {
      NamesAtRegistered(regs[1..], a);
      assert regs[j] == regs[1..][j - 1];
      assert regs[j].name in NamesAt(regs[1..], a);
    }
  }

  /** How often an address occurs does not depend on the order of the registers. */
  lemma {:induction false} CountAt(regs: seq<Reg>, addr: int)
    ensures |NamesAt(regs, addr)| == CountOf(regs, addr)
    decreases |regs|
  {
    if regs != [] { CountAt(regs[1..], addr); }
  }

  function CountOf(regs: seq<Reg>, addr: int): nat {
    if regs == [] then 0 else (if regs[0].addr == addr then 1 else 0) + CountOf(regs[1..], addr)
  }

  lemma {:induction false} CountInsert(r: Reg, sorted: seq<Reg>, addr: int)
    ensures CountOf(Insert(r, sorted), addr) == CountOf(sorted, addr) + (if r.addr == addr then 1 else 0)
    decreases |sorted|
  {
    if sorted != [] && Before(sorted[0], r) { CountInsert(r, sorted[1..], addr); }
  }

  lemma {:induction false} CountSort(regs: seq<Reg>, addr: int)
    ensures CountOf(Sort(regs), addr) == CountOf(regs, addr)
    decreases |regs|
  {
    if regs != [] {
      CountSort(regs[1..], addr);
      CountInsert(regs[0], Sort(regs[1..]), addr);
    }
  }

  lemma {:induction false} CountReachable(regs: seq<Reg>, addr: int)
    requires addr <= LAST_ADDR
    ensures CountOf(Reachable(regs), addr) == CountOf(regs, addr)
    decreases |regs|
  {
    if regs != [] {
      CountReachable(regs[1..], addr);
      if regs[0].addr <= LAST_ADDR {
        assert Reachable(regs) == [regs[0]] + Reachable(regs[1..]);
        assert ([regs[0]] + Reachable(regs[1..]))[1..] == Reachable(regs[1..]);
      } else {
        assert Reachable(regs) == Reachable(regs[1..]);
      }
    }
  }

  /** Two registers at one address in the sorted list make it an alias of the whole list. */
  lemma RepeatedIsAlias(regs: seq<Reg>, i: nat, j: nat)
    requires var s := Sort(Reachable(regs)); i < j < |s| && s[i].addr == s[j].addr
    ensures |NamesAt(regs, Sort(Reachable(regs))[i].addr)| > 1
  {
    var s := Sort(Reachable(regs));
    var a := s[i].addr;
    SingleNameOnce(s, i, j);
    CountAt(s, a);
    CountSort(Reachable(regs), a);
    SortKeeps(Reachable(regs));
    assert s[i] in Reachable(regs);
    ReachableIs(regs, s[i]);
    CountReachable(regs, a);
    CountAt(regs, a);
  }

  lemma {:induction false} ReachableIs(regs: seq<Reg>, r: Reg)
    ensures r in Reachable(regs) <==> r in regs && r.addr <= LAST_ADDR
    decreases |regs|
  {
    if regs != [] {
      ReachableIs(regs[1..], r);
      assert regs == [regs[0]] + regs[1..];
    }
  }

  /**
    The case statement for a register list: labels ascend strictly, they are
    exactly the reachable addresses, and every name belongs to its address.
   */
  method EmitCases(regs: seq<Reg>) returns (lines: seq<Line>)
    ensures Ascending(Labels(lines))
    ensures forall a :: a in Labels(lines) <==> a <= 0xFFF && exists n :: Reg(a, n) in regs
    ensures NamesRight(lines, regs) && SectionsRight(lines, regs)
  {
    hide Sort, Reachable, NamesAt, SectionOf, LabelFor, LabelRight, SectionsRight, CurrentSection, LeastName;
    var regs12 := Sort(Reachable(regs));
    SortKeeps(Reachable(regs));
    var seen: set<int> := {};
    var currentSection: Option<string> := None;
    lines := [];
    NoSections(regs);
    var i := 0;
    while i < |regs12|
      invariant 0 <= i <= |regs12|
      invariant seen == set k | 0 <= k < i :: regs12[k].addr
      invariant Emitted(lines, seen, regs)
      invariant SectionsRight(lines, regs) && currentSection == CurrentSection(lines)
    {
      var r := regs12[i];
      SeenGrows(regs12, i);
      if |NamesAt(regs, r.addr)| > 1 && r.addr in seen {
        i := i + 1;
        continue;
      }
      ReachableIs(regs, r);
      FreshAddress(regs, i, seen);
      FreshIsLeast(regs, i, seen);
      LabelForRight(regs, r);
      var section, line := SectionOf(r.name), LabelFor(regs, r.addr, r.name);
      SectionsAppend(lines, regs, r, line);
      if currentSection != Some(section) {
        currentSection := Some(section);
        EmitSection(lines, seen, regs, section);
        lines := lines + [Section(section)];
      }
      EmitLabel(lines, seen, regs, r);
      lines := lines + [line];
      seen := seen + {r.addr};
      i := i + 1;
    }
    LabelsComplete(regs, lines);
  }

  // ---------------------------------------------------------------------
  // Section comments
  // ---------------------------------------------------------------------

  /** The title of the last section comment. */
  function CurrentSection(lines: seq<Line>): Option<string> {
    if lines == [] then None
    else match lines[|lines| - 1]
      case Section(title) => Some(title)
      case Case(_, _, _) => CurrentSection(lines[..|lines| - 1])
  }

  /** The alphabetically first name at an address, which decides the section of its label. */
  predicate LeastName(regs: seq<Reg>, addr: int, name: string) {
    Reg(addr, name) in regs && forall r :: r in regs && r.addr == addr ==> !StrLess(r.name, name)
  }

  /** A label stands under its section; a comment is not repeated and never stands alone. */
  ghost predicate SectionAt(lines: seq<Line>, k: nat, regs: seq<Reg>)
    requires k < |lines|
  {
    match lines[k]
    case Case(addr, _, _) =>
      exists n :: LeastName(regs, addr, n) && CurrentSection(lines[..k]) == Some(SectionOf(n))
    case Section(title) =>
      CurrentSection(lines[..k]) != Some(title) && k + 1 < |lines| && lines[k + 1].Case?
  }

  ghost predicate SectionsRight(lines: seq<Line>, regs: seq<Reg>) {
    forall k: nat :: k < |lines| ==> SectionAt(lines, k, regs)
  }

  lemma NoSections(regs: seq<Reg>)
    ensures SectionsRight([], regs) && CurrentSection([]) == None
  {
  }

  /** A label with, where the section changes, its comment before it. */
  lemma SectionsAppend(lines: seq<Line>, regs: seq<Reg>, r: Reg, line: Line)
    requires SectionsRight(lines, regs) && LeastName(regs, r.addr, r.name) && line.Case? && line.addr == r.addr
    ensures var section := SectionOf(r.name);
      var more := if CurrentSection(lines) == Some(section) then lines else lines + [Section(section)];
      && SectionsRight(more + [line], regs) && CurrentSection(more + [line]) == Some(section)
      && CurrentSection(more) == Some(section)
  {
    hide LeastName, SectionOf;
    var section := SectionOf(r.name);
    var more := if CurrentSection(lines) == Some(section) then lines else lines + [Section(section)];
    var all := more + [line];
    assert all[..|more|] == more;
    if more != lines { assert more[..|lines|] == lines; }
    forall k: nat | k < |all| ensures SectionAt(all, k, regs) {
      if k < |lines| {
        assert SectionAt(lines, k, regs) && all[k] == lines[k] && all[..k] == lines[..k];
        if k + 1 < |lines| { assert all[k + 1] == lines[k + 1]; }
      } else if k < |more| {
        assert all[..k] == lines;
      }
    }
  }

  /** A register that is not skipped has the least name at its address. */
  lemma FreshIsLeast(regs: seq<Reg>, i: nat, seen: set<int>)
    requires var s := Sort(Reachable(regs));
      && i < |s| && seen == (set k | 0 <= k < i :: s[k].addr) && forall a :: a in seen ==> a < s[i].addr
    ensures var r := Sort(Reachable(regs))[i]; LeastName(regs, r.addr, r.name)
  {
    var s := Sort(Reachable(regs));
    SortKeeps(Reachable(regs));
    hide Sort, Reachable, StrLess;
    ReachableIs(regs, s[i]);
    assert forall k :: 0 <= k < i ==> s[k].addr in seen;
    forall r | r in regs && r.addr == s[i].addr ensures !StrLess(r.name, s[i].name) {
      ReachableIs(regs, r);
      assert r in s;
      var k :| 0 <= k < |s| && s[k] == r;
      StrLessOrder(r.name, r.name, r.name);
    }
  }

  /** What the loop keeps: the lines label exactly the seen addresses, in order, with right names. */
  ghost predicate Emitted(lines: seq<Line>, seen: set<int>, regs: seq<Reg>) {
    (forall a :: a in Labels(lines) <==> a in seen) && Ascending(Labels(lines)) && NamesRight(lines, regs)
  }

  lemma SeenGrows(s: seq<Reg>, i: nat)
    requires i < |s|
    ensures (set k | 0 <= k < i + 1 :: s[k].addr) == (set k | 0 <= k < i :: s[k].addr) + {s[i].addr}
  {
  }

  lemma EmitSection(lines: seq<Line>, seen: set<int>, regs: seq<Reg>, title: string)
    requires Emitted(lines, seen, regs)
    ensures Emitted(lines + [Section(title)], seen, regs)
  {
    hide Labels, LabelRight;
    LabelsAppend(lines, Section(title));
    NamesAppend(lines, Section(title), regs);
  }

  lemma NamesAppend(lines: seq<Line>, l: Line, regs: seq<Reg>)
    requires NamesRight(lines, regs) && (l.Case? ==> LabelRight(l, regs))
    ensures NamesRight(lines + [l], regs)
  {
    assert l.Section? ==> LabelRight(l, regs);
    hide LabelRight;
  }

  lemma EmitLabel(lines: seq<Line>, seen: set<int>, regs: seq<Reg>, r: Reg)
    requires Emitted(lines, seen, regs) && r in regs && forall a :: a in seen ==> a < r.addr
    ensures Emitted(lines + [LabelFor(regs, r.addr, r.name)], seen + {r.addr}, regs)
  {
    hide Labels, LabelRight, LabelFor;
    var l := LabelFor(regs, r.addr, r.name);
    LabelForRight(regs, r);
    LabelsAppend(lines, l);
    NamesAppend(lines, l, regs);
    AscendingAppend(Labels(lines), r.addr);
  }

  /** A register that is not skipped has an address above all seen ones. */
  lemma FreshAddress(regs: seq<Reg>, i: nat, seen: set<int>)
    requires var s := Sort(Reachable(regs));
      && i < |s| && seen == (set k | 0 <= k < i :: s[k].addr)
      && !(|NamesAt(regs, s[i].addr)| > 1 && s[i].addr in seen)
    ensures forall a :: a in seen ==> a < Sort(Reachable(regs))[i].addr
  {
    var s := Sort(Reachable(regs));
    SortKeeps(Reachable(regs));
    forall k | 0 <= k < i ensures s[k].addr < s[i].addr {
      if s[k].addr == s[i].addr { RepeatedIsAlias(regs, k, i); }
    }
  }

  lemma AscendingAppend(xs: seq<int>, x: int)
    requires Ascending(xs) && forall y :: y in xs ==> y < x
    ensures Ascending(xs + [x])
  {
    forall i, j | 0 <= i < j < |xs + [x]| ensures (xs + [x])[i] < (xs + [x])[j] {
      assert xs[i] in xs;
    }
  }

  lemma LabelsComplete(regs: seq<Reg>, lines: seq<Line>)
    requires var s := Sort(Reachable(regs));
      forall a :: a in Labels(lines) <==> a in (set k | 0 <= k < |s| :: s[k].addr)
    ensures forall a :: a in Labels(lines) <==> a <= 0xFFF && exists n :: Reg(a, n) in regs
  {
    var s := Sort(Reachable(regs));
    SortKeeps(Reachable(regs));
    hide Sort, Reachable, Labels;
    forall a | a in Labels(lines) ensures a <= LAST_ADDR && exists n :: Reg(a, n) in regs {
      var k :| 0 <= k < |s| && s[k].addr == a;
      ReachableIs(regs, s[k]);
      assert Reg(a, s[k].name) in regs;
    }
    forall a, n | a <= LAST_ADDR && Reg(a, n) in regs ensures a in Labels(lines) {
      ReachableIs(regs, Reg(a, n));
      assert Reg(a, n) in s;
      var k :| 0 <= k < |s| && s[k] == Reg(a, n);
    }
  }

  /** From the register map to the case statement. */
  method GenerateTracker(regMap: Value) returns (lines: seq<Line>)
    ensures var regs := Collect(regMap, "", 0);
      && Ascending(Labels(lines)) && NamesRight(lines, regs) && SectionsRight(lines, regs)
      && forall a :: a in Labels(lines) <==> a <= 0xFFF && exists n :: Reg(a, n) in regs
  {
    var regs := Walk(regMap, "", 0, []);
    assert [] + Collect(regMap, "", 0) == Collect(regMap, "", 0);
    lines := EmitCases(regs);
  }

  lemma {:induction false} LabelIsALine(lines: seq<Line>, a: int)
    requires a in Labels(lines)
    ensures exists w, r :: Case(a, w, r) in lines
    decreases |lines|
  {
    var last := lines[|lines| - 1];
    var init := lines[..|lines| - 1];
    if last.Case? && last.addr == a {
      assert Case(a, last.onWrite, last.onRead) in lines;
    } else {
      LabelIsALine(init, a);
      var w, r :| Case(a, w, r) in init;
      assert Case(a, w, r) in lines;
    }
  }

  /**
    A reachable register that shares its address with no other name is logged,
    in both directions, under the name the log parser knows it by.
   */
  lemma UnaliasedIsLogged(regMap: Value, lines: seq<Line>, r: Reg)
    requires var regs := Collect(regMap, "", 0);
      && NamesRight(lines, regs)
      && (forall a :: a in Labels(lines) <==> a <= 0xFFF && exists n :: Reg(a, n) in regs)
      && r in regs && r.addr <= 0xFFF && (forall n :: Reg(r.addr, n) in regs ==> n == r.name)
    ensures Case(r.addr, r.name, r.name) in lines && r.name in CollectNames(regMap, "", 0)
  {
    var regs := Collect(regMap, "", 0);
    assert Reg(r.addr, r.name) in regs;
    assert r.addr in Labels(lines);
    LabelIsALine(lines, r.addr);
    var w, rd :| Case(r.addr, w, rd) in lines;
    assert LabelRight(Case(r.addr, w, rd), regs);
    WalksAgree(regMap, "", 0);
    ReachableIs(regs, r);
    var k :| 0 <= k < |Reachable(regs)| && Reachable(regs)[k] == r;
    assert Names(Reachable(regs))[k] == r.name;
  }
}
