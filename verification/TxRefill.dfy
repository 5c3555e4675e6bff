/**
  Refilling the TX queue while the controller drains it: one producer, one
  consumer, any interleaving of the two, and a threshold flag that promises a
  number of free slots.
 */
module TxRefill {
  import opened Wrappers

  /**
    What happens next: the controller takes a word, or the producer gets its
    next bus access, where `flag` is what the interrupt logic would like to say.
   */
  datatype Event = Pop | Access(flag: bool)

  /** The queue, what left it, and where the producer is; `credit` writes are still owed in this chunk. */
  datatype Sys = Sys(fifo: seq<int>, consumed: seq<int>, overflowed: bool, written: nat, credit: nat, bursts: nat)

  /** The hardware queue and the producer's two parameters. */
  datatype Config = Config(depth: nat, queueDepth: nat, thld: nat)

  function Init(cfg: Config, data: seq<int>): Sys {
    Sys([], [], false, 0, Min(|data|, cfg.queueDepth), 0)
  }

  /** The flag is only ever seen set with at least `thld` slots free. */
  predicate FlagSeen(cfg: Config, s: Sys, flag: bool) {
    flag && |s.fifo| + cfg.thld <= cfg.depth
  }

  function PushWord(cfg: Config, s: Sys, w: int): Sys {
    if |s.fifo| < cfg.depth then s.(fifo := s.fifo + [w]) else s.(overflowed := true)
  }

  function Step(cfg: Config, data: seq<int>, s: Sys, e: Event): Sys {
    match e
    case Pop => if s.fifo == [] then s else s.(fifo := s.fifo[1..], consumed := s.consumed + [s.fifo[0]])
    case Access(flag) =>
      if s.written >= |data| then s
      else if s.credit > 0 then PushWord(cfg, s, data[s.written]).(written := s.written + 1, credit := s.credit - 1)
      else if FlagSeen(cfg, s, flag) then s.(credit := Min(|data| - s.written, cfg.thld), bursts := s.bursts + 1)
      else s
  }

  function Run(cfg: Config, data: seq<int>, s: Sys, es: seq<Event>): Sys
    decreases |es|
  {
    if es == [] then s else Step(cfg, data, Run(cfg, data, s, es[..|es| - 1]), es[|es| - 1])
  }

  /** What the producer is told about the queue: a depth it has at least, and a threshold of at least one slot. */
  predicate Sound(cfg: Config) {
    cfg.queueDepth <= cfg.depth && 1 <= cfg.thld
  }

  // ---------------------------------------------------------------------
  // Safety
  // ---------------------------------------------------------------------

  predicate Inv(cfg: Config, data: seq<int>, s: Sys) {
    && !s.overflowed && s.written + s.credit <= |data|
    && s.consumed + s.fifo == data[..s.written]
    && |s.fifo| + s.credit <= cfg.depth
  }

  lemma InvStep(cfg: Config, data: seq<int>, s: Sys, e: Event)
    requires Sound(cfg) && Inv(cfg, data, s)
    ensures Inv(cfg, data, Step(cfg, data, s, e))
  {
    if e == Pop && s.fifo != [] {
      assert s.consumed + s.fifo == (s.consumed + [s.fifo[0]]) + s.fifo[1..];
    } else if e.Access? && s.written < |data| && s.credit > 0 {
      assert data[..s.written + 1] == data[..s.written] + [data[s.written]];
    }
  }

  /**
    In every interleaving the queue never overflows, and what was consumed
    followed by what is queued is exactly what was written so far.
   */
  lemma {:induction false} NeverOverflows(cfg: Config, data: seq<int>, es: seq<Event>)
    requires Sound(cfg)
    ensures Inv(cfg, data, Run(cfg, data, Init(cfg, data), es))
    decreases |es|
  {
    if es == [] {
      assert data[..0] == [];
    } else {
      NeverOverflows(cfg, data, es[..|es| - 1]);
      InvStep(cfg, data, Run(cfg, data, Init(cfg, data), es[..|es| - 1]), es[|es| - 1]);
    }
  }

  /** `n` bus accesses in a row. */
  function Accesses(n: nat): seq<Event> {
    seq(n, i requires 0 <= i < n => Access(false))
  }

  /** Told of too deep a queue, the producer fills it and goes on. */
  lemma {:induction false} FillsBlindly(cfg: Config, data: seq<int>, n: nat)
    requires n <= Min(|data|, cfg.queueDepth)
    ensures var s := Run(cfg, data, Init(cfg, data), Accesses(n));
      && s.written == n && s.credit == Min(|data|, cfg.queueDepth) - n && |s.fifo| == Min(n, cfg.depth)
      && (s.overflowed <==> n > cfg.depth)
    decreases n
  {
    if n > 0 {
      FillsBlindly(cfg, data, n - 1);
      assert Accesses(n)[..n - 1] == Accesses(n - 1);
    }
  }

  /**
    How deep the queue is said to be matters exactly: with a threshold of at
    least one slot and more data than the queue holds, some interleaving
    overflows it if and only if the producer is told of more slots than there
    are.
   */
  lemma OverflowsIff(cfg: Config, data: seq<int>)
    requires 1 <= cfg.thld && |data| > cfg.depth
    ensures (exists es :: Run(cfg, data, Init(cfg, data), es).overflowed) <==> cfg.queueDepth > cfg.depth
  {
    if cfg.queueDepth > cfg.depth {
      FillsBlindly(cfg, data, cfg.depth + 1);
    } else {
      forall es ensures !Run(cfg, data, Init(cfg, data), es).overflowed { NeverOverflows(cfg, data, es); }
    }
  }

  /** With nothing owed, a burst is granted exactly when the flag is set and the slots it promises are free. */
  lemma BurstGrantedIff(cfg: Config, data: seq<int>, s: Sys, flag: bool)
    requires s.written < |data| && s.credit == 0
    ensures var t := Step(cfg, data, s, Access(flag));
      (t.bursts == s.bursts + 1 <==> flag && cfg.depth - |s.fifo| >= cfg.thld) && t.fifo == s.fifo
  {
  }

  // ---------------------------------------------------------------------
  // Progress
  // ---------------------------------------------------------------------

  function CeilDiv(a: nat, b: nat): nat
    requires b >= 1
  {
    (a + b - 1) / b
  }

  /** Words that still need a flagged burst. */
  function Unclaimed(data: seq<int>, s: Sys): int {
    |data| - s.written - s.credit
  }

  /** A flagged access claims at least one word; nothing else claims any. */
  lemma BurstProgress(cfg: Config, data: seq<int>, s: Sys, e: Event)
    requires Sound(cfg) && Inv(cfg, data, s)
    ensures var t := Step(cfg, data, s, e);
      && (t.bursts == s.bursts + 1 ==> Unclaimed(data, t) == Unclaimed(data, s) - Min(Unclaimed(data, s), cfg.thld)
                                        && Unclaimed(data, t) < Unclaimed(data, s))
      && (t.bursts != s.bursts + 1 ==> t.bursts == s.bursts && Unclaimed(data, t) == Unclaimed(data, s))
  {
  }

  lemma CeilDivStep(a: nat, b: nat)
    requires b >= 1 && a >= 1
    ensures CeilDiv(a, b) == 1 + CeilDiv(a - Min(a, b), b)
  {
    if a <= b {
      assert a + b - 1 == b * 1 + (a - 1);
      DivExact(a + b - 1, b, 1, a - 1);
      DivExact(b - 1, b, 0, b - 1);
    } else {
      var q, r := (a - 1) / b, (a - 1) % b;
      assert a - 1 == b * q + r;
      DivExact(a + b - 1, b, q + 1, r);
      DivExact(a - b + b - 1, b, q, r);
    }
  }

  lemma DivExact(v: nat, b: nat, q: nat, r: nat)
    requires b >= 1 && r < b && v == b * q + r
    ensures v / b == q
  {
    var d := v / b - q;
    assert b * d == r - v % b by { assert v == b * (v / b) + v % b; }
    MulSign(b, d);
  }

  lemma MulSign(b: nat, d: int)
    ensures d >= 1 ==> b * d >= b
    ensures d <= -1 ==> b * d + b <= 0
  {
    if d >= 1 { assert b * d == b * (d - 1) + b; }
    if d <= -1 { assert b * d == b * (d + 1) - b; }
  }

  /** The bursts made and the bursts still needed always add up to the same number. */
  lemma {:induction false} BurstsAddUp(cfg: Config, data: seq<int>, es: seq<Event>)
    requires Sound(cfg)
    ensures var s := Run(cfg, data, Init(cfg, data), es);
      Unclaimed(data, s) >= 0 &&
      s.bursts + CeilDiv(Unclaimed(data, s), cfg.thld) == CeilDiv(|data| - Min(|data|, cfg.queueDepth), cfg.thld)
    decreases |es|
  {
    if es != [] {
      var init := es[..|es| - 1];
      NeverOverflows(cfg, data, init);
      BurstsAddUp(cfg, data, init);
      var s := Run(cfg, data, Init(cfg, data), init);
      BurstProgress(cfg, data, s, es[|es| - 1]);
      if Unclaimed(data, s) >= 1 { CeilDivStep(Unclaimed(data, s), cfg.thld); }
    }
  }

  // ---------------------------------------------------------------------
  // The producer
  // ---------------------------------------------------------------------

  /** The queue in the hardware, and the schedule the simulation will play. */
  class TxQueue {
    const cfg: Config
    const events: seq<Event>
    var pos: nat
    var fifo: seq<int>
    var consumed: seq<int>
    var overflowed: bool

    constructor (cfg: Config, events: seq<Event>)
      ensures this.cfg == cfg && this.events == events && pos == 0
      ensures fifo == [] && consumed == [] && !overflowed
    {
      this.cfg, this.events, pos := cfg, events, 0;
      fifo, consumed, overflowed := [], [], false;
    }

    ghost function State(written: nat, credit: nat, bursts: nat): Sys reads this {
      Sys(fifo, consumed, overflowed, written, credit, bursts)
    }

    /** The producer's place `(written, credit, bursts)` agrees with the events played so far. */
    ghost predicate At(data: seq<int>, written: nat, credit: nat, bursts: nat)
      reads this
    {
      pos <= |events| && State(written, credit, bursts) == Run(cfg, data, Init(cfg, data), events[..pos])
    }

    /** Lets the consumer go on until the producer's next access; `live` is false when the simulation ends first. */
    method AwaitAccess(ghost data: seq<int>, ghost written: nat, ghost credit: nat, ghost bursts: nat)
      returns (live: bool, flag: bool)
      requires At(data, written, credit, bursts)
      modifies this`pos, this`fifo, this`consumed
      ensures old(pos) <= pos <= |events| && (live ==> old(pos) < pos)
      ensures !live ==> At(data, written, credit, bursts) && pos == |events|
      ensures live ==> 1 <= pos && events[pos - 1] == Access(flag) &&
                       State(written, credit, bursts) == Run(cfg, data, Init(cfg, data), events[..pos - 1])
    {
      while pos < |events|
        invariant old(pos) <= pos && At(data, written, credit, bursts)
      {
        assert events[..pos + 1][..pos] == events[..pos];
        if events[pos].Access? {
          live, flag := true, events[pos].flag;
          pos := pos + 1;
          return;
        }
        if fifo != [] {
          consumed := consumed + [fifo[0]];
          fifo := fifo[1..];
        }
        pos := pos + 1;
      }
      live, flag := false, false;
    }

    method WriteWord(w: int)
      modifies this`fifo, this`overflowed
      ensures fifo == if |old(fifo)| < cfg.depth then old(fifo) + [w] else old(fifo)
      ensures overflowed == (old(overflowed) || |old(fifo)| >= cfg.depth)
    {
      if |fifo| < cfg.depth {
        fifo := fifo + [w];
      } else {
        overflowed := true;
      }
    }

    /** Writes `size` words from index `from` on; `now` is how far it got before the simulation ended. */
    method WriteChunk(data: seq<int>, from: nat, size: nat, ghost bursts: nat) returns (now: nat, live: bool)
      requires from + size <= |data| && At(data, from, size, bursts)
      modifies this`pos, this`fifo, this`consumed, this`overflowed
      ensures from <= now <= from + size && At(data, now, from + size - now, bursts)
      ensures old(pos) <= pos && if live then now == from + size else pos == |events|
    {
      now, live := from, true;
      while now < from + size
        invariant old(pos) <= pos && from <= now <= from + size && At(data, now, from + size - now, bursts)
      {
        var flag;
        live, flag := AwaitAccess(data, now, from + size - now, bursts);
        if !live { return; }
        assert events[..pos][..pos - 1] == events[..pos - 1];
        WriteWord(data[now]);
        now := now + 1;
      }
    }

    /** One poll of the status register; `ready` says that the threshold flag was seen set. */
    method Poll(ghost data: seq<int>, ghost written: nat, ghost bursts: nat) returns (live: bool, ready: bool)
      requires written < |data| && At(data, written, 0, bursts)
      modifies this`pos, this`fifo, this`consumed
      ensures !live ==> pos == |events| && At(data, written, 0, bursts)
      ensures live && !ready ==> At(data, written, 0, bursts)
      ensures live && ready ==> At(data, written, Min(|data| - written, cfg.thld), bursts + 1)
      ensures live ==> pos > old(pos)
    {
      ready := false;
      var flag;
      live, flag := AwaitAccess(data, written, 0, bursts);
      if live {
        assert events[..pos][..pos - 1] == events[..pos - 1];
        ready := flag && |fifo| + cfg.thld <= cfg.depth;
      }
    }

    /** The initial fill and the refill loop; `written` words are out when the simulation or the data end. */
    method PutTxData(data: seq<int>) returns (written: nat, bursts: nat)
      requires Sound(cfg) && pos == 0 && fifo == [] && consumed == [] && !overflowed
      modifies this
      ensures written <= |data| && (written < |data| ==> pos == |events|)
      ensures !overflowed && consumed + fifo == data[..written]
      ensures written == |data| ==> bursts == CeilDiv(|data| - Min(|data|, cfg.queueDepth), cfg.thld)
    {
      hide Run, Step, CeilDiv;
      var totalLen := |data|;
      bursts := 0;
      StartsAt(data);
      var live;
      ghost var credit: nat := Min(totalLen, cfg.queueDepth);
      written, live := WriteChunk(data, 0, Min(totalLen, cfg.queueDepth), 0);
      credit := credit - written;
      while live && written < totalLen
        invariant written + credit <= totalLen && At(data, written, credit, bursts)
        invariant if live then credit == 0 else pos == |events|
        decreases |events| - pos, live
      {
        var ready;
        live, ready := Poll(data, written, bursts);
        if live && ready {
          var burstSize := Min(totalLen - written, cfg.thld);
          bursts := bursts + 1;
          ghost var before := written;
          written, live := WriteChunk(data, written, burstSize, bursts);
          credit := before + burstSize - written;
        }
      }
      NeverOverflows(cfg, data, events[..pos]);
      BurstsAddUp(cfg, data, events[..pos]);
      if written == totalLen { CeilDivZero(cfg.thld); }
    }

    lemma StartsAt(data: seq<int>)
      requires pos == 0 && fifo == [] && consumed == [] && !overflowed
      ensures At(data, 0, Min(|data|, cfg.queueDepth), 0)
    {
      assert events[..0] == [];
    }
  }

  lemma CeilDivZero(b: nat)
    requires b >= 1
    ensures CeilDiv(0, b) == 0
  {
    DivExact(b - 1, b, 0, b - 1);
  }
}
