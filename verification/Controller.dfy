/**
  The controller as the object it is: one-shot knobs, bit loops and retry loops
  over its own fields, each method proved against `ControllerModel`.
 */
module Controller {
  import opened Wrappers
  import opened Bits
  import opened WiredAnd
  import M = ControllerModel
  import E = Entdaa
  import B = EntdaaBus

  class I3cController {
    const env: M.Env
    var chain: M.Chain
    var trace: seq<M.Op>
    var lastIbiResult: Option<M.IbiResult>
    var ibiNackCount: nat
    var gotIbi: Option<seq<Byte>>

    ghost function State(): M.Ctl reads this {
      M.Ctl(chain, trace, lastIbiResult, ibiNackCount, gotIbi)
    }

    constructor (env: M.Env)
      ensures this.env == env && State() == M.Ctl(M.NO_CHAIN, [], None, 0, None)
    {
      this.env := env;
      chain, trace, lastIbiResult, ibiNackCount, gotIbi := M.NO_CHAIN, [], None, 0, None;
    }

    // ---- One-shot knobs ----

    /** Refused while a write chain is configured. */
    method SetIbiChainCcc(ccc: Byte, data: Option<seq<Byte>>, addr: Option<Address>) returns (ok: bool)
      modifies this`chain
      ensures ok == old(chain).writeAddr.None?
      ensures chain == if ok then old(chain).(ccc := Some(ccc), cccData := data, cccAddr := addr) else old(chain)
    {
      if chain.writeAddr.Some? { return false; }
      chain := chain.(ccc := Some(ccc), cccData := data, cccAddr := addr);
      ok := true;
    }

    /** Refused while a CCC chain is configured. */
    method SetIbiChainWrite(addr: Address, data: seq<Byte>) returns (ok: bool)
      modifies this`chain
      ensures ok == old(chain).ccc.None?
      ensures chain == if ok then old(chain).(writeAddr := Some(addr), writeData := Some(data)) else old(chain)
    {
      if chain.ccc.Some? { return false; }
      chain := chain.(writeAddr := Some(addr), writeData := Some(data));
      ok := true;
    }

    method SetIbiSkipData(skip: bool)
      modifies this`chain
      ensures chain == old(chain).(skipData := skip)
    {
      chain := chain.(skipData := skip);
    }

    method SetIbiMaxData(maxLen: nat)
      modifies this`chain
      ensures chain == old(chain).(maxData := Some(maxLen))
    {
      chain := chain.(maxData := Some(maxLen));
    }

    /** Takes the knobs and clears them. */
    method ConsumeIbiChain() returns (ch: M.Chain)
      modifies this`chain
      ensures ch == old(chain) && chain == M.NO_CHAIN
    {
      ch := chain;
      chain := M.NO_CHAIN;
    }

    // ---- Bus primitives ----

    method Do(op: M.Op)
      modifies this`trace
      ensures trace == old(trace) + [op]
    {
      trace := trace + [op];
    }

    method SendBytesTbit(bs: seq<Byte>, bad: bool)
      modifies this`trace
      ensures trace == old(trace) + M.TbitOps(bs, bad)
    {
      var i := 0;
      while i < |bs|
        invariant 0 <= i <= |bs| && trace == old(trace) + M.TbitOps(bs, bad)[..i]
      {
        Do(M.SendTbit(bs[i], bad));
        i := i + 1;
      }
    }

    method SendBytesLegacy(bs: seq<Byte>)
      modifies this`trace
      ensures trace == old(trace) + M.LegacyOps(bs)
    {
      var i := 0;
      while i < |bs|
        invariant 0 <= i <= |bs| && trace == old(trace) + M.LegacyOps(bs)[..i]
      {
        Do(M.SendLegacy(bs[i]));
        i := i + 1;
      }
    }

    method RecvUntilEodTbit(limit: nat) returns (got: seq<Byte>)
      modifies this`trace
      ensures (State(), got) == M.Receive(env, old(State()), limit)
    {
      got := M.Upto(env.offered(|trace|), limit);
      Do(M.RecvTbit(limit, got));
    }

    // ---- Arbitration ----

    /** Drives a bit and reads the line back; arbitration is lost when a released line reads low. */
    method SendBitArb(b: Bit, others: seq<Driver>, i: nat) returns (arbOk: bool, level: Bit)
      requires i < 8
      ensures level == M.LevelWith(others, i, b, env.readback)
      ensures level <= b && (arbOk <==> level == b)
      ensures env.readback ==> (level == 1 <==> b == 1 && M.NobodyPulls(others, i))
    {
      level := b;
      if env.readback && b == 1 {
        level := M.LevelWith(others, i, b, true);
      }
      arbOk := !(b == 1 && level == 0);
    }

    /** Drives a byte bit by bit and stops driving at the first lost bit. */
    method SendByteArb(b: Byte, drivers: seq<Driver>) returns (arbOk: bool, busByte: Byte)
      ensures arbOk == M.SendByteArb(drivers, b, env.readback).ok
      ensures busByte == M.SendByteArb(drivers, b, env.readback).busByte
      ensures busByte <= b && (arbOk <==> busByte == b)
    {
      hide M.NobodyPulls, M.LevelWith, Level, Settle, MsbBit, Shr;
      M.ArbitrationBound(drivers, b, env.readback);
      arbOk := true;
      var others, acc: nat := drivers, 0;
      var i := 0;
      while i < 8
        invariant 0 <= i <= 8
        invariant M.ArbFrom(M.Arb(arbOk, acc, others), b, i, env.readback) == M.SendByteArb(drivers, b, env.readback)
      {
        ghost var a := M.Arb(arbOk, acc, others);
        var bit := MsbBit(b, 8, i);
        var level: Bit;
        if arbOk {
          arbOk, level := SendBitArb(bit, others, i);
        } else {
          level := Level(others, 8, i);
        }
        acc := acc * 2 + level;
        others := Settle(others, 8, i, level);
        i := i + 1;
        assert M.Arb(arbOk, acc, others) == M.ArbStep(a, b, i - 1, env.readback);
      }
      busByte := acc;
    }

    // ---- In-Band Interrupts ----

    method ExecuteChainCcc(ch: M.Chain, result: M.IbiResult) returns (r: M.IbiResult)
      requires ch.ccc.Some?
      modifies this`trace
      ensures M.Handled(State(), r) == M.ChainCcc(env, old(State()), ch, result)
    {
      r := result;
      Do(M.SendStart);
      Do(M.Header(M.RSVD_ADDR, false, true));
      Do(M.SendTbit(ch.ccc.value, false));
      ghost var opening := [M.SendStart, M.Header(M.RSVD_ADDR, false, true), M.SendTbit(ch.ccc.value, false)];
      ghost var s1 := M.EmitAll(old(State()), opening);
      assert State() == s1;
      if ch.cccData.Some? {
        if ch.cccAddr.Some? {
          var isRead := (ch.ccc.value as int) in M.DIRECTED_GET_CCCS;
          Do(M.SendStart);
          Do(M.Header(ch.cccAddr.value, isRead, true));
          assert State() == M.EmitAll(s1, [M.SendStart, M.Header(ch.cccAddr.value, isRead, true)]);
          if isRead {
            var resp := RecvUntilEodTbit(|ch.cccData.value|);
            r := r.(cccResponse := Some(resp));
          } else {
            SendBytesTbit(ch.cccData.value, false);
          }
        } else {
          SendBytesTbit(ch.cccData.value, false);
        }
      }
      Do(M.SendStop);
    }

    method ExecuteChainWrite(ch: M.Chain, result: M.IbiResult) returns (r: M.IbiResult)
      requires ch.writeAddr.Some?
      modifies this`trace
      ensures M.Handled(State(), r) == M.ChainWrite(env, old(State()), ch, result)
    {
      Do(M.SendStart);
      Do(M.Header(M.RSVD_ADDR, false, true));
      Do(M.SendStart);
      assert State() == M.EmitAll(old(State()), [M.SendStart, M.Header(M.RSVD_ADDR, false, true), M.SendStart]);
      var writeAck := env.acks(|trace|);
      Do(M.Header(ch.writeAddr.value, false, true));
      r := result.(chainWriteAck := Some(writeAck));
      if writeAck && ch.writeData.Some? {
        SendBytesTbit(ch.writeData.value, false);
      }
      Do(M.SendStop);
    }

    method ReadIbiData(ch: M.Chain, addr: Address, ack: bool) returns (data: seq<Byte>)
      modifies this`trace
      ensures (State(), data) == M.IbiPayload(env, old(State()), ch, addr, ack)
    {
      var maxData := if ch.maxData.Some? then ch.maxData.value else env.maxIbiDataLen;
      data := [];
      if ack && !ch.skipData {
        if addr in env.bcr {
          if (env.bcr[addr] / 4) % 2 == 1 {
            data := RecvUntilEodTbit(maxData + 1);
          }
        }
      }
    }

    method RunChain(ch: M.Chain, sendStop: bool, result: M.IbiResult) returns (r: M.IbiResult)
      modifies this`trace
      ensures M.Handled(State(), r) == M.IbiChain(env, old(State()), ch, sendStop, result)
    {
      r := result;
      if ch.ccc.Some? {
        r := ExecuteChainCcc(ch, r);
      } else if ch.writeAddr.Some? {
        r := ExecuteChainWrite(ch, r);
      } else if sendStop {
        Do(M.SendStop);
      }
    }

    method HandleIbiInline(addrByte: Byte, sendStop: bool) returns (result: M.IbiResult)
      modifies this
      ensures M.Handled(State(), result) == M.HandleIbi(env, old(State()), addrByte, sendStop)
    {
      hide M.IbiPayload, M.IbiChain;
      var ch := ConsumeIbiChain();
      var ack := !env.nackIbis(|trace|);
      var addr := addrByte / 2;
      Do(M.IbiAck(ack));
      var data := ReadIbiData(ch, addr, ack);
      result := RunChain(ch, sendStop, M.IbiResult(addr, data, ack, None, None));
      lastIbiResult := Some(result);
      if ack {
        gotIbi := Some([addr] + data);
      } else {
        ibiNackCount := ibiNackCount + 1;
      }
    }

    /** Reads a byte without driving the line. */
    method RecvByte(others: seq<Driver>) returns (b: Byte)
      ensures b == M.Heard(others)
    {
      hide Level, Settle, M.HearFrom;
      M.HeardIsByte(others);
      var acc: nat, ds := 0, others;
      for i := 0 to 8
        invariant M.HearFrom(ds, acc, i) == M.Heard(others)
      {
        M.HearNext(ds, acc, i);
        var level := Level(ds, 8, i);
        acc := acc * 2 + level;
        ds := Settle(ds, 8, i, level);
      }
      M.HearEnd(M.Arb(true, acc, ds));
      b := acc;
    }

    /** The background monitor's part after a START that others made: the address is read and the IBI answered. */
    method HandleTargetStart(starters: seq<Driver>) returns (result: M.IbiResult)
      modifies this
      ensures M.Heard(starters) < 256
      ensures M.Handled(State(), result) == M.HandleIbi(env, old(State()), M.Heard(starters), true)
    {
      hide M.HandleIbi, M.Heard;
      var addrByte := RecvByte(starters);
      result := HandleIbiInline(addrByte, true);
    }

    // ---- Headers and transfers ----

    /** `interrupted` stands for the exception that makes the caller retry. */
    method WriteAddrHeader(addr: Address, read: bool) returns (interrupted: bool, ack: bool)
      modifies this
      ensures var h := M.AddrHeader(env, old(State()), addr, read);
        && interrupted == h.IbiEvent? && State() == h.s && (h.Answered? ==> ack == h.ack)
    {
      hide M.HandleIbi;
      interrupted, ack := false, false;
      if addr == M.RSVD_ADDR && !read {
        var arbOk, busByte := SendByteArb(M.RSVD_WRITE, env.contenders(|trace|));
        Do(M.ArbHeader(arbOk, busByte));
        if !arbOk {
          var _ := HandleIbiInline(busByte, false);
          interrupted := true;
          return;
        }
        ack := env.acks(|trace|);
      } else {
        ack := env.acks(|trace|);
        Do(M.Header(addr, read, false));
      }
    }

    /** START and headers of one attempt; afterwards the segment is still to be sent. */
    method OpenTransfer(req: M.Req) returns (interrupted: bool, ack: bool)
      modifies this
      ensures M.Attempt(env, old(State()), req).Interrupted? <==> interrupted
      ensures interrupted ==> State() == M.Attempt(env, old(State()), req).s
      ensures !interrupted ==> M.Attempt(env, old(State()), req) == M.AfterHeader(env, State(), ack, req)
    {
      hide M.HandleIbi, M.SendByteArb, M.AfterHeader;
      Do(M.SendStart);
      if req.sendRsvd {
        interrupted, ack := WriteAddrHeader(M.RSVD_ADDR, false);
        if interrupted { return; }
        Do(M.SendStart);
      }
      interrupted, ack := WriteAddrHeader(req.addr, req.Read?);
    }

    method I3cWrite(addr: Address, data: seq<Byte>, stop: bool, legacy: bool, injectTbitErr: bool, sendRsvd: bool)
      returns (resp: Option<M.Resp>)
      modifies this
      ensures var f := M.Transfer(env, old(State()), M.Write(addr, data, stop, legacy, injectTbitErr, sendRsvd));
        State() == f.s && resp == (if f.Completed? then Some(f.resp) else None)
    {
      hide M.Attempt;
      ghost var req := M.Write(addr, data, stop, legacy, injectTbitErr, sendRsvd);
      Do(M.TakeBus);
      var retry := 0;
      while retry < M.MAX_IBI_RETRIES
        invariant 0 <= retry <= M.MAX_IBI_RETRIES
        invariant M.Retry(env, State(), req, retry) == M.Transfer(env, old(State()), req)
      {
        var interrupted, ack := OpenTransfer(M.Write(addr, data, stop, legacy, injectTbitErr, sendRsvd));
        if !interrupted {
          if ack {
            if legacy {
              SendBytesLegacy(data);
            } else {
              SendBytesTbit(data, injectTbitErr);
            }
          }
          if stop {
            Do(M.SendStop);
          }
          Do(M.GiveBus);
          return Some(M.WriteResp(!ack, |data|));
        }
        retry := retry + 1;
      }
      Do(M.GiveBus);
      resp := None;
    }

    method RecvBytesLegacy(count: nat) returns (data: seq<Byte>)
      modifies this`trace
      ensures (State(), data) == M.LegacyRead(env, old(State()), count, 0, [])
    {
      data := [];
      var i := 0;
      while i < count
        invariant 0 <= i <= count
        invariant M.LegacyRead(env, State(), count, i, data) == M.LegacyRead(env, old(State()), count, 0, [])
      {
        var bs := env.offered(|trace|);
        var b: Byte := if bs == [] then 0xFF else bs[0];
        Do(M.RecvLegacy(b, i != count - 1));
        data := data + [b];
        i := i + 1;
      }
    }

    method I3cRead(addr: Address, count: nat, stop: bool, legacy: bool, sendRsvd: bool) returns (resp: Option<M.Resp>)
      modifies this
      ensures var f := M.Transfer(env, old(State()), M.Read(addr, count, stop, legacy, sendRsvd));
        State() == f.s && resp == (if f.Completed? then Some(f.resp) else None)
    {
      hide M.Attempt;
      ghost var req := M.Read(addr, count, stop, legacy, sendRsvd);
      Do(M.TakeBus);
      var retry := 0;
      while retry < M.MAX_IBI_RETRIES
        invariant 0 <= retry <= M.MAX_IBI_RETRIES
        invariant M.Retry(env, State(), req, retry) == M.Transfer(env, old(State()), req)
      {
        var data: seq<Byte> := [];
        var interrupted, ack := OpenTransfer(M.Read(addr, count, stop, legacy, sendRsvd));
        if !interrupted {
          if ack {
            if legacy {
              data := RecvBytesLegacy(count);
            } else {
              data := RecvUntilEodTbit(count);
            }
          }
          if stop {
            Do(M.SendStop);
          }
          Do(M.GiveBus);
          return Some(M.ReadResp(!ack, data));
        }
        retry := retry + 1;
      }
      Do(M.GiveBus);
      resp := None;
    }
  
    // ---- Dynamic address assignment ----

    /**
      `raised` stands for the exception of a 7E/W header lost to an IBI, which
      leaves the procedure with the IBI handled and the bus still taken.
     */
    method I3cEntdaa(targets: seq<E.Target>, addrs: seq<Address>, injectTe3Parity: bool, injectTe4Rsvd: bool,
                     stopAfterN: Option<nat>)
      returns (raised: bool, results: seq<E.Entry>, ts: seq<E.Target>)
      modifies this
      ensures var r := B.Assign(env, old(State()), targets, addrs, injectTe3Parity, injectTe4Rsvd, stopAfterN);
        && raised == r.Raised? && State() == r.s
        && (if raised then ts == r.ts else E.Daa(results, ts) == r.daa)
    {
      hide M.AddrHeader, E.OneRound, E.AfterStop, E.AddressByte;
      Do(M.TakeBus);
      Do(M.SendStart);
      results, ts := [], targets;
      var interrupted, _ := WriteAddrHeader(M.RSVD_ADDR, false);
      if interrupted { return true, results, ts; }
      Do(M.SendTbit(E.ENTDAA_CODE, false));
      ghost var s0 := State();
      var targetsDone := 0;
      while targetsDone < |addrs|
        invariant 0 <= targetsDone <= |addrs|
        invariant
          B.RoundsFrom(env, State(), ts, addrs, targetsDone, injectTe3Parity, injectTe4Rsvd, stopAfterN, results) ==
          B.RoundsFrom(env, s0, targets, addrs, 0, injectTe3Parity, injectTe4Rsvd, stopAfterN, [])
      {
        if stopAfterN.Some? && targetsDone >= stopAfterN.value {
          break;
        }
        Do(M.SendStart);
        var lost, _ := WriteAddrHeader(M.RSVD_ADDR, !injectTe4Rsvd);
        if lost { return true, results, ts; }
        var acked, entry, addrByte;
        acked, entry, addrByte, ts := E.RunRound(ts, addrs[targetsDone], injectTe3Parity, injectTe4Rsvd);
        results := results + [entry];
        if !acked { break; }
        Do(M.SendLegacy(addrByte));
        targetsDone := targetsDone + 1;
      }
      Do(M.SendStop);
      Do(M.GiveBus);
      raised, ts := false, E.AfterStop(ts);
    }
  }
}
