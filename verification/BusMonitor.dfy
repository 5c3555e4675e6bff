/**
  The bus monitor as the object it is: every edge handler updates the fields in
  place and may end the monitor by raising a check.  Each handler is proved
  against the function of `BusMonitorModel` that says what it computes.
 */
module BusMonitor {
  import opened Wrappers
  import M = BusMonitorModel
  import BusMonitorInvariants

  class I3cBusMonitor {
    // Protocol state
    var phase: M.Phase
    var bitCount: nat
    var hdr: M.Header
    var dataAccum: int
    var byteInMsg: nat
    var prevScl: Bit
    var prevSda: Bit
    var busActive: bool
    var ccc: M.Ccc
    var stats: M.Stats
    var own: M.Own

    // Pending tSCO checks
    var deadlines: M.Deadlines

    // Violation tracking
    var suppressedChecks: set<M.CheckId>
    var log: M.Log

    ghost function Core(): M.Core reads this {
      M.Core(phase, bitCount, hdr, dataAccum, byteInMsg, prevScl, prevSda, busActive, ccc, stats, own)
    }

    /** What every sample keeps as long as no check ends the monitor. */
    ghost predicate Valid() reads this { BusMonitorInvariants.Inv(Core()) }

    constructor ()
      ensures Valid() && Core() == M.INITIAL_CORE && deadlines == M.INITIAL_DEADLINES
      ensures suppressedChecks == {} && log == M.Log([], 0)
    {
      phase, bitCount, hdr, dataAccum, byteInMsg := M.IDLE, 0, M.INITIAL_HEADER, 0, 0;
      prevScl, prevSda, busActive := 1, 1, false;
      ccc, stats := M.INITIAL_CCC, M.Stats(0, 0, 0, 0, 0, 0, 0);
      own := M.Own(None, None);
      deadlines := M.INITIAL_DEADLINES;
      suppressedChecks, log := {}, M.Log([], 0);
    }

    method SetDutDynamicAddr(addr: Address)
      requires Valid()
      modifies this`own
      ensures Valid() && Core() == old(Core()).(own := old(own).(dut := Some(addr)))
    {
      BusMonitorInvariants.InvAddresses(Core(), own.(dut := Some(addr)));
      own := own.(dut := Some(addr));
    }

    method SetVirtDynamicAddr(addr: Address)
      requires Valid()
      modifies this`own
      ensures Valid() && Core() == old(Core()).(own := old(own).(virt := Some(addr)))
    {
      BusMonitorInvariants.InvAddresses(Core(), own.(virt := Some(addr)));
      own := own.(virt := Some(addr));
    }

    method SuppressCheck(id: M.CheckId)
      modifies this`suppressedChecks
      ensures suppressedChecks == old(suppressedChecks) + {id}
    {
      suppressedChecks := suppressedChecks + {id};
    }

    method UnsuppressCheck(id: M.CheckId)
      modifies this`suppressedChecks
      ensures suppressedChecks == old(suppressedChecks) - {id}
    {
      suppressedChecks := suppressedChecks - {id};
    }

    /** Evaluates one check; `raised` is the check that ends the monitor. */
    method Check(violated: bool, id: M.CheckId) returns (raised: M.Raise)
      modifies this`log
      ensures raised == M.When(violated, id, suppressedChecks) && log == M.Logged(old(log), raised)
    {
      if violated && id !in suppressedChecks {
        log := M.Log(log.violations + [id], log.count + 1);
        return Some(id);
      }
      return None;
    }

    method CheckOdPpTruthTable(dut: M.Dut) returns (raised: M.Raise)
      modifies this`log
      ensures raised == M.TruthTable(dut, suppressedChecks) && log == M.Logged(old(log), raised)
    {
      if dut.odPp.None? || dut.oe.None? || dut.sdaO.None? {
        return None;
      }
      if dut.odPp.value == 0 {
        var expectedOe := if dut.sdaO.value == 0 then 1 else 0;
        raised := Check(dut.oe.value != expectedOe, M.OD_PP_TABLE);
      } else {
        raised := Check(dut.oe.value != 1, M.OD_PP_TABLE);
      }
    }

    method CheckContention(sda: Bit, dut: M.Dut) returns (raised: M.Raise)
      modifies this`log
      ensures raised == M.Contention(phase, sda, dut, suppressedChecks) && log == M.Logged(old(log), raised)
    {
      if phase == M.IDLE || !dut.Driving() {
        return None;
      }
      raised := Check(dut.PushPull() && dut.sdaO == Some(1) && sda == 0, M.BUS_CONTENTION);
    }

    method CheckPhaseBusMode(dut: M.Dut) returns (raised: M.Raise)
      modifies this`log
      ensures raised == M.BusMode(phase, hdr.isSr, ccc.entdaaBits, dut, suppressedChecks)
      ensures log == M.Logged(old(log), raised)
    {
      if !dut.Driving() {
        return None;
      }
      var expectedPp := false;
      if phase == M.ADDR_BITS {
        if hdr.isSr { return None; }
      } else if phase == M.ENTDAA {
        if ccc.entdaaBits >= 64 { return None; }
      } else if phase in {M.WRITE_DATA, M.WRITE_TBIT, M.IBI_MDB, M.IBI_DATA, M.IBI_DATA_TBIT, M.CCC_BYTE, M.CCC_TBIT} {
        expectedPp := true;
      } else if phase !in {M.ADDR_ACK, M.IBI_ADDR_ACK} {
        return None;
      }
      raised := Check(dut.PushPull() != expectedPp, M.PHASE_BUS_MODE);
    }

    method CheckTargetSilentNonmatching(dut: M.Dut) returns (raised: M.Raise)
      modifies this`log
      ensures raised == M.TargetSilent(phase, hdr, dut, suppressedChecks) && log == M.Logged(old(log), raised)
    {
      raised := None;
      if phase in {M.WRITE_DATA, M.WRITE_TBIT, M.READ_DATA, M.READ_TBIT} {
        if !hdr.isAddressed && !hdr.isBroadcast {
          raised := Check(dut.Driving(), M.TARGET_SILENT);
        }
      }
    }

    // ---- Address phase ----

    method EnterAddrPhase(isSr: bool)
      modifies this`hdr, this`bitCount, this`byteInMsg, this`dataAccum, this`phase, this`stats
      ensures Core() == M.EnterAddrPhase(old(Core()), isSr)
    {
      hdr := M.Header(0, 0, false, false, false, false, isSr, Some(false));
      bitCount, byteInMsg, dataAccum := 0, 0, 0;
      phase := M.ADDR_BITS;
      stats := stats.(addrPhases := stats.addrPhases + 1);
    }

    /** An arbitrable header must be Open-Drain; after a Repeated START the target must be silent. */
    method CheckAddrBit(dut: M.Dut) returns (raised: M.Raise)
      requires bitCount < 7
      modifies this`log
      ensures raised == M.AddrBitChecks(bitCount, hdr.isSr, dut, suppressedChecks) && log == M.Logged(old(log), raised)
    {
      if !hdr.isSr {
        raised := Check(dut.Driving() && dut.PushPull(), M.ADDR_OD);
      } else {
        raised := Check(dut.Driving(), M.NO_ARB_AFTER_SR);
      }
    }

    method OnAddrBitRise(sda: Bit, dut: M.Dut) returns (raised: M.Raise)
      modifies this`hdr, this`bitCount, this`log
      ensures raised == M.AddrBitChecks(old(bitCount), old(hdr).isSr, dut, suppressedChecks)
      ensures log == M.Logged(old(log), raised)
      ensures raised.None? ==> Core() == M.AddrBitRise(old(Core()), sda, dut.Driving())
    {
      raised := None;
      if bitCount < 7 {
        hdr := hdr.(addrAccum := hdr.addrAccum * 2 + sda);
        if !hdr.isSr && dut.Driving() {
          hdr := hdr.(dutDroveAddr := Some(true));
        }
        raised := CheckAddrBit(dut);
        if raised.Some? { return; }
      } else if bitCount == 7 {
        hdr := hdr.(rnw := sda);
      }
      bitCount := bitCount + 1;
    }

    method OnAddrBitFall()
      modifies this`hdr, this`phase, this`stats
      ensures Core() == M.AddrBitFall(old(Core()))
    {
      if bitCount >= 8 {
        var addr := hdr.addrAccum;
        hdr := hdr.(isBroadcast := addr == M.BROADCAST_ADDR,
                    isAddressed := (own.dut.Some? && addr == own.dut.value) ||
                                   (own.virt.Some? && addr == own.virt.value),
                    isVirt := own.virt.Some? && addr == own.virt.value);
        if !hdr.isSr && hdr.isAddressed && hdr.rnw == 1 && hdr.dutDroveAddr == Some(true) {
          hdr := hdr.(isIbi := true);
          stats := stats.(ibiRequests := stats.ibiRequests + 1);
          phase := M.IBI_ADDR_ACK;
        } else {
          phase := M.ADDR_ACK;
        }
      }
    }

    method OnAddrAckRise(sda: Bit, dut: M.Dut, now: real) returns (raised: M.Raise)
      requires phase == M.ADDR_ACK
      modifies this`deadlines, this`log
      ensures var ours := hdr.isAddressed || hdr.isBroadcast;
        raised == M.When(ours && dut.Driving() && dut.PushPull(), M.ACK_OD, suppressedChecks)
      ensures log == M.Logged(old(log), raised)
      ensures raised.None? ==> Core() == old(Core())
      ensures raised.None? ==> deadlines == M.Schedule(old(deadlines), phase, old(hdr), ccc.entdaaBits, sda, now)
    {
      raised := None;
      if hdr.isAddressed || hdr.isBroadcast {
        raised := Check(dut.Driving() && dut.PushPull(), M.ACK_OD);
        if raised.Some? { return; }
      }
      if (hdr.isAddressed || hdr.isBroadcast) && hdr.rnw == 0 {
        if sda == 0 {
          deadlines := deadlines.(handoffTime := Some(now + M.TSCO_MAX_NS), handoffAddr := hdr.addrAccum);
        }
      }
    }

    method OnAddrAckFall(sda: Bit)
      modifies this`phase, this`bitCount, this`dataAccum, this`byteInMsg, this`ccc
      ensures Core() == M.AddrAckFall(old(Core()), sda)
    {
      var acked := sda == 0;
      if !acked {
        phase := M.IDLE;
        return;
      }
      if hdr.isBroadcast && hdr.rnw == 0 {
        phase, bitCount, dataAccum, byteInMsg := M.CCC_BYTE, 0, 0, 0;
        ccc := ccc.(code := None, definingByte := None, readBytes := [], writeBytes := [],
                    inRead := false, inWrite := false);
        return;
      }
      if hdr.isAddressed || hdr.isBroadcast {
        if ccc.isEntdaa && hdr.isBroadcast && hdr.rnw == 1 {
          phase, ccc := M.ENTDAA, ccc.(entdaaBits := 0);
          return;
        }
        if hdr.rnw == 0 {
          if ccc.code.Some? && hdr.isSr {
            ccc := ccc.(inWrite := true, writeBytes := [], directAddr := Some(hdr.addrAccum));
          }
          phase := M.WRITE_DATA;
        } else {
          if ccc.code.Some? && hdr.isSr {
            ccc := ccc.(inRead := true, readBytes := [], directAddr := Some(hdr.addrAccum));
          }
          phase := M.READ_DATA;
        }
        bitCount, dataAccum := 0, 0;
      } else {
        phase := M.IDLE;
      }
    }

    // ---- Data phases ----

    /** Shared by the write, read, IBI and CCC byte phases. */
    method OnDataBitFall(tbit: M.Phase)
      modifies this`bitCount, this`phase
      ensures Core() == M.DataBitFall(old(Core()), tbit)
    {
      bitCount := bitCount + 1;
      if bitCount >= 8 {
        phase, bitCount := tbit, 0;
      }
    }

    method OnWriteTbitFall()
      modifies this`stats, this`ccc, this`byteInMsg, this`phase, this`bitCount, this`dataAccum
      ensures Core() == M.WriteTbitFall(old(Core()))
    {
      stats := stats.(writeBytes := stats.writeBytes + 1);
      if ccc.inWrite {
        ccc := ccc.(writeBytes := ccc.writeBytes + [dataAccum % 256]);
      }
      byteInMsg := byteInMsg + 1;
      phase, bitCount, dataAccum := M.WRITE_DATA, 0, 0;
    }

    method OnReadTbitRise(dut: M.Dut, now: real) returns (raised: M.Raise)
      requires phase == M.READ_TBIT || phase == M.IBI_DATA_TBIT
      modifies this`deadlines, this`log
      ensures raised == M.When(hdr.isAddressed && dut.Driving() && dut.OpenDrain(), M.READ_TBIT_PP, suppressedChecks)
      ensures log == M.Logged(old(log), raised)
      ensures raised.None? ==> Core() == old(Core())
      ensures raised.None? ==>
        forall sda :: deadlines == M.Schedule(old(deadlines), phase, old(hdr), ccc.entdaaBits, sda, now)
    {
      raised := None;
      if hdr.isAddressed {
        raised := Check(dut.Driving() && dut.OpenDrain(), M.READ_TBIT_PP);
        if raised.Some? { return; }
        deadlines := deadlines.(handoffTime := Some(now + M.TSCO_MAX_NS), handoffAddr := hdr.addrAccum,
                                handoffId := M.READ_TBIT_RELEASE);
      }
    }

    method OnReadTbitFall()
      modifies this`stats, this`ccc, this`byteInMsg, this`phase, this`bitCount, this`dataAccum
      ensures Core() == M.ReadTbitFall(old(Core()))
    {
      stats := stats.(readBytes := stats.readBytes + 1);
      if ccc.inRead {
        ccc := ccc.(readBytes := ccc.readBytes + [dataAccum % 256]);
      }
      byteInMsg := byteInMsg + 1;
      phase, bitCount, dataAccum := M.READ_DATA, 0, 0;
    }

    method OnEntdaaRise(dut: M.Dut, now: real) returns (raised: M.Raise)
      requires phase == M.ENTDAA
      modifies this`deadlines, this`log
      ensures raised == M.EntdaaChecks(ccc.entdaaBits, dut, suppressedChecks) && log == M.Logged(old(log), raised)
      ensures raised.None? ==> Core() == old(Core())
      ensures raised.None? ==>
        forall sda :: deadlines == M.Schedule(old(deadlines), phase, old(hdr), ccc.entdaaBits, sda, now)
    {
      raised := None;
      var bc := ccc.entdaaBits;
      if bc < 64 {
        raised := Check(dut.Driving() && dut.PushPull(), M.ENTDAA_OD);
        if raised.Some? { return; }
        if bc == 63 {
          deadlines := deadlines.(handoffTime := Some(now + M.TSCO_MAX_NS), handoffAddr := M.BROADCAST_ADDR,
                                  handoffId := M.ENTDAA_DA_HANDOFF);
        }
      } else if 64 <= bc < 72 {
        raised := Check(dut.Driving(), M.ENTDAA_DA_HANDOFF);
      }
    }

    method OnEntdaaFall()
      modifies this`ccc, this`phase
      ensures Core() == M.EntdaaFall(old(Core()))
    {
      ccc := ccc.(entdaaBits := ccc.entdaaBits + 1);
      if ccc.entdaaBits >= 73 {
        phase := M.IDLE;
      }
    }

    method OnIbiAckRise(sda: Bit, dut: M.Dut, now: real) returns (raised: M.Raise)
      requires phase == M.IBI_ADDR_ACK
      modifies this`deadlines, this`log
      ensures raised == M.When(dut.Driving() && dut.PushPull(), M.IBI_ACK_OD, suppressedChecks)
      ensures log == M.Logged(old(log), raised)
      ensures raised.None? ==> Core() == old(Core())
      ensures raised.None? ==> deadlines == M.Schedule(old(deadlines), phase, old(hdr), ccc.entdaaBits, sda, now)
    {
      raised := Check(dut.Driving() && dut.PushPull(), M.IBI_ACK_OD);
      if raised.Some? { return; }
      if sda == 0 {
        deadlines := deadlines.(takeoverTime := Some(now + M.TSCO_MAX_NS), takeoverAddr := hdr.addrAccum);
      }
    }

    method OnIbiAckFall(sda: Bit)
      modifies this`phase, this`bitCount, this`dataAccum
      ensures Core() == M.IbiAckFall(old(Core()), sda)
    {
      if sda == 0 {
        phase, bitCount, dataAccum := M.IBI_MDB, 0, 0;
      } else {
        phase := M.IDLE;
      }
    }

    method OnIbiDataTbitFall()
      modifies this`stats, this`phase, this`bitCount
      ensures Core() == M.IbiDataTbitFall(old(Core()))
    {
      stats := stats.(readBytes := stats.readBytes + 1);
      phase, bitCount := M.IBI_DATA, 0;
    }

    method OnCccTbitFall()
      modifies this`ccc, this`phase, this`busActive, this`byteInMsg, this`bitCount, this`dataAccum
      ensures Core() == M.CccTbitFall(old(Core()))
    {
      if byteInMsg == 0 {
        var code := dataAccum % 256;
        ccc := ccc.(lastCode := code, code := Some(code), definingByte := None);
        if code == 0x07 {
          ccc := ccc.(isEntdaa := true);
        }
        if 0x20 <= code <= 0x27 {
          phase, busActive := M.HDR_MODE, false;
          ccc := ccc.(code := None);
          return;
        }
      } else if byteInMsg == 1 && ccc.code.Some? {
        ccc := ccc.(definingByte := Some(dataAccum % 256));
      }
      byteInMsg := byteInMsg + 1;
      phase, bitCount, dataAccum := M.CCC_BYTE, 0, 0;
    }

    // ---- START and STOP ----

    method OnStartDetected()
      modifies this`busActive, this`deadlines, this`ccc, this`stats, this`hdr, this`bitCount,
               this`byteInMsg, this`dataAccum, this`phase
      ensures Core() == M.OnStart(old(Core()))
      ensures deadlines == M.Cleared(old(deadlines))
    {
      var isSr := busActive;
      busActive := true;
      deadlines := deadlines.(handoffTime := None, takeoverTime := None);
      if isSr {
        if ccc.inRead && (phase == M.READ_DATA || phase == M.READ_TBIT) {
          var expected := M.ExpectedReadCount(ccc);
          if expected.Some? && |ccc.readBytes| < expected.value {
            ccc := ccc.(aborted := true, abortCount := ccc.abortCount + 1);
          }
          ccc := ccc.(inRead := false);
        }
      } else {
        stats := stats.(starts := stats.starts + 1);
        ccc := ccc.(code := None, definingByte := None, inRead := false, inWrite := false);
      }
      EnterAddrPhase(isSr);
    }

    /** A GET that was answered wrongly ends the monitor. */
    method CheckGetCccResponse(sigs: M.Signals) returns (raised: M.Raise)
      requires ccc.code.Some? && ccc.inRead && ccc.readBytes != []
      modifies this`log
      ensures raised == M.ResponseCheck(ccc, own, sigs, suppressedChecks) && log == M.Logged(old(log), raised)
    {
      if sigs.responses.None? { return None; }
      var expected := M.ExpectedResponse(ccc, own, sigs.responses.value);
      if expected.None? { return None; }
      var got, i := ccc.readBytes, 0;
      while i < |got| && i < |expected.value|
        invariant 0 <= i <= |got| && i <= |expected.value| && log == old(log)
        invariant M.CCC_RESPONSE_DATA in suppressedChecks || forall k :: 0 <= k < i ==> got[k] == expected.value[k]
      {
        raised := Check(got[i] != expected.value[i], M.CCC_RESPONSE_DATA);
        if raised.Some? { return; }
        i := i + 1;
      }
      return None;
    }

    /** A register that does not hold what was written is recorded, and the exception swallowed. */
    method CheckSetCccCsr(sigs: M.Signals)
      requires ccc.code.Some? && ccc.inWrite
      modifies this`log
      ensures log == M.Logged(old(log), M.When(M.WrongCsr(ccc, sigs), M.SET_CSR_CONSISTENCY, suppressedChecks))
    {
      var data := ccc.writeBytes;
      if ccc.code == Some(0x89) && |data| >= 2 {
        if sigs.csrMwl.Some? {
          var _ := Check(sigs.csrMwl.value != data[0] * 256 + data[1], M.SET_CSR_CONSISTENCY);
        }
      } else if ccc.code == Some(0x8A) && |data| >= 2 {
        if sigs.csrMrl.Some? {
          var _ := Check(sigs.csrMrl.value != data[0] * 256 + data[1], M.SET_CSR_CONSISTENCY);
        }
      }
    }

    method CheckCccCompletion(sigs: M.Signals) returns (raised: M.Raise)
      modifies this`log
      ensures raised == M.ResponseCheck(ccc, own, sigs, suppressedChecks)
      ensures log == M.Logged(M.Logged(old(log), M.CsrRecord(ccc, own, sigs, suppressedChecks)), raised)
    {
      if ccc.code.None? { return None; }
      raised := None;
      if ccc.inRead && ccc.readBytes != [] {
        raised := CheckGetCccResponse(sigs);
        if raised.Some? { return; }
      }
      if ccc.inWrite && ccc.writeBytes != [] {
        CheckSetCccCsr(sigs);
      }
    }

    method OnStopDetected(sigs: M.Signals) returns (raised: M.Raise)
      modifies this`stats, this`deadlines, this`busActive, this`phase, this`ccc, this`log
      ensures raised == M.ResponseCheck(old(ccc), own, sigs, suppressedChecks)
      ensures log == M.Logged(M.Logged(old(log), M.CsrRecord(old(ccc), own, sigs, suppressedChecks)), raised)
      ensures raised.None? ==> Core() == M.OnStop(old(Core())) && deadlines == M.Cleared(old(deadlines))
    {
      stats := stats.(stops := stats.stops + 1);
      deadlines := deadlines.(handoffTime := None, takeoverTime := None);
      raised := CheckCccCompletion(sigs);
      if raised.Some? { return; }
      busActive, phase := false, M.IDLE;
      ccc := ccc.(isEntdaa := false, code := None, definingByte := None, inRead := false, inWrite := false);
    }

    // ---- Edges ----

    /** The three checks made at every SCL rise. */
    method CheckEveryRise(sda: Bit, dut: M.Dut) returns (raised: M.Raise)
      modifies this`log
      ensures raised == M.CommonRiseChecks(phase, hdr.isSr, ccc.entdaaBits, sda, dut, suppressedChecks)
      ensures log == M.Logged(old(log), raised)
    {
      raised := CheckOdPpTruthTable(dut);
      if raised.Some? { return; }
      raised := CheckContention(sda, dut);
      if raised.Some? { return; }
      raised := CheckPhaseBusMode(dut);
    }

    method OnReadDataRise(dut: M.Dut) returns (raised: M.Raise)
      modifies this`log
      ensures raised == M.When(hdr.isAddressed && dut.Driving() && dut.OpenDrain(), M.READ_PP, suppressedChecks)
      ensures log == M.Logged(old(log), raised)
    {
      raised := None;
      if hdr.isAddressed {
        raised := Check(dut.Driving() && dut.OpenDrain(), M.READ_PP);
      }
    }

    /** The part of the SCL rise that depends on the phase. */
    method DispatchRise(sda: Bit, dut: M.Dut, now: real) returns (raised: M.Raise)
      requires phase != M.HDR_MODE
      modifies this`hdr, this`bitCount, this`dataAccum, this`deadlines, this`log
      ensures raised == M.PhaseRiseChecks(phase, old(bitCount), old(hdr), ccc.entdaaBits, dut, suppressedChecks)
      ensures log == M.Logged(old(log), raised)
      ensures raised.None? ==> Core() == M.PhaseRise(old(Core()), sda, dut.Driving())
      ensures raised.None? ==> deadlines == M.Schedule(old(deadlines), phase, old(hdr), ccc.entdaaBits, sda, now)
    {
      raised := None;
      match phase
      case ADDR_BITS | IBI_ADDR_BITS => raised := OnAddrBitRise(sda, dut);
      case ADDR_ACK => raised := OnAddrAckRise(sda, dut, now);
      case IBI_ADDR_ACK => raised := OnIbiAckRise(sda, dut, now);
      case READ_DATA =>
        raised := OnReadDataRise(dut);
        if raised.Some? { return; }
        dataAccum := dataAccum * 2 + sda;
      case IBI_MDB | IBI_DATA => raised := OnReadDataRise(dut);
      case READ_TBIT | IBI_DATA_TBIT => raised := OnReadTbitRise(dut, now);
      case WRITE_DATA | CCC_BYTE => dataAccum := dataAccum * 2 + sda;
      case ENTDAA => raised := OnEntdaaRise(dut, now);
      case _ =>
    }

    method OnSclRising(sda: Bit, dut: M.Dut, now: real) returns (raised: M.Raise)
      requires phase != M.HDR_MODE
      modifies this`stats, this`hdr, this`bitCount, this`dataAccum, this`deadlines, this`log
      ensures raised == M.RiseChecks(phase, old(bitCount), old(hdr), ccc.entdaaBits, sda, dut, suppressedChecks)
      ensures log == M.Logged(old(log), raised)
      ensures raised.None? ==> Core() == M.OnRise(old(Core()), sda, dut.Driving())
      ensures raised.None? ==> deadlines == M.Schedule(old(deadlines), phase, old(hdr), ccc.entdaaBits, sda, now)
    {
      stats := stats.(sclEdges := stats.sclEdges + 1);
      raised := CheckEveryRise(sda, dut);
      if raised.None? {
        raised := DispatchRise(sda, dut, now);
      }
    }

    /** The handler of an SCL fall. */
    method DispatchFall(sda: Bit)
      requires phase != M.HDR_MODE
      modifies this`phase, this`bitCount, this`hdr, this`dataAccum, this`byteInMsg,
               this`busActive, this`ccc, this`stats
      ensures Core() == M.OnFall(old(Core()), sda)
    {
      match phase
      case ADDR_BITS | IBI_ADDR_BITS => OnAddrBitFall();
      case ADDR_ACK => OnAddrAckFall(sda);
      case IBI_ADDR_ACK => OnIbiAckFall(sda);
      case WRITE_DATA => OnDataBitFall(M.WRITE_TBIT);
      case WRITE_TBIT => OnWriteTbitFall();
      case READ_DATA => OnDataBitFall(M.READ_TBIT);
      case READ_TBIT => OnReadTbitFall();
      case IBI_MDB | IBI_DATA => OnDataBitFall(M.IBI_DATA_TBIT);
      case IBI_DATA_TBIT => OnIbiDataTbitFall();
      case CCC_BYTE => OnDataBitFall(M.CCC_TBIT);
      case CCC_TBIT => OnCccTbitFall();
      case ENTDAA => OnEntdaaFall();
      case _ =>
    }

    method OnSclFalling(sda: Bit, dut: M.Dut) returns (raised: M.Raise)
      requires phase != M.HDR_MODE
      modifies this`phase, this`bitCount, this`hdr, this`dataAccum, this`byteInMsg,
               this`busActive, this`ccc, this`stats, this`log
      ensures raised == M.FallChecks(old(Core()), sda, dut, suppressedChecks) && log == M.Logged(old(log), raised)
      ensures raised.None? ==> Core() == M.OnFall(old(Core()), sda)
    {
      raised := CheckOdPpTruthTable(dut);
      if raised.Some? { return; }
      DispatchFall(sda);
      raised := CheckTargetSilentNonmatching(dut);
    }

    /** The two checks whose deadline has come. */
    method FireDueChecks(dut: M.Dut, now: real) returns (raised: M.Raise)
      modifies this`deadlines, this`log
      ensures raised == M.DueChecks(old(deadlines), dut, now, suppressedChecks) && log == M.Logged(old(log), raised)
      ensures raised.None? ==> Core() == old(Core()) && deadlines == M.Expire(old(deadlines), now)
    {
      raised := None;
      if deadlines.handoffTime.Some? {
        if now >= deadlines.handoffTime.value {
          raised := Check(dut.Driving(), deadlines.handoffId);
          if raised.Some? { return; }
          deadlines := deadlines.(handoffTime := None);
        }
      }
      if deadlines.takeoverTime.Some? {
        if now >= deadlines.takeoverTime.value {
          raised := Check(!(dut.Driving() && dut.PushPull()), M.IBI_ACK_HANDOFF);
          if raised.Some? { return; }
          deadlines := deadlines.(takeoverTime := None);
        }
      }
    }

    /** Classifies the edge a sample makes and runs its handler. */
    method OnEdge(s: M.Sample) returns (raised: M.Raise)
      requires s.Defined()
      modifies this
      ensures suppressedChecks == old(suppressedChecks)
      ensures var e, c := M.EdgeOf(old(Core()), s.scl.value, s.sda.value), old(Core());
        && raised == M.EdgeChecks(c, e, s, suppressedChecks)
        && log == M.EdgeLogged(old(log), c, e, s, suppressedChecks)
        && (raised.None? ==> Core() == M.OnEdge(c, e, s.sda.value, s.dut.Driving()))
        && (raised.None? ==> deadlines == M.DeadlinesAtEdge(old(deadlines), c, e, s.sda.value, s.now))
    {
      hide M.ResponseCheck, M.CsrRecord, M.OnStop, M.OnStart, M.OnRise, M.OnFall, M.RiseChecks, M.FallChecks;
      var scl, sda := s.scl.value, s.sda.value;
      var sclRose, sclFell := scl == 1 && prevScl == 0, scl == 0 && prevScl == 1;
      var sdaFell, sdaRose := sda == 0 && prevSda == 1, sda == 1 && prevSda == 0;
      raised := None;
      if sdaFell && scl == 1 && prevScl == 1 {
        if phase != M.HDR_MODE {
          OnStartDetected();
        }
      } else if sdaRose && scl == 1 && prevScl == 1 {
        if phase == M.HDR_MODE {
          phase, busActive := M.IDLE, false;
          ccc := ccc.(isEntdaa := false);
        } else {
          raised := OnStopDetected(s.sigs);
        }
      } else if sclRose {
        if phase != M.HDR_MODE {
          raised := OnSclRising(sda, s.dut, s.now);
        }
      } else if sclFell {
        if phase != M.HDR_MODE {
          raised := OnSclFalling(sda, s.dut);
        }
      }
    }

    /** One turn of the monitor loop; `raised` is the check that ends the monitor. */
    method OnSample(s: M.Sample) returns (raised: M.Raise)
      requires Valid()
      modifies this
      ensures raised.None? ==> Valid()
      ensures suppressedChecks == old(suppressedChecks)
      ensures raised == M.RaisedBy(old(Core()), old(deadlines), s, suppressedChecks)
      ensures log == M.LogStep(old(log), old(Core()), old(deadlines), s, suppressedChecks)
      ensures raised.None? ==> Core() == M.CoreStep(old(Core()), s)
      ensures raised.None? ==> deadlines == M.DeadlineStep(old(deadlines), old(Core()), s)
    {
      hide M.EdgeChecks, M.EdgeRecord, M.OnEdge, M.DeadlinesAtEdge, M.EdgeOf, M.DueChecks, BusMonitorInvariants.Inv;
      BusMonitorInvariants.InvStep(Core(), s);
      if s.scl.None? || s.sda.None? {
        return None;
      }
      raised := OnEdge(s);
      if raised.Some? { return; }
      prevScl, prevSda := s.scl.value, s.sda.value;
      raised := FireDueChecks(s.dut, s.now);
    }

    /** The monitor loop over a finite stream of samples; it ends at the first check that raises. */
    method MonitorLoop(samples: seq<M.Sample>) returns (raised: M.Raise, consumed: nat)
      requires Valid()
      modifies this
      ensures raised.None? ==> Valid()
      ensures consumed == M.Survives(old(Core()), old(deadlines), samples, old(suppressedChecks))
      ensures raised.None? <==> consumed == |samples|
      ensures log == M.LogRun(old(log), old(Core()), old(deadlines), samples, old(suppressedChecks))
      ensures raised.None? ==> Core() == M.CoreRun(old(Core()), samples)
      ensures raised.None? ==> deadlines == M.DeadlineRun(old(deadlines), old(Core()), samples)
    {
      hide M.CoreStep, M.DeadlineStep, M.RaisedBy, M.LogStep, BusMonitorInvariants.Inv;
      consumed := 0;
      raised := None;
      ghost var c0, d0, sup := Core(), deadlines, suppressedChecks;
      while consumed < |samples|
        invariant consumed <= |samples| && raised.None? && Valid() && suppressedChecks == sup
        invariant M.CoreRun(Core(), samples[consumed..]) == M.CoreRun(c0, samples)
        invariant M.DeadlineRun(deadlines, Core(), samples[consumed..]) == M.DeadlineRun(d0, c0, samples)
        invariant M.LogRun(log, Core(), deadlines, samples[consumed..], sup) == M.LogRun(old(log), c0, d0, samples, sup)
        invariant M.Survives(c0, d0, samples, sup) ==
                  consumed + M.Survives(Core(), deadlines, samples[consumed..], sup)
      {
        ghost var rest := samples[consumed..];
        assert rest[0] == samples[consumed] && rest[1..] == samples[consumed + 1..];
        raised := OnSample(samples[consumed]);
        if raised.Some? { return; }
        consumed := consumed + 1;
      }
    }
  }
}
