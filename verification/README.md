# I3C verification environment, verified

This project models the state machines of an I3C core's simulation environment
and proves what they are for: the bus monitor that decodes every wire sample,
the controller that arbitrates against targets and serves their In-Band
Interrupts (IBI), dynamic address assignment (ENTDAA), the sequence matcher,
recovery frames with their packet error code (PEC), and the smaller algorithms
around them.

Code that changes fields or loops over a buffer is a class or a method, proved
against a specification function; the theorems are lemmas about those
functions, so they hold of every run of the methods. The wires, the targets,
the FIFO consumer, the system clock and the simulated time are parameters.

| file | content |
|---|---|
| `BusMonitorModel.dfy`, `BusMonitor.dfy` | one sample of the bus monitor as a function, and the monitor object whose handlers and loop implement it |
| `BusMonitorInvariants.dfy` | what every reachable monitor state satisfies |
| `BusMonitorClocking.dfy` | stutter insensitivity and the nine-clock law |
| `BusMonitorDecode.dfy`, `BusMonitorFrames.dfy` | waveforms, and the decode round trip of whole CCC frames |
| `BusMonitorIbi.dfy`, `BusMonitorAborts.dfy`, `BusMonitorRounds.dfy` | IBIs as they are recognised on the wires and answered; GETs that a Repeated START cuts short; what opens an ENTDAA round, and the statistics |
| `BusMonitorRuns.dfy` | whole runs: the first check that raises, suppression, addresses, the log |
| `BusMonitorSilence.dfy`, `BusMonitorResponses.dfy`, `BusMonitorLostWrites.dfy` | what can be held against a silent DUT; GET responses and SET registers checked end to end; a run that records two violations |
| `BusMonitorDeadlines.dfy`, `BusMonitorStaleName.dfy` | the tSCO deadlines, the checks made at them, and a run that misnames one |
| `BusMonitorConduct.dfy`, `BusMonitorTransfers.dfy`, `BusMonitorArbitration.dfy`, `BusMonitorFaults.dfy`, `BusMonitorLate.dfy` | a DUT that drives: no false alarms clock by clock, over whole transfers, ENTDAA and IBIs; the check that ends the run at its first fault or missed deadline |
| `WiredAnd.dfy` | drivers on a wired-AND bus that back off when they lose |
| `ControllerModel.dfy`, `Controller.dfy`, `ControllerRetry.dfy`, `ControllerOnBus.dfy` | arbitration, IBI handling, private transfers and their retry; what each puts on the bus, operation by operation |
| `Entdaa.dfy`, `EntdaaProofs.dfy`, `EntdaaBus.dfy`, `EntdaaWire.dfy` | ENTDAA with any number of targets, around it on the bus, and the bytes it sends |
| `SequenceModel.dfy`, `SequenceMatch.dfy`, `SequenceCombinators.dfy`, `SequenceRestarts.dfy`, `SequenceFailures.dfy` | the per-cycle matcher and its combinators |
| `Crc8.dfy`, `CrcRemainder.dfy`, `Recovery.dfy`, `RecoveryLayout.dfy`, `RecoveryBus.dfy` | CRC-8 as a register and as a remainder, the recovery frames byte by byte, and commands on the bus |
| `TxRefill.dfy`, `Te2Monitor.dfy`, `Te2Missed.dfy`, `TeEventMonitor.dfy`, `Tracker.dfy`, `TrackerPaths.dfy`, `FieldMasks.dfy`, `CsrFields.dfy`, `Packers.dfy`, `Timings.dfy` | queue refill, TE error and TE2 trace monitors, CSR tracker table, field masks and field access, word packers, bus timings |
| `Bits.dfy`, `Bitwise.dfy`, `Wrappers.dfy` | shared arithmetic and small types |

## Findings

Places where the code does not do what its documentation says, each with a
lemma about the code as it is.

- Check 11 (the DUT stays silent in transfers to other addresses) is documented
  as a check of the monitor, but can never fire: a transfer to another address
  leaves the monitor IDLE before the data phase the check looks at
  (`BusMonitorInvariants.TargetSilentNeverRaised`). No other edge check but the
  OD/PP table watches such a transfer either
  (`BusMonitorDeadlines.ForeignTransferUnchecked`).
- The open-drain checks of the single phases (checks on address bits, ACK, ENTDAA
  identity and IBI ACK) never speak while the check of the drive mode by phase
  is armed, which is made before them and covers them
  (`BusMonitorFaults.OpenDrainChecksShadowed`); they name the phase once it is
  suppressed (`BusMonitorFaults.OpenDrainChecksSpeak`).
- A missed write-ACK handoff is reported under the name of an earlier read, IBI
  or ENTDAA handoff, exactly when there has been one
  (`BusMonitorDeadlines.WriteAckNamedIff`); reading the DUT once and then
  writing to it is enough for a violation under the wrong name
  (`BusMonitorStaleName.StaleName`).
- A register that does not hold what a direct SET wrote never ends the monitor,
  because the check catches its own exception
  (`BusMonitorRuns.MismatchNeverRaises`); it is recorded exactly when the last
  segment of the frame was such a SET (`BusMonitorResponses.SetIsRecorded`), and
  two such frames record two violations in one run that goes on
  (`BusMonitorLostWrites.TwoRecorded`).
- A GET that is answered wrongly in a segment before the last of its frame is
  never flagged for it (`BusMonitorResponses.OnlyLastSegmentChecked`).
- An IBI during the opening header of ENTDAA is handled, but raises out of the
  call with the bus not given back (`EntdaaBus.GivesBackIffCompleted`), exactly
  when the line is read back and a contender sends less than 7E/W
  (`EntdaaBus.RaisesIffContended`). So does one in the headers of a recovery
  command (`RecoveryBus.CommandTally`).
- `s1 | s2` with a first branch that is used up from the start takes a cycle of
  its own where `s1` takes none; it matches no later than `s1` exactly when
  there is something left of `s1` (`SequenceCombinators.OrNoLaterIff`).
- `SequenceRetry` has the sequence iterated anew, but what `&` and `+` build can
  be iterated once only, so a restart drops the predicate it came from
  (`SequenceRestarts.AndDropsRestarts`, `SequenceRestarts.CatDropsRestarts`). A
  conjunction whose last pair restarts is reported as matched although the pair
  never held (`SequenceRestarts.AndRestartSkipsPair`), and likewise a
  concatenation (`SequenceRestarts.CatRestartSkipsPredicate`).
- A TE2 pulse that ends as an earlier watch is closed by an idle sample goes
  unseen, and data written after it is not raised
  (`Te2Missed.PulseMissed`); no other pulse does (`Te2Missed.PulseCaughtIff`).
- An error pulse that comes with an undefined FSM state ends the error monitor
  with a conversion error; exactly then it leaves no record, and the check at
  the end passes (`TeEventMonitor.TeErrorEventMonitor.Run`,
  `TeEventMonitor.UndefinedStateStops`).
- `int2bytes` lets `2^(8n)` through and returns zero bytes
  (`CsrFields.LimitIsLost`); a value survives exactly when it is smaller
  (`CsrFields.IntRoundTrip`).
- A memory field inside one word is read right exactly when that is the first
  word (`CsrFields.MemoryFieldRightIff`); any memory field reads as zero from
  every word exactly when `high % 32 < low`
  (`CsrFields.MemoryFieldReadsZeroIff`).
- The timing generator's clamp at 12.9 MHz lets targets through that its own
  validator then refuses (`Timings.ClampTooHigh`); it succeeds at every system
  clock exactly when the wanted high and low times make up 80 ns
  (`Timings.SucceedsAtEveryClock`).

## Model

| member | source | states |
|---|---|---|
| `BusMonitorFrames.DecodesFrame` | verification/cocotb/top/lib_i3c_top/i3c_bus_monitor.py:543-959 | decode round trip: from any state outside HDR mode with the bus high, the samples of S, 7E/W, code, further command bytes, any number of direct read or write segments to the DUT, with any number of samples per level, bring the monitor to a STOP that reports exactly that code, the last segment's address, direction and bytes |
| `BusMonitorFrames.WaveOfIsFrame` | verification/cocotb/top/lib_i3c_top/i3c_bus_monitor.py:543-959 | every frame has a waveform, so the round trip speaks of every frame |
| `BusMonitorFrames.SegmentBytes` | verification/cocotb/top/lib_i3c_top/i3c_bus_monitor.py:699-792 | inside a direct segment any number of clocked bytes are appended, in order, to the segment's list |
| `BusMonitorFrames.CommandBytes` | verification/cocotb/top/lib_i3c_top/i3c_bus_monitor.py:922-959 | bytes after the code keep the code; the first of them is the defining byte |
| `BusMonitorFrames.HdrEnteredIff` | verification/cocotb/top/lib_i3c_top/i3c_bus_monitor.py:929-959 | for every waveform of a command frame, HDR mode is entered behind the code iff it lies between 0x20 and 0x27, and then the bus counts as released and no command is in force |
| `BusMonitorDecode.HeaderEffect` | verification/cocotb/top/lib_i3c_top/i3c_bus_monitor.py:543-694 | nine clocks of an acknowledged header leave exactly the address and direction they carried, and the matching flags for it |
| `BusMonitorDecode.ByteEffect` | verification/cocotb/top/lib_i3c_top/i3c_bus_monitor.py:440-515 | eight clocks of a byte accumulate that byte, most significant bit first |
| `BusMonitorDecode.StartEffect` | verification/cocotb/top/lib_i3c_top/i3c_bus_monitor.py:1173-1202 | SDA falling while SCL is high is one START, whatever phase the monitor was in |
| `BusMonitorClocking.StutterInsensitive` | verification/cocotb/top/lib_i3c_top/i3c_bus_monitor.py:1234-1278 | two streams with the same changes of (SCL, SDA), and the same DUT drive at SCL rises, leave the monitor in the same state |
| `BusMonitorClocking.NineClockLaw` | verification/cocotb/top/lib_i3c_top/i3c_bus_monitor.py:699-959 | after k SCL falls without START or STOP: k/9 bytes are counted, the phase is the T-bit phase iff k mod 9 is 8 and else the bit count is k mod 9; ENTDAA ends at the 73rd fall |
| `BusMonitorClocking.AckFallEntersSegment` | verification/cocotb/top/lib_i3c_top/i3c_bus_monitor.py:637-695 | the fall of an ACK leaves the monitor idle or at the head of a segment with zeroed counters |
| `BusMonitorInvariants.InvStep` | verification/cocotb/top/lib_i3c_top/i3c_bus_monitor.py:440-959 | every sample keeps the invariant on widths, phases and CCC context |
| `BusMonitorInvariants.Reachable` | verification/cocotb/top/lib_i3c_top/i3c_bus_monitor.py:1227-1313 | in every run, with DUT addresses told at any moment: address below 128, byte below 256, phase-indexed bit counts, at most 72 ENTDAA bits, an active bus in every phase but IDLE and HDR mode, a code and an address in every direct phase, a GET in progress only in the read phases, and IBI_ADDR_BITS never entered |
| `BusMonitorInvariants.HdrLeftOnlyByStop` | verification/cocotb/top/lib_i3c_top/i3c_bus_monitor.py:1234-1278 | HDR mode is left by a STOP and by nothing else |
| `BusMonitorInvariants.TargetSilentNeverRaised` | verification/cocotb/top/lib_i3c_top/i3c_bus_monitor.py:421-438 | in no reachable state can the check for silence in foreign transfers fire |
| `BusMonitorDeadlines.PendingAhead` | verification/cocotb/top/lib_i3c_top/i3c_bus_monitor.py:1280-1313 | in every run, with addresses told at any moment, a pending tSCO check lies strictly after the last defined sample and at most 12 ns after it |
| `BusMonitorDeadlines.HandoffCheckedAtDeadline` | verification/cocotb/top/lib_i3c_top/i3c_bus_monitor.py:1280-1313 | the release check is made at the first defined sample at or after its deadline and then forgotten; what that sample raises is its edge check, else the release check if the DUT drives, else a takeover that is due |
| `BusMonitorDeadlines.TakeoverCheckedAtDeadline` | verification/cocotb/top/lib_i3c_top/i3c_bus_monitor.py:1280-1313 | the takeover check after an acknowledged IBI is made at its deadline, once; unless an edge or a missed release raises first it raises iff the DUT does not drive in Push-Pull |
| `BusMonitorDeadlines.WriteAckNamedIff` | verification/cocotb/top/lib_i3c_top/i3c_bus_monitor.py:610-635 | in every run, with DUT addresses told at any moment, a write ACK schedules a check 12 ns ahead, and it bears its own name iff no read, IBI or ENTDAA bit has renamed it earlier in the run |
| `BusMonitorStaleName.StaleName` | verification/cocotb/top/lib_i3c_top/i3c_bus_monitor.py:610-767 | for any DUT address, any byte and any times of the samples: tell the address, read the byte, write to the DUT, which drives on for 12 ns behind the ACK; the first violation of the run is raised as the release of a read T-bit |
| `BusMonitorDeadlines.ForeignTransferUnchecked` | verification/cocotb/top/lib_i3c_top/i3c_bus_monitor.py:384-438 | in every run, until the next START or STOP of a transfer to another address, only the OD/PP table can be violated at an edge |
| `BusMonitorSilence.SilentDutVerdict` | verification/cocotb/top/lib_i3c_top/i3c_bus_monitor.py:303-457 | in every run, with addresses told at any moment, a DUT that never drives is flagged exactly for its first contradiction of the OD/PP table at a clock edge or its first wrong GET response at a STOP, and for nothing else |
| `BusMonitorSilence.SilentDutNeverFlagged` | verification/cocotb/top/lib_i3c_top/i3c_bus_monitor.py:303-457 | so a DUT that never drives, whose outputs agree with that and whose reads nobody else acknowledges, is never flagged |
| `BusMonitorResponses.GetIsChecked` | verification/cocotb/top/lib_i3c_top/i3c_bus_monitor.py:1028-1106 | end to end: for every waveform of a frame that ends with a direct read of the DUT, the STOP raises CCC_RESPONSE_DATA iff some byte on the wires differs from what the code, the defining byte, the target and the registers call for |
| `BusMonitorResponses.OnlyLastSegmentChecked` | verification/cocotb/top/lib_i3c_top/i3c_bus_monitor.py:1009-1106 | over a whole frame with any number of segments and any waveform, the response check ends the monitor only if the last segment was answered wrongly |
| `BusMonitorResponses.SetIsRecorded` | verification/cocotb/top/lib_i3c_top/i3c_bus_monitor.py:1108-1140 | end to end: for every waveform of a frame that ends with a direct write to the DUT, the STOP never raises, and it is a recorded mismatch iff the code is 0x89 or 0x8A, at least two bytes were written and the register holds something else |
| `BusMonitorRuns.LogShape` | verification/cocotb/top/lib_i3c_top/i3c_bus_monitor.py:1108-1140 | what a run records, with addresses told at any moment: one SET_CSR_CONSISTENCY for every register mismatch it meets at a STOP, none of which ends it, and then the one violation that does, if any |
| `BusMonitorLostWrites.TwoRecorded` | verification/cocotb/top/lib_i3c_top/i3c_bus_monitor.py:1108-1140 | for any DUT address, any value written twice, any other value held and any times of the samples: nothing is raised and the log holds two violations |
| `BusMonitorRuns.MismatchNeverRaises` | verification/cocotb/top/lib_i3c_top/i3c_bus_monitor.py:1108-1140 | in no run does a register mismatch end the monitor |
| `BusMonitorRuns.SuppressionHidesOne` | verification/cocotb/top/lib_i3c_top/i3c_bus_monitor.py:245-269 | between suppressing a check and not suppressing it only that check's verdict changes: suppressed it never ends a run, and a run that another check ends, or none, ends the same way |
| `BusMonitorRuns.AddressWaitsForHeader` | verification/cocotb/top/lib_i3c_top/i3c_bus_monitor.py:219-227 | telling the monitor an address before or after a stretch in which no header is completed leaves the same state: the transfer under way is not disturbed |
| `BusMonitorRuns.AddressDecidesHeader` | verification/cocotb/top/lib_i3c_top/i3c_bus_monitor.py:582-608 | told at any moment since the last header was completed, an address decides the next one: the DUT is addressed there exactly under the addresses told |
| `BusMonitorIbi.IbiRecognisedIff` | verification/cocotb/top/lib_i3c_top/i3c_bus_monitor.py:543-608 | for any START or Repeated START and any clocked header, with any samples per level and any DUT drive, the monitor is at the ACK of an IBI after the eighth fall iff the header follows a START on a free bus, carries an address the DUT was told and a read bit, and the DUT drove at one of the seven address rises; the IBI count then grows by one, and by nothing else |
| `BusMonitorIbi.FirstHeader` | verification/cocotb/top/lib_i3c_top/i3c_bus_monitor.py:112-190 | on a new monitor the first header is judged by its address, direction and the DUT's part alone, and counted from zero |
| `BusMonitorIbi.IbiAnswered` | verification/cocotb/top/lib_i3c_top/i3c_bus_monitor.py:879-893 | an IBI that is acknowledged goes on to its mandatory byte, one that is refused leaves the monitor idle; it is counted once either way |
| `BusMonitorIbi.TakeoverScheduledIff` | verification/cocotb/top/lib_i3c_top/i3c_bus_monitor.py:855-877 | whatever was pending, the rise of the ACK puts the takeover check 12 ns ahead iff the IBI is acknowledged |
| `BusMonitorIbi.IbiDecoded` | verification/cocotb/top/lib_i3c_top/i3c_bus_monitor.py:855-920 | a whole IBI on the wires, with any number of bytes behind its ACK: one request more and exactly as many bytes more |
| `BusMonitorIbi.HeaderRefused` | verification/cocotb/top/lib_i3c_top/i3c_bus_monitor.py:637-646 | a header that nobody acknowledges leaves the monitor idle, whoever it is for |
| `BusMonitorAborts.AbortsCounted` | verification/cocotb/top/lib_i3c_top/i3c_bus_monitor.py:992-1202 | over a whole frame from a free bus, one abort is counted for every direct GET that another segment follows and that delivered fewer bytes than its command answers with, and the flag is set iff there is one |
| `BusMonitorRounds.StatsCount` | verification/cocotb/top/lib_i3c_top/i3c_bus_monitor.py:1173-1278 | over every run the statistics count the STARTs and STOPs, the STARTs that found the bus free, and the SCL rises outside HDR mode |
| `BusMonitorTransfers.PrivateNeverFlagged` | verification/cocotb/top/lib_i3c_top/i3c_bus_monitor.py:321-518 | no false alarms: over any waveform of private reads and writes behind 7E/W, from idle to STOP, a DUT that ACKs open-drain, pushes each data bit and T-bit at the level on SDA, lets go in time and drives nowhere else raises nothing |
| `BusMonitorTransfers.FrameVerdict` | verification/cocotb/top/lib_i3c_top/i3c_bus_monitor.py:321-518 | the same over command frames with direct reads and writes: such a DUT is flagged iff the last GET is answered wrongly, and then for that |
| `BusMonitorArbitration.EntdaaNeverFlagged` | verification/cocotb/top/lib_i3c_top/i3c_bus_monitor.py:801-849 | no false alarms in ENTDAA: with any number of rounds, identities and addresses, a DUT that sends its identity open-drain, lets go of its last bit in time, does not drive the address and gives its ACKs open-drain raises nothing up to the STOP |
| `BusMonitorArbitration.RoundCounted` | verification/cocotb/top/lib_i3c_top/i3c_bus_monitor.py:637-695 | whatever the DUT does, an acknowledged 7E/R after ENTDAA opens the count of the round's clocks, which the 73rd fall closes |
| `BusMonitorRounds.RoundOpensIff` | verification/cocotb/top/lib_i3c_top/i3c_bus_monitor.py:637-695 | whatever happened before the last STOP, behind S, 7E/W and a command an acknowledged 7E/R opens a round iff the command is 0x07, and is a read otherwise |
| `BusMonitorArbitration.IbiNeverFlagged` | verification/cocotb/top/lib_i3c_top/i3c_bus_monitor.py:855-920 | no false alarms in an IBI: from any reachable state with the bus free, a DUT that drives its address open-drain, takes over push-pull in time if it is acknowledged, pushes its bytes at the level on SDA and lets go of every T-bit raises nothing up to the STOP |
| `BusMonitorFaults.ContentionRaisedIff` | verification/cocotb/top/lib_i3c_top/i3c_bus_monitor.py:353-382 | in every state outside HDR mode and for all outputs that fit together, a rise raises BUS_CONTENTION iff a transfer is on and the DUT pushes a one while SDA is low |
| `BusMonitorFaults.MisfitRaised` | verification/cocotb/top/lib_i3c_top/i3c_bus_monitor.py:321-351 | outputs that do not fit together are raised at every edge of SCL, before anything else |
| `BusMonitorFaults.ArbitrationAfterSrRaised` | verification/cocotb/top/lib_i3c_top/i3c_bus_monitor.py:543-580 | in a header after a Repeated START the first address bit the DUT drives, in any mode, ends the run with NO_ARB_AFTER_SR, or BUS_CONTENTION where it pushes a one against a zero |
| `BusMonitorFaults.DirectionBitUnwatched` | verification/cocotb/top/lib_i3c_top/i3c_bus_monitor.py:543-580 | the direction bit of such a header is not watched: the DUT may drive it in any mode, and is held to contention only |
| `BusMonitorFaults.PushedArbitrationRaised` | verification/cocotb/top/lib_i3c_top/i3c_bus_monitor.py:384-419 | in a header after a START the first address bit the DUT pushes ends the run with PHASE_BUS_MODE, or BUS_CONTENTION |
| `BusMonitorFaults.PushedAckRaised` | verification/cocotb/top/lib_i3c_top/i3c_bus_monitor.py:384-419 | so does an ACK the DUT pushes |
| `BusMonitorFaults.FaultInByteRaised` | verification/cocotb/top/lib_i3c_top/i3c_bus_monitor.py:721-767 | at any bit or T-bit of a read from the DUT, a write to it or a command, after good conduct: driving open-drain ends the run with READ_PP, READ_TBIT_PP or PHASE_BUS_MODE, and contention with BUS_CONTENTION |
| `BusMonitorFaults.FaultInIbiByteRaised` | verification/cocotb/top/lib_i3c_top/i3c_bus_monitor.py:384-419 | likewise in the bytes of an IBI, with PHASE_BUS_MODE or BUS_CONTENTION |
| `BusMonitorFaults.FaultInRoundRaised` | verification/cocotb/top/lib_i3c_top/i3c_bus_monitor.py:801-840 | at any clock of an ENTDAA round, after good conduct: pushing an identity bit ends the run with PHASE_BUS_MODE, driving an address bit in any mode with ENTDAA_DA_HANDOFF, and contention with BUS_CONTENTION |
| `BusMonitorLate.HeldTbitRaised` | verification/cocotb/top/lib_i3c_top/i3c_bus_monitor.py:739-767 | behind a read byte and good conduct, the first sample 12 ns behind the T-bit's rise raises READ_TBIT_RELEASE iff the DUT still drives there |
| `BusMonitorLate.HeldIbiTbitRaised` | verification/cocotb/top/lib_i3c_top/i3c_bus_monitor.py:910-920 | so does the T-bit behind a byte of an IBI |
| `BusMonitorLate.HeldIdentityRaised` | verification/cocotb/top/lib_i3c_top/i3c_bus_monitor.py:801-840 | the first sample 12 ns behind the rise of the 64th identity bit raises ENTDAA_DA_HANDOFF iff the DUT still drives there |
| `BusMonitorLate.HeldAckRaised` | verification/cocotb/top/lib_i3c_top/i3c_bus_monitor.py:610-635 | the first sample 12 ns behind the ACK of a write to the DUT or to everybody raises iff the DUT still drives, under the name last given to a release |
| `BusMonitorLate.MissedTakeoverRaised` | verification/cocotb/top/lib_i3c_top/i3c_bus_monitor.py:855-877 | the first sample 12 ns behind the ACK of the DUT's IBI raises IBI_ACK_HANDOFF iff the ACK was given and the DUT does not drive push-pull |
| `BusMonitorFaults.OpenDrainChecksShadowed` | verification/cocotb/top/lib_i3c_top/i3c_bus_monitor.py:440-479 | in no reachable state does one of the four open-drain checks of single phases speak while the check of the drive mode by phase is armed |
| `BusMonitorFaults.OpenDrainChecksSpeak` | verification/cocotb/top/lib_i3c_top/i3c_bus_monitor.py:440-479 | once that check is suppressed, a DUT that pushes the level on SDA meets the one of its phase |
| `BusMonitor.I3cBusMonitor.Check` | verification/cocotb/top/lib_i3c_top/i3c_bus_monitor.py:245-261 | a violated check that is not suppressed is recorded and raised |
| `BusMonitor.I3cBusMonitor.CheckOdPpTruthTable` | verification/cocotb/top/lib_i3c_top/i3c_bus_monitor.py:321-351 | raises for the forbidden combinations of driver mode, enable and data |
| `BusMonitor.I3cBusMonitor.CheckContention` | verification/cocotb/top/lib_i3c_top/i3c_bus_monitor.py:353-382 | raises when the DUT pushes a one in a transfer and SDA is low; `BusMonitorFaults.ContentionRaisedIff` says it of every sample |
| `BusMonitor.I3cBusMonitor.CheckPhaseBusMode` | verification/cocotb/top/lib_i3c_top/i3c_bus_monitor.py:384-419 | raises when the driver mode is wrong for the phase |
| `BusMonitor.I3cBusMonitor.CheckTargetSilentNonmatching` | verification/cocotb/top/lib_i3c_top/i3c_bus_monitor.py:421-438 | the check for silence in foreign transfers, as written |
| `BusMonitor.I3cBusMonitor.EnterAddrPhase` | verification/cocotb/top/lib_i3c_top/i3c_bus_monitor.py:520-541 | all header fields start afresh |
| `BusMonitor.I3cBusMonitor.OnAddrBitRise` | verification/cocotb/top/lib_i3c_top/i3c_bus_monitor.py:543-580 | an address or direction bit is taken in, and the DUT's part in a header after START noted, as `BusMonitorIbi.IbiRecognisedIff` needs it; raises for a DUT that drives push-pull or in a repeated header |
| `BusMonitor.I3cBusMonitor.OnAddrBitFall` | verification/cocotb/top/lib_i3c_top/i3c_bus_monitor.py:582-608 | after the eighth bit the header is classified, as an IBI only when the DUT drove its own address after a START |
| `BusMonitor.I3cBusMonitor.OnAddrAckRise` | verification/cocotb/top/lib_i3c_top/i3c_bus_monitor.py:610-635 | an acknowledged write schedules the release check |
| `BusMonitor.I3cBusMonitor.OnAddrAckFall` | verification/cocotb/top/lib_i3c_top/i3c_bus_monitor.py:637-695 | the next phase follows from ACK, address, direction and CCC context |
| `BusMonitor.I3cBusMonitor.OnDataBitFall` | verification/cocotb/top/lib_i3c_top/i3c_bus_monitor.py:699-704 | every eighth bit leads to the ninth |
| `BusMonitor.I3cBusMonitor.OnWriteTbitFall` | verification/cocotb/top/lib_i3c_top/i3c_bus_monitor.py:706-719 | a written byte is counted, and captured in a direct write segment |
| `BusMonitor.I3cBusMonitor.OnReadDataRise` | verification/cocotb/top/lib_i3c_top/i3c_bus_monitor.py:721-730 | raises when the DUT sends data open-drain |
| `BusMonitor.I3cBusMonitor.OnReadTbitRise` | verification/cocotb/top/lib_i3c_top/i3c_bus_monitor.py:739-767 | the T-bit schedules and names the handoff check |
| `BusMonitor.I3cBusMonitor.OnReadTbitFall` | verification/cocotb/top/lib_i3c_top/i3c_bus_monitor.py:769-792 | a read byte is counted, and captured in a direct read segment |
| `BusMonitor.I3cBusMonitor.OnEntdaaRise` | verification/cocotb/top/lib_i3c_top/i3c_bus_monitor.py:801-840 | checks on identity and ACK bits; the last identity bit schedules the release check |
| `BusMonitor.I3cBusMonitor.OnEntdaaFall` | verification/cocotb/top/lib_i3c_top/i3c_bus_monitor.py:842-849 | bits are counted up to the end of a round |
| `BusMonitor.I3cBusMonitor.OnIbiAckRise` | verification/cocotb/top/lib_i3c_top/i3c_bus_monitor.py:855-877 | raises for a push-pull DUT; an acknowledged IBI schedules the takeover check |
| `BusMonitor.I3cBusMonitor.OnIbiAckFall` | verification/cocotb/top/lib_i3c_top/i3c_bus_monitor.py:879-893 | an acknowledged IBI goes on to its mandatory byte, a refused one ends |
| `BusMonitor.I3cBusMonitor.OnIbiDataTbitFall` | verification/cocotb/top/lib_i3c_top/i3c_bus_monitor.py:910-920 | an IBI byte is counted |
| `BusMonitor.I3cBusMonitor.OnCccTbitFall` | verification/cocotb/top/lib_i3c_top/i3c_bus_monitor.py:929-959 | the first byte is the code, the second the defining byte, and ENTHDR codes lead to HDR mode |
| `BusMonitor.I3cBusMonitor.CheckGetCccResponse` | verification/cocotb/top/lib_i3c_top/i3c_bus_monitor.py:1028-1106 | the loop over the bytes raises iff one differs from the one expected in its place |
| `BusMonitor.I3cBusMonitor.CheckSetCccCsr` | verification/cocotb/top/lib_i3c_top/i3c_bus_monitor.py:1108-1140 | a register that does not hold what SETMWL or SETMRL wrote is recorded and nothing is raised |
| `BusMonitor.I3cBusMonitor.CheckCccCompletion` | verification/cocotb/top/lib_i3c_top/i3c_bus_monitor.py:1009-1026 | the response check first, then the register check unless the first raised |
| `BusMonitor.I3cBusMonitor.OnStartDetected` | verification/cocotb/top/lib_i3c_top/i3c_bus_monitor.py:1173-1202 | START and Repeated START: what of the CCC context survives, and pending checks are dropped |
| `BusMonitor.I3cBusMonitor.OnStopDetected` | verification/cocotb/top/lib_i3c_top/i3c_bus_monitor.py:1204-1225 | pending checks are dropped and the CCC completed; a wrong GET response raises, a wrong register after a SET is only recorded; then the bus is idle and the context forgotten |
| `BusMonitor.I3cBusMonitor.OnSclRising` | verification/cocotb/top/lib_i3c_top/i3c_bus_monitor.py:440-479 | the checks of every rise, then the phase's handler |
| `BusMonitor.I3cBusMonitor.OnSclFalling` | verification/cocotb/top/lib_i3c_top/i3c_bus_monitor.py:481-518 | the phase's handler, then the checks that look at the new phase |
| `BusMonitor.I3cBusMonitor.FireDueChecks` | verification/cocotb/top/lib_i3c_top/i3c_bus_monitor.py:1280-1313 | due checks are made once and cleared, takeover and release |
| `BusMonitor.I3cBusMonitor.OnEdge` | verification/cocotb/top/lib_i3c_top/i3c_bus_monitor.py:1245-1278 | START, STOP, HDR exit and clock edges are told apart and handled |
| `BusMonitor.I3cBusMonitor.OnSample` | verification/cocotb/top/lib_i3c_top/i3c_bus_monitor.py:1234-1313 | one sample is one step of the model and keeps the invariant; undefined samples change nothing |
| `BusMonitor.I3cBusMonitor.MonitorLoop` | verification/cocotb/top/lib_i3c_top/i3c_bus_monitor.py:1227-1313 | the loop consumes samples up to the first violation that raises, records what the run records, keeps the invariant, and otherwise leaves the state of the run |
| `ControllerModel.ArbitrationBound` | verification/cocotb/top/lib_i3c_top/i3c_controller_fixed.py:144-191 | against any drivers at all the bus byte is at most the driven byte, with equality exactly when arbitration is kept |
| `ControllerModel.ArbitrationLeast` | verification/cocotb/top/lib_i3c_top/i3c_controller_fixed.py:144-191 | against contenders that back off the bus byte is the least of theirs and the controller's |
| `ControllerModel.LostIffBelow` | verification/cocotb/top/lib_i3c_top/i3c_controller_fixed.py:144-191 | with readback, against contenders that drive and back off, arbitration is lost iff one of them sends less |
| `ControllerModel.BlindAlwaysWins` | verification/cocotb/top/lib_i3c_top/i3c_controller_fixed.py:144-164 | without readback the controller always believes it has won |
| `ControllerModel.IbiWinsHeader` | verification/cocotb/top/lib_i3c_top/i3c_controller_fixed.py:312-344 | any nonempty set of targets at most 0x7D beats the 7E/W header, and the byte carries the lowest of their addresses with a read bit |
| `ControllerModel.LowestStarterHeard` | verification/cocotb/top/lib_i3c_top/i3c_controller_fixed.py:353-371 | of any nonempty set of targets that start an IBI the lowest address is heard |
| `ControllerModel.QuietHeaderWon` | verification/cocotb/top/lib_i3c_top/i3c_controller_fixed.py:312-344 | with nobody contending the header is kept |
| `ControllerRetry.BoundedRetry` | verification/cocotb/top/lib_i3c_top/i3c_controller_fixed.py:377-462 | with m interrupted attempts exactly m IBIs are handled; the transfer completes and sends its segment once iff m < 10, and else raises without sending it; the bus is taken and given back once; a chain runs on the first IBI only |
| `ControllerRetry.TransferCarries` | verification/cocotb/top/lib_i3c_top/i3c_controller_fixed.py:377-462 | a completed transfer put exactly the caller's bytes under the caller's address and direction, or nothing if refused, and a read returns exactly what passed |
| `ControllerRetry.HandleIbiTally` | verification/cocotb/top/lib_i3c_top/i3c_controller_fixed.py:97-113 | handling an IBI gives one ACK bit, keeps the bus and uses the chain up |
| `ControllerRetry.HandledAddr` | verification/cocotb/top/lib_i3c_top/i3c_controller_fixed.py:205-265 | an IBI is recorded under the address in its byte and with the ACK that was sent, whatever chain follows |
| `ControllerRetry.PayloadKnobsActOnce` | verification/cocotb/top/lib_i3c_top/i3c_controller_fixed.py:79-113 | with data skipped the next IBI is read no payload, with a limit at most that many bytes after the first and a prefix of what is offered; the IBI after it is handled as if no knob had been set |
| `ControllerRetry.ContendedAttemptLost` | verification/cocotb/top/lib_i3c_top/i3c_controller_fixed.py:312-344 | an attempt contended by targets is interrupted and attributed to the lowest of their addresses |
| `ControllerRetry.NoHeaderNoIbi` | verification/cocotb/top/lib_i3c_top/i3c_controller_fixed.py:377-420 | without the reserved header no attempt of a transfer to another address is interrupted |
| `ControllerOnBus.PayloadReadIff` | verification/cocotb/top/lib_i3c_top/i3c_controller_fixed.py:228-246 | the payload of an IBI is read iff it is acknowledged, not skipped and bit 2 of the target's BCR is set; then it is what the target offers, cut after the mandatory byte and as many bytes as the chain or the controller allows |
| `ControllerOnBus.IbiRecorded` | verification/cocotb/top/lib_i3c_top/i3c_controller_fixed.py:205-265 | an IBI is recorded under its address and ACK, refused ones are counted, accepted ones kept with their payload, and every knob is back at its default |
| `ControllerOnBus.UnchainedOnBus` | verification/cocotb/top/lib_i3c_top/i3c_controller_fixed.py:205-265 | without a chain the bus sees the ACK, the payload, and a STOP iff one is asked for |
| `ControllerOnBus.BroadcastChainOnBus` | verification/cocotb/top/lib_i3c_top/i3c_controller_fixed.py:267-292 | a chained broadcast puts exactly S, 7E/W, the command, its data, STOP behind the payload |
| `ControllerOnBus.SetChainOnBus` | verification/cocotb/top/lib_i3c_top/i3c_controller_fixed.py:267-292 | a chained direct command whose code is none of 0x8B to 0x91, 0x94, 0x95, 0x99 puts exactly S, 7E/W, the command, Sr, the target's write header, its data, STOP, and no response is recorded |
| `ControllerOnBus.GetChainOnBus` | verification/cocotb/top/lib_i3c_top/i3c_controller_fixed.py:267-292 | with one of those codes it is S, 7E/W, the command, Sr, the target's read header, the bytes received, STOP; the response recorded is those bytes: what the target offers, cut at the length of the chain's data |
| `ControllerOnBus.WriteChainOnBus` | verification/cocotb/top/lib_i3c_top/i3c_controller_fixed.py:294-306 | a chained write puts exactly S, 7E/W, Sr, the target's write header, its data iff the target acknowledges, STOP, and records that ACK |
| `ControllerOnBus.TransferOnBus` | verification/cocotb/top/lib_i3c_top/i3c_controller_fixed.py:377-462 | however often it was interrupted, a completed transfer ends with exactly: the headers asked for, the caller's bytes with their T-bits or ACKs or the bytes the target offers, the STOP if asked for, and the release of the bus |
| `Controller.I3cController.SetIbiChainCcc` | verification/cocotb/top/lib_i3c_top/i3c_controller_fixed.py:64-70 | a CCC chain is set unless a write chain is |
| `Controller.I3cController.SetIbiChainWrite` | verification/cocotb/top/lib_i3c_top/i3c_controller_fixed.py:72-77 | a write chain is set unless a CCC chain is |
| `Controller.I3cController.ConsumeIbiChain` | verification/cocotb/top/lib_i3c_top/i3c_controller_fixed.py:97-113 | the chain is returned and gone |
| `Controller.I3cController.SendBitArb` | verification/cocotb/top/lib_i3c_top/i3c_controller_fixed.py:144-164 | the level is never above the bit driven and equals it iff arbitration is kept; with readback it is high iff the bit is 1 and nobody else pulls the line low |
| `Controller.I3cController.SendByteArb` | verification/cocotb/top/lib_i3c_top/i3c_controller_fixed.py:166-195 | the loop computes the arbitration of the model, and never exceeds the byte driven |
| `Controller.I3cController.ExecuteChainCcc` | verification/cocotb/top/lib_i3c_top/i3c_controller_fixed.py:267-292 | the chained CCC, broadcast or direct, read or write, and its STOP: what the theorems `ControllerOnBus.BroadcastChainOnBus`, `SetChainOnBus` and `GetChainOnBus` spell out |
| `Controller.I3cController.ExecuteChainWrite` | verification/cocotb/top/lib_i3c_top/i3c_controller_fixed.py:294-306 | the chained private write and its STOP |
| `Controller.I3cController.HandleIbiInline` | verification/cocotb/top/lib_i3c_top/i3c_controller_fixed.py:205-265 | ACK or NACK, payload by BCR, chain or STOP, and the event recorded |
| `Controller.I3cController.RecvByte` | verification/cocotb/top/lib_i3c_top/i3c_controller_fixed.py:365-368 | eight bits read without driving are the byte the others put on the line |
| `Controller.I3cController.HandleTargetStart` | verification/cocotb/top/lib_i3c_top/i3c_controller_fixed.py:353-371 | after a START that targets make, the address they put on the line is read and handled with a STOP |
| `Controller.I3cController.WriteAddrHeader` | verification/cocotb/top/lib_i3c_top/i3c_controller_fixed.py:312-347 | only 7E/W is arbitrated; a lost header handles the IBI and interrupts |
| `Controller.I3cController.OpenTransfer` | verification/cocotb/top/lib_i3c_top/i3c_controller_fixed.py:389-399 | one attempt up to the transfer's own header |
| `Controller.I3cController.I3cWrite` | verification/cocotb/top/lib_i3c_top/i3c_controller_fixed.py:377-420 | the retry loop refines the transfer the theorems are about |
| `Controller.I3cController.I3cRead` | verification/cocotb/top/lib_i3c_top/i3c_controller_fixed.py:422-462 | the same for reads |
| `Controller.I3cController.I3cEntdaa` | verification/cocotb/top/lib_i3c_top/i3c_controller_fixed.py:941-1022 | taking the bus, the opening header with its IBI, 0x07, the rounds with their headers and address bytes, STOP and release: the object does what the theorems of `EntdaaBus` and `EntdaaWire` are about |
| `EntdaaBus.CompletedIsProcedure` | verification/cocotb/top/lib_i3c_top/i3c_controller_fixed.py:941-1022 | a call that completes has performed the procedure whose assignment `EntdaaProofs.AssignsInOrder` describes |
| `EntdaaBus.GivesBackIffCompleted` | verification/cocotb/top/lib_i3c_top/i3c_controller_fixed.py:969-1022 | a call that completes takes the bus once and gives it back once, behind its final STOP; a call that raises has handled exactly one IBI and has not given the bus back |
| `EntdaaBus.RaisesIffContended` | verification/cocotb/top/lib_i3c_top/i3c_controller_fixed.py:972-976 | without the wrong direction injected it raises iff the line is read back and some contender of the opening header sends less than 7E/W |
| `EntdaaWire.CompletedOnBus` | verification/cocotb/top/lib_i3c_top/i3c_controller_fixed.py:969-1022 | a completed call, operation by operation: 7E/W, 0x07, for every answered round Sr, the header and one address byte, one header more iff nobody answered it, STOP, release; the upper seven bits of the i-th byte are the i-th address, and it has an odd number of ones iff no parity fault is injected |
| `EntdaaWire.TargetsHoldWhatWasSent` | verification/cocotb/top/lib_i3c_top/i3c_controller_fixed.py:969-1022 | so without faults the target with the i-th least identity holds the address in the i-th byte on the wire, there is a byte for each of them, and nobody else moves |
| `EntdaaProofs.AssignsInOrder` | verification/cocotb/top/lib_i3c_top/i3c_controller_fixed.py:941-1022 | for any targets with distinct 64-bit identities and any addresses: the i-th address goes to the target with the i-th least identity, min(n, k) targets are served, everybody else keeps what it had, the entries report those identities in order, and a last refused entry appears exactly when addresses are left over |
| `EntdaaProofs.NoAddressTwice` | verification/cocotb/top/lib_i3c_top/i3c_controller_fixed.py:941-1022 | distinct addresses stay distinct |
| `EntdaaProofs.RoundServesLeast` | verification/cocotb/top/lib_i3c_top/i3c_controller_fixed.py:977-1016 | a round serves the least free identity and nobody else |
| `EntdaaProofs.IdentityRecombines` | verification/cocotb/top/lib_i3c_top/i3c_controller_fixed.py:1001-1004 | PID, BCR and DCR recombine to the identity read |
| `EntdaaProofs.BadParityAssignsNobody` | verification/cocotb/top/lib_i3c_top/i3c_controller_fixed.py:1005-1016 | with the parity flipped, targets that check it take no address: one entry with an identity and no ACK for every address offered, and nobody moves |
| `EntdaaProofs.BadHeaderEndsProcedure` | verification/cocotb/top/lib_i3c_top/i3c_controller_fixed.py:983-993 | with 7E/W in place of 7E/R, targets that check it end the procedure with one refused entry |
| `EntdaaProofs.RefusedWaits` | verification/cocotb/top/lib_i3c_top/i3c_controller_fixed.py:983-993 | a free target that checks the header and meets 7E/W waits for the STOP from then on |
| `EntdaaProofs.WaitingStaysOut` | verification/cocotb/top/lib_i3c_top/i3c_controller_fixed.py:977-1018 | a target that waits for the STOP is given no address in any round, whatever is injected, and waits on until the STOP |
| `EntdaaProofs.StopsEarly` | verification/cocotb/top/lib_i3c_top/i3c_controller_fixed.py:977-979 | stopping after n targets is offering only the first n addresses |
| `Entdaa.LeastWins` | src/ctrl/ccc_entdaa.sv:289-314 | the 64 wired-AND bits read are the least identity racing, and its owners alone are still sending |
| `Entdaa.ParityIsOdd` | verification/cocotb/top/lib_i3c_top/i3c_controller_fixed.py:933-939 | address and parity together have an odd number of ones |
| `Entdaa.AddressByteDecodes` | verification/cocotb/top/lib_i3c_top/i3c_controller_fixed.py:1006-1011 | the address byte carries the address above its lowest bit and an odd number of ones iff no fault is injected, which is what a target that checks parity wants |
| `Entdaa.OddParity` | verification/cocotb/top/lib_i3c_top/i3c_controller_fixed.py:933-939 | the loop computes that parity |
| `Entdaa.ReadId` | verification/cocotb/top/lib_i3c_top/i3c_controller_fixed.py:995-999 | the bit loop reads the outcome of the race |
| `Entdaa.RunRound` | verification/cocotb/top/lib_i3c_top/i3c_controller_fixed.py:981-1018 | one round of the procedure; the byte it returns to be sent is the byte the winning target judges and decodes |
| `SequenceMatch.GreedyIsExact` | verification/cocotb/common/utils.py:223-268 | a list is reported matched iff its predicates hold at strictly increasing cycles with the cycle after the last still in time; then the count is its length and no occurrence ends earlier |
| `SequenceMatch.RunMatch` | verification/cocotb/common/utils.py:223-268 | the per-cycle loop computes the match, and raises iff it failed and was not told not to |
| `SequenceMatch.OrSeqIter.Call` | verification/cocotb/common/utils.py:154-171 | one call advances at most one branch, the first if both could |
| `SequenceMatch.AndSeqIter.Call` | verification/cocotb/common/utils.py:196-210 | one call advances the pair iff both predicates hold |
| `SequenceCombinators.MatchIsTicks` | verification/cocotb/common/utils.py:223-268 | the loop finds the first cycle by which any iterator is used up |
| `SequenceCombinators.OrMatchesNoLater` | verification/cocotb/common/utils.py:135-177 | whenever s1 alone is matched, s1 \| s2 is matched, and not later |
| `SequenceCombinators.OrNoLaterIff` | verification/cocotb/common/utils.py:135-177 | where nothing raises and s1 alone is matched: s1 \| s2 is matched no later iff s1 is not used up from the start |
| `SequenceCombinators.OrOfUsedUp` | verification/cocotb/common/utils.py:135-177 | a used-up s1 matches at cycle 0, but s1 \| s2 at cycle 1 with one predicate counted, and it times out where one cycle is allowed |
| `SequenceCombinators.OrNoLaterThanFirst` | verification/cocotb/common/utils.py:154-171 | the same cycle by cycle, for composed branches |
| `SequenceCombinators.OrFollowsOneBranch` | verification/cocotb/common/utils.py:154-171 | when s1 \| s2 is done, one branch was fully matched at increasing cycles, and no cycle advanced both |
| `SequenceRestarts.AndDropsRestarts` | verification/cocotb/common/utils.py:182-268 | s1 & s2, with restarts at any pair and cycle, matches as the list of pairwise conjunctions, as long as the shorter list, in which a restart moves on uncounted, and after a last pair that restarts one more cycle is taken and counted |
| `SequenceRestarts.CatDropsRestarts` | verification/cocotb/common/utils.py:132-268 | s1 + s2, with restarts at any predicate and cycle, matches as the joined list in which a restart moves on uncounted |
| `SequenceRestarts.CatMatchedIff` | verification/cocotb/common/utils.py:132-268 | where nothing fails, s1 + s2 is matched iff its predicates hold or restart at increasing cycles in time |
| `SequenceRestarts.AndMatchedIff` | verification/cocotb/common/utils.py:182-268 | where nothing fails, s1 & s2 is matched iff its pairs hold or restart at increasing cycles in time, with one cycle more for a last pair that restarts |
| `SequenceRestarts.AndIsPairwise` | verification/cocotb/common/utils.py:182-221 | unless the match meets a restart, s1 & s2 of nonempty lists matches exactly as the list of pairwise conjunctions |
| `SequenceRestarts.AndIsTogether` | verification/cocotb/common/utils.py:182-268 | where nothing raises, s1 & s2 of nonempty lists is matched iff predicates of both hold at the same time, pair by pair, at increasing cycles in time |
| `SequenceRestarts.CatIsAppend` | verification/cocotb/common/utils.py:132-133 | unless the match meets a restart, s1 + s2 matches exactly as the joined list |
| `SequenceRestarts.ListMatchedIff` | verification/cocotb/common/utils.py:223-268 | where nothing fails, a list is matched iff, begun at the start or after one of its restarts, it goes through without another and its predicates hold at increasing cycles in time |
| `SequenceRestarts.OrRestartsBoth` | verification/cocotb/common/utils.py:135-177 | a restart of s1 \| s2 for two plain lists begins both of them anew, however far they had come |
| `SequenceRestarts.AndRestartSkipsPair` | verification/cocotb/common/utils.py:182-221 | a single pair that restarts the match at cycle 0 has it reported as matched at cycle 2 |
| `SequenceRestarts.CatRestartSkipsPredicate` | verification/cocotb/common/utils.py:132-133 | a first predicate that restarts at cycle 0 is never asked again: the match is reported when the second holds |
| `SequenceFailures.FailedIff` | verification/cocotb/common/utils.py:248-261 | a list, restarts included, fails iff at some cycle in time the predicate then asked says so and no cycle before ended or failed it, and it fails at that cycle |
| `SequenceFailures.FailureIsFinal` | verification/cocotb/common/utils.py:248-256 | a longer simulation fails at the same cycle |
| `SequenceFailures.SecondWaitsForFirst` | verification/cocotb/common/utils.py:196-210 | while the first predicate of a pair waits, the match waits whatever the second would say |
| `SequenceFailures.SecondFailsMatch` | verification/cocotb/common/utils.py:196-210 | where the first holds, a failure of the second fails the match |
| `Crc8.Checksum` | verification/cocotb/top/lib_i3c_top/recovery_interface.py:25-32 | the byte loop computes the PEC, which `CrcRemainder.PecMakesMultiple` characterises |
| `CrcRemainder.PecMakesMultiple` | verification/cocotb/top/lib_i3c_top/recovery_interface.py:25-32 | among all bytes that could follow a message the PEC is the one that makes the whole a carry-less multiple of x^8 + x^2 + x + 1, most significant bit first |
| `CrcRemainder.ClearIffMultiple` | verification/cocotb/top/lib_i3c_top/recovery_interface.py:25-32 | a word of at least eight bits leaves the register at zero iff it is such a multiple |
| `CrcRemainder.ShortClear` | verification/cocotb/top/lib_i3c_top/recovery_interface.py:25-32 | a shorter word is never a multiple and leaves zero iff it is all zero |
| `CrcRemainder.Divided` | verification/cocotb/top/lib_i3c_top/recovery_interface.py:25-32 | long division: any word followed by its register is a multiple |
| `CrcRemainder.CommandKnown` | verification/cocotb/top/lib_i3c_top/i3c_recovery_interface_fixed.py:55-84 | the PEC of command 0x22 to address 0x5A is 0xF5 |
| `Crc8.CrcBitsLinear` | verification/cocotb/top/lib_i3c_top/recovery_interface.py:25-32 | the CRC of a sum is the sum of the CRCs |
| `Crc8.PecClears` | verification/cocotb/top/lib_i3c_top/recovery_interface.py:25-32 | a message followed by its PEC has a zero CRC |
| `Crc8.OnlyPecClears` | verification/cocotb/top/lib_i3c_top/recovery_interface.py:25-32 | no other byte does that |
| `Crc8.BurstDetected` | verification/cocotb/top/lib_i3c_top/recovery_interface.py:25-32 | any change confined to eight consecutive bits, in a message of any length, changes the CRC |
| `Crc8.OddErrorDetected` | verification/cocotb/top/lib_i3c_top/recovery_interface.py:25-32 | any odd number of flipped bits leaves a codeword |
| `Crc8.TwoFlipsDetectedIff` | verification/cocotb/top/lib_i3c_top/recovery_interface.py:25-32 | two flipped bits in a message of any length change the CRC iff their distance is not a multiple of 127 |
| `RecoveryBus.I3cRecoveryInterface.CommandWrite` | verification/cocotb/top/lib_i3c_top/i3c_recovery_interface_fixed.py:136-214 | builds the frame, with the PEC alone replaced under error injection, and sends it behind both headers if the target acknowledges; the object does what the theorems of `RecoveryBus` are about |
| `RecoveryBus.CommandReachesTarget` | verification/cocotb/top/lib_i3c_top/i3c_recovery_interface_fixed.py:136-214 | end to end: what an acknowledged command carries decodes to that command and payload iff the payload has at most 65535 bytes and no other PEC was injected |
| `RecoveryBus.CommandCarries` | verification/cocotb/top/lib_i3c_top/i3c_recovery_interface_fixed.py:195-214 | behind the target's header the whole frame passes, or nothing if the header is refused |
| `RecoveryBus.CommandTally` | verification/cocotb/top/lib_i3c_top/i3c_recovery_interface_fixed.py:195-214 | the bus is given back iff the command ends with a STOP; a command lost to an IBI has handled that IBI and has not given the bus back |
| `Recovery.WriteFrameClears` | verification/cocotb/top/lib_i3c_top/i3c_recovery_interface_fixed.py:153-193 | the CRC over the address byte and a whole command frame is zero |
| `RecoveryLayout.FrameLayout` | verification/cocotb/top/lib_i3c_top/i3c_recovery_interface_fixed.py:153-193 | byte by byte: the command, the payload's length with its low byte first, the payload, and the only last byte that makes the frame, behind the write address, a multiple of the polynomial |
| `RecoveryLayout.ReplyIs` | verification/cocotb/top/lib_i3c_top/i3c_recovery_interface_fixed.py:86-134 | told by the bytes of the reply: it is taken iff the target goes on through the length and the announced payload and ends with the PEC; the data are those bytes, the flag is true iff everything behind the read address is a multiple of the polynomial; otherwise the first wrong byte is reported |
| `Recovery.WriteRoundTrip` | verification/cocotb/top/lib_i3c_top/i3c_recovery_interface_fixed.py:153-193 | command and payload are recovered from the frame iff the payload has at most 65535 bytes |
| `Recovery.WrongPecRejected` | verification/cocotb/top/lib_i3c_top/i3c_recovery_interface_fixed.py:187-193 | an injected PEC other than the right one is refused |
| `Recovery.RecoveryRead` | verification/cocotb/top/lib_i3c_top/i3c_recovery_interface_fixed.py:55-134 | the length-driven receive loops compute the parse of the reply, with every early end |
| `Recovery.ReplyRoundTrip` | verification/cocotb/top/lib_i3c_top/i3c_recovery_interface_fixed.py:86-134 | a well-formed reply is read back as its payload with a true flag iff it has at most 65535 bytes |
| `Recovery.FlagIsCodeword` | verification/cocotb/top/lib_i3c_top/i3c_recovery_interface_fixed.py:120-134 | the flag says exactly whether what was received is a codeword |
| `Recovery.OneByteNoticed` | verification/cocotb/top/lib_i3c_top/i3c_recovery_interface_fixed.py:86-134 | altering any one payload byte, or the PEC, makes the flag false |
| `Recovery.BurstNoticed` | verification/cocotb/top/lib_i3c_top/i3c_recovery_interface_fixed.py:86-134 | so does any corruption within eight consecutive bits across byte borders |
| `Recovery.OddFlipsNoticed` | verification/cocotb/top/lib_i3c_top/i3c_recovery_interface_fixed.py:86-134 | so does any odd number of flipped bits |
| `Recovery.TwoFlipsNoticedIff` | verification/cocotb/top/lib_i3c_top/i3c_recovery_interface_fixed.py:86-134 | two flipped bits in payload and PEC make the flag false iff their distance is not a multiple of 127 |
| `TxRefill.NeverOverflows` | verification/cocotb/top/lib_i3c_top_controller/controller_interface.py:287-354 | in every interleaving the FIFO never overflows, and words consumed followed by words queued are exactly the data written so far |
| `TxRefill.OverflowsIff` | verification/cocotb/top/lib_i3c_top_controller/controller_interface.py:287-354 | with more data than the queue holds, some interleaving overflows it iff the producer is told of more slots than there are |
| `TxRefill.BurstProgress` | verification/cocotb/top/lib_i3c_top_controller/controller_interface.py:320-350 | a flagged access claims at least one word of the rest, and nothing else claims any |
| `TxRefill.BurstsAddUp` | verification/cocotb/top/lib_i3c_top_controller/controller_interface.py:320-350 | bursts made and bursts still needed always add up to the same number |
| `TxRefill.TxQueue.PutTxData` | verification/cocotb/top/lib_i3c_top_controller/controller_interface.py:287-354 | the refill loop against any schedule: no overflow, data in order, all of it written unless the schedule ends, in the least number of bursts |
| `Te2Monitor.RaisesAtFirstViolation` | verification/cocotb/top/lib_i3c_top/te_error_monitor.py:265-326 | for every finite trace the monitor raises at the first violation of its watches, as its own schedule opens them, and at none if there is none |
| `Te2Monitor.ViolatesInEpisode` | verification/cocotb/top/lib_i3c_top/te_error_monitor.py:265-326 | a sample violates iff it is a busy write strictly between fall and idle of some watched TE2 episode |
| `Te2Monitor.ViolationIsReal` | verification/cocotb/top/lib_i3c_top/te_error_monitor.py:265-326 | before every violation there is a TE2 pulse that has ended and no idle sample since |
| `Te2Missed.PulseCaughtIff` | verification/cocotb/top/lib_i3c_top/te_error_monitor.py:265-326 | in terms of the trace: a pulse followed by a busy write without an idle sample in between, nothing raised before its end and no further pulse, is raised by then iff no earlier watch is closed by its last high or its first low sample |
| `Te2Missed.Caught` | verification/cocotb/top/lib_i3c_top/te_error_monitor.py:265-326 | a pulse followed by a busy write without an idle sample in between is raised by then, whatever else happens, unless an earlier watch is closed by its last high or its first low sample |
| `Te2Missed.PulseCaughtWhenBusy` | verification/cocotb/top/lib_i3c_top/te_error_monitor.py:265-326 | so it is always raised where the FSM is not idle as the pulse ends, however TE2 goes on |
| `Te2Missed.PulseMissed` | verification/cocotb/top/lib_i3c_top/te_error_monitor.py:265-326 | a trace of five samples with a pulse, a busy write and no idle sample in between, at which nothing is raised |
| `Te2Monitor.AwaitDeassert` | verification/cocotb/top/lib_i3c_top/te_error_monitor.py:286-293 | the wait ends one sample after the pulse |
| `Te2Monitor.WatchUntilIdle` | verification/cocotb/top/lib_i3c_top/te_error_monitor.py:295-320 | the watch raises at the first busy write before the next idle sample |
| `Te2Monitor.Run` | verification/cocotb/top/lib_i3c_top/te_error_monitor.py:265-326 | the nested waits raise where the specification says |
| `TeEventMonitor.TeErrorEventMonitor.Run` | verification/cocotb/top/lib_i3c_top/te_error_monitor.py:102-132 | the monitor gets through a trace iff every error pulse is expected and comes with a known FSM state, and has then counted every pulse; else it stops at the first other pulse, counted up to there, and leaves no record of it iff that pulse comes with an undefined FSM state |
| `TeEventMonitor.TeErrorEventMonitor.OneSample` | verification/cocotb/top/lib_i3c_top/te_error_monitor.py:106-132 | the seven signals of one sample, in order |
| `TeEventMonitor.UndefinedStateStops` | verification/cocotb/top/lib_i3c_top/te_error_monitor.py:106-117 | a single pulse with an undefined FSM state stops the monitor, expected or not |
| `TeEventMonitor.PulsesAlternate` | verification/cocotb/top/lib_i3c_top/te_error_monitor.py:106-117 | pulses are rising edges: at most every other sample, and none iff the signal stays low or undefined |
| `TeEventMonitor.TeErrorEventMonitor.ExpectError` | verification/cocotb/top/lib_i3c_top/te_error_monitor.py:75-83 | the types are added to the expected ones |
| `Tracker.WalksAgree` | verification/tools/parse_axi_csr_log.py:49-67 | for any register tree the log parser's walk lists exactly the names of the generator's registers at or below 0xFFF, in the same order |
| `Tracker.Walk` | tools/reg_gen/gen_axi_csr_tracker.py:116-139 | the walk that appends to one list collects the registers of the tree |
| `TrackerPaths.CollectedIff` | tools/reg_gen/gen_axi_csr_tracker.py:116-139 | a register is collected iff some path of keys leads to it through dictionaries that are no registers: its address is the start address that holds there plus its offset, its name the keys on the way joined by dots, without base_addr, start_addr and offset |
| `TrackerPaths.KnownIff` | verification/tools/parse_axi_csr_log.py:49-67 | the log parser knows a name iff some path gives it to a register at or below 0xFFF |
| `TrackerPaths.SectionIs` | tools/reg_gen/gen_axi_csr_tracker.py:171-177 | the section of a dotted name is what stands before its first dot, and OTHER without one |
| `Tracker.EmitCases` | tools/reg_gen/gen_axi_csr_tracker.py:162-197 | case labels strictly ascend and are exactly the collected addresses at or below 0xFFF; with a TX and an RX name collected at an address writes show the first TX and reads the first RX name, else both the first name; every label stands under the section of the alphabetically first name there, and no section comment is repeated or left alone |
| `Tracker.GenerateTracker` | tools/reg_gen/gen_axi_csr_tracker.py:152-197 | the same from the register map |
| `Tracker.UnaliasedIsLogged` | tools/reg_gen/gen_axi_csr_tracker.py:162-197 | a register that shares its address with no other name is logged in both directions under the name the log parser knows |
| `FieldMasks.FieldMask` | tools/peakrdl_cocotb/src/peakrdl_cocotb/cocotb_scanner.py:79-96 | the mask is (2^(high+1) - 2^low) shifted right by 32 * (high div 32), and has exactly the field's bits of the last word it reaches |
| `FieldMasks.TrimmedMask` | tools/peakrdl_cocotb/src/peakrdl_cocotb/cocotb_scanner.py:84-89 | the loop that cuts eight hexadecimal digits off the printed mask ends with that value |
| `FieldMasks.InsideField` | tools/peakrdl_cocotb/src/peakrdl_cocotb/cocotb_scanner.py:84-89 | a memory field inside one word gets the mask of the same register field |
| `FieldMasks.CrossingField` | tools/peakrdl_cocotb/src/peakrdl_cocotb/cocotb_scanner.py:84-89 | one that crosses a word border keeps only its bits of the last word |
| `CsrFields.LastWriteReadsBack` | verification/cocotb/common/bus2csr.py:98-109 | after any sequence of in-range field writes a field that overlaps no other written field reads as what was last written to it, or as before |
| `CsrFields.BitUntouched` | verification/cocotb/common/bus2csr.py:98-103 | a bit outside every written field never changes |
| `CsrFields.ReadsBack` | verification/cocotb/common/bus2csr.py:98-109 | a field written and read gives the value written |
| `CsrFields.OthersKept` | verification/cocotb/common/bus2csr.py:98-109 | a disjoint field reads as before |
| `CsrFields.MemoryFieldRightIff` | tools/peakrdl_cocotb/src/peakrdl_cocotb/cocotb_scanner.py:84-89 | a memory field inside one word is read right from every word iff that word is the first, high < 32 |
| `CsrFields.MemoryFieldReadsZeroIff` | verification/cocotb/common/bus2csr.py:105-109 | a memory field, crossing or not, reads as zero from every word iff high mod 32 < low |
| `CsrFields.CrossingFieldRead` | verification/cocotb/common/bus2csr.py:105-109 | a field that crosses a word border reads the bits from low on of its share of the last word |
| `CsrFields.IntRoundTrip` | verification/cocotb/common/bus2csr.py:39-47 | an integer survives the trip through bytes iff it is below 2^(8n) |
| `CsrFields.LimitIsLost` | verification/cocotb/common/bus2csr.py:39-43 | the guard lets 2^(8n) through, and it comes back as zero |
| `CsrFields.BytesRoundTrip` | verification/cocotb/common/bus2csr.py:39-47 | bytes survive the trip through an integer |
| `CsrFields.LowByte` | verification/cocotb/common/bus2csr.py:43-43 | the low eight bits, bit by bit |
| `CsrFields.FrontBus.WriteCsrField` | verification/cocotb/common/bus2csr.py:98-103 | read, modify, write: an in-range value always fits and leaves the register the lemmas are about; any other is refused iff the merged word exceeds 2^32 |
| `CsrFields.FrontBus.ReadCsrField` | verification/cocotb/common/bus2csr.py:105-109 | the field of the register's word |
| `Timings.ValidateTimings` | tools/timing/timings.py:36-73 | accepts iff every parameter is given and lasts at least its minimum and high plus low last 80 ns |
| `Timings.GenerateTimings` | tools/timing/timings.py:74-125 | high is the least count that lasts its duty cycle's share of the requested period and 24 ns, low the least for the rest and 24 ns, every other the least for its minimum; the result validates or is not returned |
| `Timings.ValidUpToSdrLimit` | tools/timing/timings.py:74-125 | up to 12.5 MHz the generator succeeds at every system clock and duty cycle |
| `Timings.SucceedsAtEveryClock` | tools/timing/timings.py:74-125 | it succeeds at every system clock iff the wanted high and low times make up 80 ns |
| `Timings.ClampTooHigh` | tools/timing/timings.py:79-88 | at the clamp and a 1 GHz system clock it fails |
| `Timings.PeriodMatchesTarget` | tools/timing/timings.py:90-125 | where no minimum overrides the request the period is at least the clamped target and exceeds it by less than two clocks |
| `Packers.SplitIntoDwords` | verification/cocotb/common/utils.py:271-289 | ceil(n/4) words, each with exactly the bits of its four bytes, and a mask of the bytes there are |
| `Packers.FormatIbiData` | verification/cocotb/common/utils.py:292-311 | the same words after a descriptor |
| `Packers.PackersAgree` | verification/cocotb/common/utils.py:271-311 | both packers produce the same words |
| `Packers.UnpackIsInverse` | verification/cocotb/common/utils.py:271-289 | the little-endian bytes under the masks are the original bytes |
| `Packers.DescriptorRoundTrip` | verification/cocotb/common/utils.py:310-311 | data byte and length can be read back from the descriptor iff the length has at most 24 bits |

## Left out

- The simulator: triggers, tasks, logging and timeouts. Loops without a bound of
  their own run over a finite schedule or horizon that is a parameter.
- The base controller and the CRC package are not part of this model; bus
  operations are recorded in a trace and the CRC is computed bit by bit.
- The hierarchy of the simulated DUT: the register values that responses are
  compared with are parameters of a sample, and signals that do not exist read
  as undefined. The statistics of drive mode and contention are not counted.
- `_is_ccc`, START and IBI_ADDR_BITS of the monitor: never set or never entered.
- CCC transfers of the controller (their retry is the one of private
  transfers), target reset patterns and error-injection sequences.
- Detection of the START a target makes.
- `&` of composed sequences: the pairs are those of two plain lists.
- The recovery commands with aborted, truncated or overlong frames.
- `HdrRecoveryMonitor`: one wait for one of three edges.
- Register maps whose start address or offset is not a number, and equality of
  collected and absolute addresses.
- Writing memory fields.
- Floating point rounding of the timings, which are computed over the reals.
- BusMonitorFrames.DecodesFrame: SDA is held through the sample of each SCL
  fall, ENTHDR codes are excluded because HDR traffic is not decoded, and the
  reported segment is the last one, as in the monitor itself.
- ControllerRetry.BoundedRetry: counts headers; a write to 7E itself has an
  arbitrable header, which is counted with the reserved ones.
- SequenceMatch.GreedyIsExact: for predicates that neither fail nor restart.
- SequenceFailures.FailedIff: for plain lists.
- SequenceRestarts.AndDropsRestarts: for two plain lists.
- SequenceRestarts.CatDropsRestarts: for two plain lists.
- CsrFields.IntRoundTrip: the guard is a comparison of real numbers; at a width
  of eight bytes the floating point logarithm also lets `2^64 + 1` through.
- Te2Monitor.RaisesAtFirstViolation: measured against the watches the monitor's
  own schedule opens; `Te2Missed` says which pulses that schedule misses.
