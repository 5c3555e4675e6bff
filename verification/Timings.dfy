/**
  Bus timings in system clock cycles: what the generator computes from a target
  frequency and a duty cycle, and what the validator accepts. Real arithmetic.
 */
module Timings {
  import opened Wrappers

  datatype Param =
    | TR | TF | TSuDat | TSuDatI2c | THdDat | THigh | THighOd | THighInitOd | THighI2c
    | TLow | TLowOd | TLowI2c | THdSta | THdStaI2c | THdRsta | TSuSta | TSuStaI2c
    | TSuSto | TSuStoI2c | TDsOd | TFree | TFreeI2c | TAval | TIdle

  function All(): seq<Param> {
    [TR, TF, TSuDat, TSuDatI2c, THdDat, THigh, THighOd, THighInitOd, THighI2c,
     TLow, TLowOd, TLowI2c, THdSta, THdStaI2c, THdRsta, TSuSta, TSuStaI2c,
     TSuSto, TSuStoI2c, TDsOd, TFree, TFreeI2c, TAval, TIdle]
  }

  const MAX_F_SCL: real := 12900000.0
  const SDR_F_SCL: real := 12500000.0
  const SDR_PERIOD_NS: real := 80.0

  /** The least time of each parameter in nanoseconds. */
  function MinNs(p: Param): (ns: real)
    ensures ns >= 0.0
  {
    match p
    case TR | TF | THdDat => 0.0
    case TSuDat => 3.0
    case TSuDatI2c => 100.0
    case THigh | THighOd | TLow => 24.0
    case THighInitOd | TLowOd => 200.0
    case THighI2c | THdStaI2c | TSuStaI2c | TSuStoI2c => 600.0
    case TLowI2c | TFreeI2c => 1300.0
    case THdSta | TFree => 38.4
    case THdRsta | TSuSta | TSuSto | TDsOd => 19.2
    case TAval => 1000.0
    case TIdle => 200000.0
  }

  lemma AllListed(p: Param)
    ensures p in All()
  {
    match p
    case TR => assert All()[0] == p;
    case TF => assert All()[1] == p;
    case TSuDat => assert All()[2] == p;
    case TSuDatI2c => assert All()[3] == p;
    case THdDat => assert All()[4] == p;
    case THigh => assert All()[5] == p;
    case THighOd => assert All()[6] == p;
    case THighInitOd => assert All()[7] == p;
    case THighI2c => assert All()[8] == p;
    case TLow => assert All()[9] == p;
    case TLowOd => assert All()[10] == p;
    case TLowI2c => assert All()[11] == p;
    case THdSta => assert All()[12] == p;
    case THdStaI2c => assert All()[13] == p;
    case THdRsta => assert All()[14] == p;
    case TSuSta => assert All()[15] == p;
    case TSuStaI2c => assert All()[16] == p;
    case TSuSto => assert All()[17] == p;
    case TSuStoI2c => assert All()[18] == p;
    case TDsOd => assert All()[19] == p;
    case TFree => assert All()[20] == p;
    case TFreeI2c => assert All()[21] == p;
    case TAval => assert All()[22] == p;
    case TIdle => assert All()[23] == p;
  }

  function Ceil(x: real): int {
    -((-x).Floor)
  }

  function MaxReal(a: real, b: real): real {
    if b > a then b else a
  }

  /** The length of one cycle, in nanoseconds. */
  function PeriodNs(f: real): (t: real)
    requires f > 0.0
    ensures t > 0.0 && t * f == 1000000000.0
  {
    1000000000.0 / f
  }

  function Cycles(ns: real, tSys: real): int
    requires tSys > 0.0
  {
    Ceil(ns / tSys)
  }

  /** `n` clocks last at least `ns`. */
  predicate Lasts(n: int, tSys: real, ns: real) {
    n as real * tSys >= ns
  }

  /** The cycle count is the least whole number of clocks that lasts at least `ns`. */
  lemma LeastCycles(ns: real, tSys: real, n: int)
    requires tSys > 0.0
    ensures n >= Cycles(ns, tSys) <==> Lasts(n, tSys, ns)
  {
    var q := ns / tSys;
    assert q * tSys == ns;
    if n as real >= q {
      Scaled(q, n as real, tSys);
    } else {
      ScaledLess(n as real, q, tSys);
    }
  }

  lemma Scaled(a: real, b: real, t: real)
    requires a <= b && t > 0.0
    ensures a * t <= b * t
  {
  }

  lemma ScaledLess(a: real, b: real, t: real)
    requires a < b && t > 0.0
    ensures a * t < b * t
  {
  }

  /** ... and it overshoots by less than one clock. */
  lemma Overshoot(ns: real, tSys: real)
    requires tSys > 0.0
    ensures ns <= Cycles(ns, tSys) as real * tSys < ns + tSys
  {
    var n := Cycles(ns, tSys);
    LeastCycles(ns, tSys, n);
    LeastCycles(ns, tSys, n - 1);
    assert (n - 1) as real * tSys == n as real * tSys - tSys;
  }

  /** Every parameter is given and long enough, and so is the SDR period. */
  ghost predicate Meets(timings: map<Param, int>, tSys: real) {
    && (forall p: Param :: p in timings && Lasts(timings[p], tSys, MinNs(p)))
    && Lasts(timings[THigh] + timings[TLow], tSys, SDR_PERIOD_NS)
  }

  method ValidateTimings(timings: map<Param, int>, fSys: real) returns (isValid: bool)
    requires fSys > 0.0
    ensures isValid <==> Meets(timings, PeriodNs(fSys))
  {
    hide All, Cycles, Lasts, MinNs;
    var tSys := PeriodNs(fSys);
    isValid := true;
    var i := 0;
    while i < |All()|
      invariant 0 <= i <= |All()|
      invariant isValid <==>
        forall j :: 0 <= j < i ==> All()[j] in timings && timings[All()[j]] >= Cycles(MinNs(All()[j]), tSys)
    {
      var key := All()[i];
      if key !in timings {
        isValid := false;
      } else if timings[key] < Cycles(MinNs(key), tSys) {
        isValid := false;
      }
      i := i + 1;
    }
    EveryParam(timings, tSys);
    if THigh in timings && TLow in timings {
      if !Lasts(timings[THigh] + timings[TLow], tSys, SDR_PERIOD_NS) {
        isValid := false;
      }
    }
  }

  lemma EveryParam(timings: map<Param, int>, tSys: real)
    requires tSys > 0.0
    ensures (forall j :: 0 <= j < |All()| ==> All()[j] in timings && timings[All()[j]] >= Cycles(MinNs(All()[j]), tSys))
            <==> forall p: Param :: p in timings && Lasts(timings[p], tSys, MinNs(p))
  {
    hide All, Cycles, MinNs, Lasts;
    if forall j :: 0 <= j < |All()| ==> All()[j] in timings && timings[All()[j]] >= Cycles(MinNs(All()[j]), tSys) {
      forall p: Param ensures p in timings && Lasts(timings[p], tSys, MinNs(p)) {
        AllListed(p);
        var j :| 0 <= j < |All()| && All()[j] == p;
        LeastCycles(MinNs(p), tSys, timings[p]);
      }
    }
    if forall p: Param :: p in timings && Lasts(timings[p], tSys, MinNs(p)) {
      forall j | 0 <= j < |All()| ensures All()[j] in timings && timings[All()[j]] >= Cycles(MinNs(All()[j]), tSys) {
        LeastCycles(MinNs(All()[j]), tSys, timings[All()[j]]);
      }
    }
  }

  // ---------------------------------------------------------------------
  // The generator
  // ---------------------------------------------------------------------

  /** The clamped target period. */
  function TargetNs(fScl: real): real
    requires fScl > 0.0
  {
    PeriodNs(if fScl > MAX_F_SCL then MAX_F_SCL else fScl)
  }

  /** High and low time after the minimums have been enforced. */
  function HighNs(fScl: real, duty: real): real
    requires fScl > 0.0
  {
    MaxReal(TargetNs(fScl) * duty, MinNs(THigh))
  }

  function LowNs(fScl: real, duty: real): real
    requires fScl > 0.0
  {
    MaxReal(TargetNs(fScl) * (1.0 - duty), MinNs(TLow))
  }

  /** The time asked for each parameter. */
  function WantedNs(p: Param, fScl: real, duty: real): (ns: real)
    requires fScl > 0.0
    ensures ns >= MinNs(p)
  {
    match p
    case THigh => HighNs(fScl, duty)
    case TLow => LowNs(fScl, duty)
    case _ => MinNs(p)
  }

  /** The requested period, from a frequency of at most 12.9 MHz. */
  function RequestedNs(fScl: real): real
    requires fScl > 0.0
  {
    1000000000.0 / (if fScl <= 12900000.0 then fScl else 12900000.0)
  }

  /**
    The counts are least: high for the duty cycle's share of the requested
    period and low for the rest, both for 24 ns at least, and every other
    parameter for its minimum.
   */
  ghost predicate LeastCounts(cycles: map<Param, int>, fScl: real, tSys: real, duty: real)
    requires fScl > 0.0
  {
    && (forall p: Param :: p in cycles)
    && (forall n: int :: n >= cycles[THigh] <==> Lasts(n, tSys, RequestedNs(fScl) * duty) && Lasts(n, tSys, 24.0))
    && (forall n: int ::
          n >= cycles[TLow] <==> Lasts(n, tSys, RequestedNs(fScl) * (1.0 - duty)) && Lasts(n, tSys, 24.0))
    && forall p: Param, n: int :: p != THigh && p != TLow ==> (n >= cycles[p] <==> Lasts(n, tSys, MinNs(p)))
  }

  lemma WantedLevels(fScl: real, duty: real)
    requires fScl > 0.0
    ensures WantedNs(THigh, fScl, duty) == MaxReal(RequestedNs(fScl) * duty, 24.0)
    ensures WantedNs(TLow, fScl, duty) == MaxReal(RequestedNs(fScl) * (1.0 - duty), 24.0)
    ensures forall p: Param :: p != THigh && p != TLow ==> WantedNs(p, fScl, duty) == MinNs(p)
  {
  }

  lemma LeastAsWanted(cycles: map<Param, int>, fScl: real, tSys: real, duty: real)
    requires fScl > 0.0 && tSys > 0.0 && forall p: Param :: p in cycles
    requires forall p: Param, n: int :: n >= cycles[p] <==> Lasts(n, tSys, WantedNs(p, fScl, duty))
    ensures LeastCounts(cycles, fScl, tSys, duty)
  {
    hide MinNs, Lasts, WantedNs, RequestedNs, MaxReal;
    WantedLevels(fScl, duty);
    var high, low := RequestedNs(fScl) * duty, RequestedNs(fScl) * (1.0 - duty);
    forall n: int
      ensures n >= cycles[THigh] <==> Lasts(n, tSys, high) && Lasts(n, tSys, 24.0)
      ensures n >= cycles[TLow] <==> Lasts(n, tSys, low) && Lasts(n, tSys, 24.0)
    {
      LastsBoth(n, tSys, high, 24.0);
      LastsBoth(n, tSys, low, 24.0);
    }
  }

  lemma LastsBoth(n: int, tSys: real, a: real, b: real)
    ensures Lasts(n, tSys, MaxReal(a, b)) <==> Lasts(n, tSys, a) && Lasts(n, tSys, b)
  {
  }

  /** `None` is the assertion that fails when the result does not validate. */
  method GenerateTimings(fScl: real, fSys: real, duty: real) returns (result: Option<map<Param, int>>)
    requires fScl > 0.0 && fSys > 0.0
    ensures result.Some? <==> Succeeds(fScl, fSys, duty)
    ensures result.Some? ==> Meets(result.value, PeriodNs(fSys))
    ensures result.Some? ==> LeastCounts(result.value, fScl, PeriodNs(fSys), duty)
  {
    hide All, MinNs, Lasts, HighNs, LowNs, Cycles;
    var tSys := PeriodNs(fSys);
    var cycles := map p | p in All() :: p := Cycles(WantedNs(p, fScl, duty), tSys);
    forall p: Param ensures p in cycles && Lasts(cycles[p], tSys, MinNs(p)) {
      AllListed(p);
      LeastCycles(WantedNs(p, fScl, duty), tSys, cycles[p]);
      LastsLonger(cycles[p], tSys, WantedNs(p, fScl, duty), MinNs(p));
    }
    forall p: Param, n: int ensures n >= cycles[p] <==> Lasts(n, tSys, WantedNs(p, fScl, duty)) {
      AllListed(p);
      LeastCycles(WantedNs(p, fScl, duty), tSys, n);
    }
    LeastAsWanted(cycles, fScl, tSys, duty);
    var ok := ValidateTimings(cycles, fSys);
    result := if ok then Some(cycles) else None;
  }

  lemma LastsLonger(n: int, tSys: real, ns: real, less: real)
    requires Lasts(n, tSys, ns) && ns >= less
    ensures Lasts(n, tSys, less)
  {
  }

  /** The condition under which the generator succeeds: its high and low counts make up an SDR period. */
  predicate Succeeds(fScl: real, fSys: real, duty: real)
    requires fScl > 0.0 && fSys > 0.0
  {
    var tSys := PeriodNs(fSys);
    Lasts(Cycles(HighNs(fScl, duty), tSys) + Cycles(LowNs(fScl, duty), tSys), tSys, SDR_PERIOD_NS)
  }

  /** The generated period is at least the wanted one and exceeds it by less than two clocks. */
  lemma PeriodWithinTwoClocks(fScl: real, fSys: real, duty: real)
    requires fScl > 0.0 && fSys > 0.0
    ensures var tSys, wanted := PeriodNs(fSys), HighNs(fScl, duty) + LowNs(fScl, duty);
      var cycles := Cycles(HighNs(fScl, duty), tSys) + Cycles(LowNs(fScl, duty), tSys);
      wanted <= cycles as real * tSys < wanted + 2.0 * tSys
  {
    hide HighNs, LowNs, Cycles, PeriodNs;
    var tSys := PeriodNs(fSys);
    var h, l := Cycles(HighNs(fScl, duty), tSys), Cycles(LowNs(fScl, duty), tSys);
    Overshoot(HighNs(fScl, duty), tSys);
    Overshoot(LowNs(fScl, duty), tSys);
    assert (h + l) as real * tSys == h as real * tSys + l as real * tSys;
  }

  /** Exactly when the wanted period is long enough does the generator succeed at every system clock. */
  lemma SucceedsAtEveryClock(fScl: real, duty: real)
    requires fScl > 0.0
    ensures HighNs(fScl, duty) + LowNs(fScl, duty) >= SDR_PERIOD_NS
            <==> forall fSys: real :: fSys > 0.0 ==> Succeeds(fScl, fSys, duty)
  {
    hide HighNs, LowNs, Cycles;
    var wanted := HighNs(fScl, duty) + LowNs(fScl, duty);
    if wanted >= SDR_PERIOD_NS {
      forall fSys: real | fSys > 0.0 ensures Succeeds(fScl, fSys, duty) {
        PeriodWithinTwoClocks(fScl, fSys, duty);
      }
    } else {
      var tSys := (SDR_PERIOD_NS - wanted) / 2.0;
      var fSys := PeriodNs(tSys);
      assert PeriodNs(fSys) == tSys by { Reciprocal(tSys); }
      TooShort(fScl, fSys, duty);
    }
  }

  lemma TooShort(fScl: real, fSys: real, duty: real)
    requires fScl > 0.0 && fSys > 0.0
    requires HighNs(fScl, duty) + LowNs(fScl, duty) + 2.0 * PeriodNs(fSys) <= SDR_PERIOD_NS
    ensures !Succeeds(fScl, fSys, duty)
  {
    hide HighNs, LowNs, Cycles, PeriodNs;
    PeriodWithinTwoClocks(fScl, fSys, duty);
  }

  lemma Reciprocal(t: real)
    requires t > 0.0
    ensures PeriodNs(PeriodNs(t)) == t
  {
    var f := PeriodNs(t);
    assert t * f == 1000000000.0;
    assert t == 1000000000.0 / f;
  }

  /** Up to 12.5 MHz the generated timings always validate, whatever the clock and the duty cycle. */
  lemma ValidUpToSdrLimit(fScl: real, fSys: real, duty: real)
    requires 0.0 < fScl <= SDR_F_SCL && fSys > 0.0
    ensures Succeeds(fScl, fSys, duty)
  {
    var t := TargetNs(fScl);
    assert t >= SDR_PERIOD_NS by { PeriodAtLeast(fScl); }
    assert t * duty + t * (1.0 - duty) == t;
    SucceedsAtEveryClock(fScl, duty);
  }

  /**
    Where no minimum overrides the request, the generated period is the clamped
    target, rounded up by less than two clocks.
   */
  lemma PeriodMatchesTarget(fScl: real, fSys: real, duty: real)
    requires fScl > 0.0 && fSys > 0.0
    requires TargetNs(fScl) * duty >= MinNs(THigh) && TargetNs(fScl) * (1.0 - duty) >= MinNs(TLow)
    ensures var tSys := PeriodNs(fSys);
      var period := (Cycles(HighNs(fScl, duty), tSys) + Cycles(LowNs(fScl, duty), tSys)) as real * tSys;
      TargetNs(fScl) <= period < TargetNs(fScl) + 2.0 * tSys
  {
    hide Cycles, PeriodNs, TargetNs, MinNs;
    var t := TargetNs(fScl);
    assert t * duty + t * (1.0 - duty) == t;
    PeriodWithinTwoClocks(fScl, fSys, duty);
  }

  lemma PeriodAtLeast(f: real)
    requires 0.0 < f <= SDR_F_SCL
    ensures PeriodNs(f) >= SDR_PERIOD_NS
  {
    if PeriodNs(f) < SDR_PERIOD_NS {
      Scaled(f, SDR_F_SCL, PeriodNs(f));
      ScaledLess(PeriodNs(f), SDR_PERIOD_NS, SDR_F_SCL);
      assert false;
    }
  }

  /** Above it the clamp lets through targets whose period is too short: at 1 GHz this one is 78 ns. */
  lemma ClampTooHigh()
    ensures !Succeeds(MAX_F_SCL, 1000000000.0, 0.5)
  {
    var t := TargetNs(MAX_F_SCL);
    assert 77.0 < t < 78.0;
    LeastCycles(t * 0.5, 1.0, 39);
    LeastCycles(t * 0.5, 1.0, 38);
  }
}
