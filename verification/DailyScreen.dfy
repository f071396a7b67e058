/**
 * The daily containment screen: the magnitude band, unit inference, the per-day gate that evalDailyRow
 * applies to one meter, and the verdicts dailyReconciliation draws from it.
 */
module DailyScreen {
  import opened Common
  import opened Reals
  import opened Correlation

  type Day = int

  const UNITS: seq<real> := [1.0, 0.1, 0.01]
  const MIN_DAYS := 3

  // ---- the band and the unit -------------------------------------------------------------------------

  datatype Band = Band(lo: real, hi: real)

  /** The accepted daily energy: 0.9 to 3 times the monitored mean, tightened by the bill where they overlap. */
  function BandOf(monAvg: real, bill: Option<Band>): Band {
    var lo, hi := 0.9 * monAvg, 3.0 * monAvg;
    if bill.None? then Band(lo, hi)
    else
      var l, h := MaxR(lo, 0.6 * bill.value.lo), MinR(hi, 1.4 * bill.value.hi);
      if l < h then Band(l, h) else Band(lo, hi)
  }

  /** With or without a bill, however odd, the band is not empty and stays within the monitored multiples. */
  lemma BandStaysInside(monAvg: real, bill: Option<Band>)
    requires monAvg > 0.0
    ensures var b := BandOf(monAvg, bill); 0.9 * monAvg <= b.lo < b.hi <= 3.0 * monAvg
  {
  }

  predicate Fits(unit: real, meanUnits: real, band: Band) {
    band.lo <= meanUnits * unit <= band.hi
  }

  /** The units a counter may count in: kilowatt-hours, tenths and hundredths of them. */
  lemma UnitsTried(meanUnits: real, band: Band)
    ensures SomeUnitFits(meanUnits, band) <==>
      band.lo <= meanUnits <= band.hi || 10.0 * band.lo <= meanUnits <= 10.0 * band.hi ||
      100.0 * band.lo <= meanUnits <= 100.0 * band.hi
  {
    assert Fits(UNITS[0], meanUnits, band) <==> band.lo <= meanUnits <= band.hi;
    assert Fits(UNITS[1], meanUnits, band) <==> 10.0 * band.lo <= meanUnits <= 10.0 * band.hi;
    assert Fits(UNITS[2], meanUnits, band) <==> 100.0 * band.lo <= meanUnits <= 100.0 * band.hi;
  }

  predicate SomeUnitFits(meanUnits: real, band: Band) {
    exists i | 0 <= i < |UNITS| :: Fits(UNITS[i], meanUnits, band)
  }

  /** No two decades of a count both land in the band, so the distance that would break a tie decides nothing. */
  lemma AtMostOneUnitFits(meanUnits: real, monAvg: real, bill: Option<Band>, i: nat, j: nat)
    requires monAvg > 0.0 && i < |UNITS| && j < |UNITS|
    requires Fits(UNITS[i], meanUnits, BandOf(monAvg, bill)) && Fits(UNITS[j], meanUnits, BandOf(monAvg, bill))
    ensures i == j
  {
    BandStaysInside(monAvg, bill);
  }

  /** The unit whose distance from 1.25 times the monitored mean is least on a logarithmic scale, if any fits. */
  method InferUnit(meanUnits: real, monAvg: real, bill: Option<Band>, log: real -> real) returns (unit: Option<real>)
    requires monAvg > 0.0
    ensures unit.Some? <==> SomeUnitFits(meanUnits, BandOf(monAvg, bill))
    ensures unit.Some? ==> unit.value in UNITS && Fits(unit.value, meanUnits, BandOf(monAvg, bill))
    ensures forall i | 0 <= i < |UNITS| :: Fits(UNITS[i], meanUnits, BandOf(monAvg, bill)) ==> unit == Some(UNITS[i])
  {
    var band := BandOf(monAvg, bill);
    unit := None;
    var best: Option<real> := None;
    for i := 0 to |UNITS|
      invariant unit.Some? <==> exists j | 0 <= j < i :: Fits(UNITS[j], meanUnits, band)
      invariant unit.Some? <==> best.Some?
      invariant unit.Some? ==> unit.value in UNITS && Fits(unit.value, meanUnits, band)
      invariant forall j | 0 <= j < i :: Fits(UNITS[j], meanUnits, band) ==> unit == Some(UNITS[j])
    {
      var k := meanUnits * UNITS[i];
      if band.lo <= k <= band.hi {
        var dist := AbsR(log(k / (1.25 * monAvg)));
        forall j | 0 <= j < i && Fits(UNITS[j], meanUnits, band) ensures false {
          AtMostOneUnitFits(meanUnits, monAvg, bill, i, j);
        }
        if best.None? || dist < best.value {
          best, unit := Some(dist), Some(UNITS[i]);
        }
      }
    }
  }

  // ---- the physics gate ------------------------------------------------------------------------------

  predicate Covered(byDay: map<Day, real>, days: seq<Day>) {
    forall i | 0 <= i < |days| :: days[i] in byDay
  }

  function UnitsOf(byDay: map<Day, real>, days: seq<Day>): (us: seq<real>)
    requires Covered(byDay, days)
    ensures |us| == |days|
  {
    seq(|days|, i requires 0 <= i < |days| => byDay[days[i]])
  }

  /** What a day may fall short of the monitored energy by. */
  function Tolerance(monitored: real): real {
    MaxR(1.5, 0.05 * monitored)
  }

  function Remainder(units: seq<real>, unit: real, monitored: seq<real>, i: nat): real
    requires i < |units| == |monitored|
  {
    units[i] * unit - monitored[i]
  }

  function Residuals(units: seq<real>, unit: real, monitored: seq<real>): (rs: seq<real>)
    requires |units| == |monitored|
    ensures |rs| == |units|
  {
    seq(|units|, i requires 0 <= i < |units| => Remainder(units, unit, monitored, i))
  }

  predicate DayContains(units: seq<real>, unit: real, monitored: seq<real>, i: nat)
    requires i < |units| == |monitored|
  {
    Remainder(units, unit, monitored, i) >= -Tolerance(monitored[i])
  }

  /** Every day reads at least the monitored energy, to within the tolerance. */
  predicate Contains(units: seq<real>, unit: real, monitored: seq<real>)
    requires |units| == |monitored|
  {
    forall i | 0 <= i < |units| :: DayContains(units, unit, monitored, i)
  }

  predicate FirstBelow(units: seq<real>, unit: real, monitored: seq<real>, i: nat)
    requires i < |units| == |monitored|
  {
    !DayContains(units, unit, monitored, i) && forall j | 0 <= j < i :: DayContains(units, unit, monitored, j)
  }

  /** Some unit puts the mean in the band and contains the monitored energy. */
  ghost predicate UnitPasses(units: seq<real>, monitored: seq<real>, band: Band)
    requires |units| == |monitored| > 0
  {
    exists u :: u in UNITS && Fits(u, Mean(units), band) && Contains(units, u, monitored)
  }

  /** The screen's verdict, said without the steps that reach it. */
  ghost predicate Passes(byDay: map<Day, real>, days: seq<Day>, monitored: seq<real>, band: Band)
    requires |days| == |monitored| > 0
  {
    Covered(byDay, days) && UnitPasses(UnitsOf(byDay, days), monitored, band)
  }

  function StdDev(xs: seq<real>, sqrt: Sqrt): real {
    if |xs| < 2 then 0.0 else sqrt(Sxy(xs, xs) / (|xs| - 1) as real)
  }

  /** How steady (sd) and how small (mean) the unmonitored remainder is. */
  function ScoreFrom(rm: real, rs: real, monAvg: real): (score: real)
    requires monAvg > 0.0
    ensures 0.3 <= score <= 1.0
  {
    var stability := Clamp01(1.0 - rs / (0.15 * monAvg + 2.0));
    var smallness := Clamp01(1.0 - rm / MaxR(monAvg, 1.0));
    Clamp01(0.3 + 0.4 * stability + 0.3 * smallness)
  }

  function ScoreOf(resids: seq<real>, monAvg: real, sqrt: Sqrt): real
    requires resids != [] && monAvg > 0.0
  {
    ScoreFrom(Mean(resids), StdDev(resids, sqrt), monAvg)
  }

  lemma ResidualsFront(units: seq<real>, unit: real, monitored: seq<real>)
    requires |units| == |monitored| > 0
    ensures var n := |units| - 1;
      Residuals(units, unit, monitored)[..n] == Residuals(units[..n], unit, monitored[..n]) &&
      Residuals(units, unit, monitored)[n] == units[n] * unit - monitored[n]
  {
    var n := |units| - 1;
    var rs, front := Residuals(units, unit, monitored), Residuals(units[..n], unit, monitored[..n]);
    forall i | 0 <= i < n ensures rs[i] == front[i] {
      assert units[..n][i] == units[i] && monitored[..n][i] == monitored[i];
    }
  }

  lemma {:induction false} SumOfResiduals(units: seq<real>, unit: real, monitored: seq<real>)
    requires |units| == |monitored|
    ensures Sum(Residuals(units, unit, monitored)) == Sum(units) * unit - Sum(monitored)
  {
    hide Residuals;
    if units != [] {
      var n := |units| - 1;
      SumOfResiduals(units[..n], unit, monitored[..n]);
      ResidualsFront(units, unit, monitored);
      Distribute(unit, Sum(units[..n]), units[n]);
    }
  }

  /** The mean remainder is the meter's own daily mean less the monitored one. */
  lemma MeanResidual(units: seq<real>, unit: real, monitored: seq<real>)
    requires |units| == |monitored| > 0
    ensures Mean(Residuals(units, unit, monitored)) == Mean(units) * unit - Mean(monitored)
  {
    SumOfResiduals(units, unit, monitored);
    var n := |units| as real;
    var u, m := Mean(units), Mean(monitored);
    assert u * n == Sum(units) && m * n == Sum(monitored);
    assert (u * unit - m) * n == (u * n) * unit - m * n;
    Quotient(Sum(Residuals(units, unit, monitored)), n, u * unit - m);
  }

  /** Whatever passes carries, on average, between a tenth less and twice more than the monitored energy unseen. */
  lemma RemainderIsBounded(byDay: map<Day, real>, days: seq<Day>, monitored: seq<real>, bill: Option<Band>, unit: real)
    requires |days| == |monitored| > 0 && Covered(byDay, days) && Mean(monitored) > 0.0
    requires Fits(unit, Mean(UnitsOf(byDay, days)), BandOf(Mean(monitored), bill))
    ensures var rm := Mean(Residuals(UnitsOf(byDay, days), unit, monitored));
      -0.1 * Mean(monitored) <= rm <= 2.0 * Mean(monitored)
  {
    MeanResidual(UnitsOf(byDay, days), unit, monitored);
    BandStaysInside(Mean(monitored), bill);
  }

  /**
   * The true meter is never screened out: counts that are the home's energy in one of the three units, a
   * home that uses at least what is monitored each day, and a mean inside the band.
   */
  lemma TrueMeterPasses(byDay: map<Day, real>, days: seq<Day>, monitored: seq<real>, home: seq<real>, unit: real, band: Band)
    requires |days| == |monitored| == |home| > 0 && Covered(byDay, days) && unit in UNITS
    requires forall i :: 0 <= i < |days| ==> byDay[days[i]] * unit == home[i] && home[i] >= monitored[i]
    requires band.lo <= Mean(home) <= band.hi
    ensures Passes(byDay, days, monitored, band)
  {
    var us := UnitsOf(byDay, days);
    var zeros := seq(|days|, i => 0.0);
    assert Residuals(us, unit, zeros) == home;
    SumOfZeros(zeros);
    MeanResidual(us, unit, zeros);
    assert Mean(zeros) == 0.0;
    assert Fits(unit, Mean(us), band);
    assert Contains(us, unit, monitored);
  }

  lemma {:induction false} SumOfZeros(zs: seq<real>)
    requires forall i :: 0 <= i < |zs| ==> zs[i] == 0.0
    ensures Sum(zs) == 0.0
  {
    if zs != [] {
      SumOfZeros(zs[..|zs| - 1]);
    }
  }

  // ---- one row ---------------------------------------------------------------------------------------

  datatype Reason = NoReason | NoReadings(day: Day) | Magnitude | BelowMonitored(day: Day)

  datatype Cell = Cell(day: Day, kwh: real, resid: Option<real>)

  method MeanOf(xs: seq<real>) returns (m: real)
    requires xs != []
    ensures m == Mean(xs)
  {
    var s := 0.0;
    for i := 0 to |xs|
      invariant s == Sum(xs[..i])
    {
      SumSnoc(xs, i);
      s := s + xs[i];
    }
    assert xs[..|xs|] == xs;
    m := s / |xs| as real;
  }

  method StdDevOf(xs: seq<real>, sqrt: Sqrt) returns (sd: real)
    ensures sd == StdDev(xs, sqrt)
  {
    hide Cross;
    if |xs| < 2 {
      return 0.0;
    }
    var m := MeanOf(xs);
    var s := 0.0;
    CrossEmpty(xs[..0], xs[..0], m, m);
    for i := 0 to |xs|
      invariant s == Cross(xs[..i], xs[..i], m, m)
    {
      CrossSnoc(xs, xs, i, m, m);
      s := s + (xs[i] - m) * (xs[i] - m);
    }
    assert xs[..|xs|] == xs;
    sd := sqrt(s / (|xs| - 1) as real);
  }

  /** The meter's counts day by day, or the first day it has none for. */
  method Gather(byDay: map<Day, real>, ds: seq<Day>) returns (missing: Option<Day>, units: seq<real>)
    ensures missing.None? <==> Covered(byDay, ds)
    ensures missing.None? ==> units == UnitsOf(byDay, ds)
    ensures missing.Some? ==> exists i | 0 <= i < |ds| :: ds[i] == missing.value && FirstMissing(byDay, ds, i)
  {
    units := [];
    for i := 0 to |ds|
      invariant |units| == i
      invariant forall j | 0 <= j < i :: ds[j] in byDay && units[j] == byDay[ds[j]]
    {
      if ds[i] !in byDay {
        assert FirstMissing(byDay, ds, i);
        return Some(ds[i]), units;
      }
      units := units + [byDay[ds[i]]];
    }
    missing := None;
  }

  predicate FirstMissing(byDay: map<Day, real>, ds: seq<Day>, i: nat)
    requires i < |ds|
  {
    ds[i] !in byDay && Covered(byDay, ds[..i])
  }

  function CellAt(units: seq<real>, unit: real, ds: seq<Day>, monitored: seq<real>, i: nat): Cell
    requires i < |units| == |ds| == |monitored|
  {
    Cell(ds[i], units[i] * unit, Some(Remainder(units, unit, monitored, i)))
  }

  lemma DayOf(units: seq<real>, unit: real, ds: seq<Day>, monitored: seq<real>, i: nat, kwh: real, resid: real)
    requires i < |units| == |ds| == |monitored| && kwh == units[i] * unit && resid == kwh - monitored[i]
    ensures CellAt(units, unit, ds, monitored, i) == Cell(ds[i], kwh, Some(resid))
    ensures DayContains(units, unit, monitored, i) <==> resid >= -Tolerance(monitored[i])
  {
  }

  method RawCells(units: seq<real>, ds: seq<Day>) returns (cells: seq<Cell>)
    requires |units| == |ds|
    ensures |cells| == |ds| && forall j | 0 <= j < |ds| :: cells[j] == Cell(ds[j], units[j], None)
  {
    cells := [];
    for i := 0 to |ds|
      invariant |cells| == i && forall j | 0 <= j < i :: cells[j] == Cell(ds[j], units[j], None)
    {
      cells := cells + [Cell(ds[i], units[i], None)];
    }
  }

  class Row {
    var unit: Option<real>
    var kwhPerDay: Option<real>
    var residMean: Option<real>
    var residSd: Option<real>
    var pass: bool
    var score: real
    var reason: Reason
    var days: seq<Cell>

    constructor ()
      ensures Blank()
    {
      unit, kwhPerDay, residMean, residSd := None, None, None, None;
      pass, score, reason, days := false, 0.0, NoReason, [];
    }

    predicate Blank()
      reads this
    {
      unit.None? && kwhPerDay.None? && residMean.None? && residSd.None? && !pass && score == 0.0 && reason.NoReason? &&
      days == []
    }

    /** Why the row failed: no unit, or the first day below the monitored energy. */
    ghost predicate ReasonIsRight(units: seq<real>, ds: seq<Day>, monitored: seq<real>, band: Band)
      requires |units| == |ds| == |monitored| > 0
      reads this
    {
      match reason
      case NoReason => pass
      case NoReadings(_) => false
      case Magnitude => !pass && unit.None?
      case BelowMonitored(day) =>
        !pass && unit.Some? && exists i | 0 <= i < |ds| :: ds[i] == day && FirstBelow(units, unit.value, monitored, i)
    }

    /** One cell a day, in order, at the unit found or as raw counts without one. */
    ghost predicate CellsAreRight(units: seq<real>, ds: seq<Day>, monitored: seq<real>)
      requires |units| == |ds| == |monitored|
      reads this
    {
      |days| == |ds| && forall i | 0 <= i < |ds| ::
        days[i] == if unit.Some? then CellAt(units, unit.value, ds, monitored, i) else Cell(ds[i], units[i], None)
    }

    /** The unit and every figure derived from it; the score is zero for a row that fails. */
    ghost predicate FiguresAreRight(units: seq<real>, monitored: seq<real>, monAvg: real, band: Band, sqrt: Sqrt)
      requires |units| == |monitored| > 0 && monAvg > 0.0
      reads this
    {
      (unit.Some? <==> SomeUnitFits(Mean(units), band)) &&
      match unit
      case None => !pass && score == 0.0 && kwhPerDay.None? && residMean.None? && residSd.None?
      case Some(u) =>
        var resids := Residuals(units, u, monitored);
        u in UNITS && Fits(u, Mean(units), band) && kwhPerDay == Some(Mean(units) * u) &&
        residMean == Some(Mean(resids)) && residSd == Some(StdDev(resids, sqrt)) &&
        score == if pass then ScoreOf(resids, monAvg, sqrt) else 0.0
    }

    /** Fills the row; a meter that lacks a day keeps a blank row but for the first such day. */
    method EvalDailyRow(byDay: map<Day, real>, ds: seq<Day>, monitored: seq<real>, monAvg: real, bill: Option<Band>,
                        sqrt: Sqrt, log: real -> real)
      requires |ds| == |monitored| > 0 && monAvg > 0.0 && Blank()
      modifies this
      ensures pass <==> Passes(byDay, ds, monitored, BandOf(monAvg, bill))
      ensures if pass then 0.3 <= score <= 1.0 else score == 0.0
      ensures !Covered(byDay, ds) ==>
        days == [] && unit.None? && exists i | 0 <= i < |ds| :: reason == NoReadings(ds[i]) && FirstMissing(byDay, ds, i)
      ensures Covered(byDay, ds) ==>
        ReasonIsRight(UnitsOf(byDay, ds), ds, monitored, BandOf(monAvg, bill)) &&
        CellsAreRight(UnitsOf(byDay, ds), ds, monitored) &&
        FiguresAreRight(UnitsOf(byDay, ds), monitored, monAvg, BandOf(monAvg, bill), sqrt)
    {
      hide UnitPasses, BandOf, ReasonIsRight, CellsAreRight, ScoreFrom;
      var missing, units := Gather(byDay, ds);
      if missing.Some? {
        reason := NoReadings(missing.value);
      } else {
        EvalCovered(units, ds, monitored, monAvg, bill, sqrt, log);
      }
    }

    method EvalCovered(units: seq<real>, ds: seq<Day>, monitored: seq<real>, monAvg: real, bill: Option<Band>,
                       sqrt: Sqrt, log: real -> real)
      requires |units| == |ds| == |monitored| > 0 && monAvg > 0.0 && Blank()
      modifies this
      ensures pass <==> UnitPasses(units, monitored, BandOf(monAvg, bill))
      ensures ReasonIsRight(units, ds, monitored, BandOf(monAvg, bill))
      ensures CellsAreRight(units, ds, monitored)
      ensures FiguresAreRight(units, monitored, monAvg, BandOf(monAvg, bill), sqrt)
    {
      hide Mean, UnitPasses, SomeUnitFits, BandOf, Contains, StdDev, ScoreFrom, Fits, Residuals, CellAt, FirstBelow;
      var meanUnits := MeanOf(units);
      var found := InferUnit(meanUnits, monAvg, bill, log);
      if found.None? {
        days := RawCells(units, ds);
        reason := Magnitude;
        NoUnitNoPass(units, monitored, BandOf(monAvg, bill));
      } else {
        unit := found;
        kwhPerDay := Some(meanUnits * unit.value);
        OnlyThisUnit(units, monitored, monAvg, bill, unit.value);
        Judge(units, ds, monitored, monAvg, sqrt);
      }
    }

    /** The physics gate and the score, once a unit is known. */
    method Judge(units: seq<real>, ds: seq<Day>, monitored: seq<real>, monAvg: real, sqrt: Sqrt)
      requires |units| == |ds| == |monitored| > 0 && monAvg > 0.0
      requires unit.Some? && !pass && score == 0.0 && reason.NoReason?
      modifies this
      ensures unit == old(unit) && kwhPerDay == old(kwhPerDay)
      ensures pass <==> Contains(units, unit.value, monitored)
      ensures pass ==> reason.NoReason?
      ensures !pass ==> reason.BelowMonitored?
      ensures !pass ==> exists i | 0 <= i < |ds| :: ds[i] == reason.day && FirstBelow(units, unit.value, monitored, i)
      ensures |days| == |ds| && forall i | 0 <= i < |ds| :: days[i] == CellAt(units, unit.value, ds, monitored, i)
      ensures residMean == Some(Mean(Residuals(units, unit.value, monitored)))
      ensures residSd == Some(StdDev(Residuals(units, unit.value, monitored), sqrt))
      ensures score == if pass then ScoreOf(Residuals(units, unit.value, monitored), monAvg, sqrt) else 0.0
    {
      hide Mean, Contains, StdDev, ScoreFrom, Residuals, CellAt, FirstBelow;
      var worst := Gate(units, ds, monitored);
      var resids := Residuals(units, unit.value, monitored);
      var rm := MeanOf(resids);
      var rs := StdDevOf(resids, sqrt);
      residMean, residSd := Some(rm), Some(rs);
      if worst.Some? {
        reason := BelowMonitored(worst.value);
        return;
      }
      pass := true;
      score := ScoreFrom(rm, rs, monAvg);
    }

    /** The per-day loop: fills the cells and keeps the first day that reads below the monitored energy. */
    method Gate(units: seq<real>, ds: seq<Day>, monitored: seq<real>) returns (worst: Option<Day>)
      requires |units| == |ds| == |monitored| && unit.Some?
      modifies this`days
      ensures |days| == |ds|
      ensures forall i | 0 <= i < |ds| :: days[i] == CellAt(units, unit.value, ds, monitored, i)
      ensures worst.None? <==> Contains(units, unit.value, monitored)
      ensures worst.Some? ==>
        exists i | 0 <= i < |ds| :: ds[i] == worst.value && FirstBelow(units, unit.value, monitored, i)
    {
      hide CellAt, DayContains;
      worst, days := None, [];
      for i := 0 to |ds|
        invariant |days| == i && unit == old(unit)
        invariant forall j | 0 <= j < i :: days[j] == CellAt(units, unit.value, ds, monitored, j)
        invariant worst.None? <==> forall j | 0 <= j < i :: DayContains(units, unit.value, monitored, j)
        invariant worst.Some? ==>
          exists j | 0 <= j < i :: ds[j] == worst.value && FirstBelow(units, unit.value, monitored, j)
      {
        var kwh := units[i] * unit.value;
        var resid := kwh - monitored[i];
        days := days + [Cell(ds[i], kwh, Some(resid))];
        DayOf(units, unit.value, ds, monitored, i, kwh, resid);
        if resid < -MaxR(1.5, 0.05 * monitored[i]) && worst.None? {
          worst := Some(ds[i]);
        }
      }
    }
  }

  lemma NoUnitNoPass(units: seq<real>, monitored: seq<real>, band: Band)
    requires |units| == |monitored| > 0 && !SomeUnitFits(Mean(units), band)
    ensures !UnitPasses(units, monitored, band)
  {
    forall u | u in UNITS ensures !Fits(u, Mean(units), band) {
      var i :| 0 <= i < |UNITS| && UNITS[i] == u;
    }
  }

  /** With a unit that fits, the verdict is whether that unit contains the monitored energy. */
  lemma OnlyThisUnit(units: seq<real>, monitored: seq<real>, monAvg: real, bill: Option<Band>, unit: real)
    requires |units| == |monitored| > 0 && monAvg > 0.0
    requires unit in UNITS && Fits(unit, Mean(units), BandOf(monAvg, bill))
    ensures UnitPasses(units, monitored, BandOf(monAvg, bill)) <==> Contains(units, unit, monitored)
  {
    forall u | u in UNITS && Fits(u, Mean(units), BandOf(monAvg, bill)) ensures u == unit {
      var i :| 0 <= i < |UNITS| && UNITS[i] == u;
      var j :| 0 <= j < |UNITS| && UNITS[j] == unit;
      AtMostOneUnitFits(Mean(units), monAvg, bill, i, j);
    }
  }

  // ---- in kilowatt-hours and days --------------------------------------------------------------------

  /** Without a bill a mean passes between nine tenths and three times the monitored mean. */
  lemma BandWithoutBill(monAvg: real, x: real)
    ensures var b := BandOf(monAvg, None); b.lo <= x <= b.hi <==> 0.9 * monAvg <= x <= 3.0 * monAvg
  {
  }

  /** A bill tightens the band to what also lies between six tenths and seven fifths of it, unless that leaves nothing. */
  lemma BandWithBill(monAvg: real, bill: Band, x: real)
    ensures var b, plain := BandOf(monAvg, Some(bill)), BandOf(monAvg, None);
      if 0.6 * bill.lo < 1.4 * bill.hi && 0.6 * bill.lo < 3.0 * monAvg && 0.9 * monAvg < 1.4 * bill.hi && monAvg > 0.0
      then b.lo <= x <= b.hi <==> plain.lo <= x <= plain.hi && 0.6 * bill.lo <= x <= 1.4 * bill.hi
      else monAvg > 0.0 ==> b == plain
  {
  }

  /** A day holds when it is short of the monitored energy by no more than 1.5 kWh, or a twentieth of it if that is more. */
  lemma DayHolds(units: seq<real>, unit: real, monitored: seq<real>, i: nat)
    requires i < |units| == |monitored|
    ensures DayContains(units, unit, monitored, i) <==>
      units[i] * unit >= monitored[i] - 1.5 || units[i] * unit >= 0.95 * monitored[i]
  {
  }

  /**
   * The score of a remainder of mean rm and deviation rs, within the ranges in which neither counts fully: four
   * tenths are lost over a deviation of 15% of the monitored mean plus 2, three tenths over a mean as large as it.
   */
  lemma ScoreMarks(rm: real, rs: real, monAvg: real, u: real, v: real)
    requires monAvg > 0.0 && 0.0 <= u <= 1.0 && 0.0 <= v <= 1.0
    requires rs == u * (0.15 * monAvg + 2.0) && rm == v * (if monAvg > 1.0 then monAvg else 1.0)
    ensures 10.0 * ScoreFrom(rm, rs, monAvg) == 10.0 - 4.0 * u - 3.0 * v
  {
    hide ScoreFrom;
    Quotient(rs, 0.15 * monAvg + 2.0, u);
    Quotient(rm, MaxR(monAvg, 1.0), v);
    ScoreOfShares(rm, rs, monAvg, u, v);
  }

  lemma ScoreOfShares(rm: real, rs: real, monAvg: real, u: real, v: real)
    requires monAvg > 0.0 && 0.0 <= u <= 1.0 && 0.0 <= v <= 1.0
    requires rs / (0.15 * monAvg + 2.0) == u && rm / MaxR(monAvg, 1.0) == v
    ensures ScoreFrom(rm, rs, monAvg) == 1.0 - 0.4 * u - 0.3 * v
  {
  }

  /** Outside those ranges the score stays where it is at their ends. */
  lemma ScoreEnds(rm: real, rs: real, monAvg: real)
    requires monAvg > 0.0
    ensures var d, e := 0.15 * monAvg + 2.0, if monAvg > 1.0 then monAvg else 1.0;
      (rs >= d ==> ScoreFrom(rm, rs, monAvg) == ScoreFrom(rm, d, monAvg)) &&
      (rm >= e ==> ScoreFrom(rm, rs, monAvg) == ScoreFrom(e, rs, monAvg)) &&
      (rm <= 0.0 ==> ScoreFrom(rm, rs, monAvg) == ScoreFrom(0.0, rs, monAvg))
  {
    var d, e := 0.15 * monAvg + 2.0, MaxR(monAvg, 1.0);
    AtLeastOne(rs, d);
    AtLeastOne(rm, e);
    AtLeastOne(d, d);
    AtLeastOne(e, e);
    if rm <= 0.0 {
      AtMostZero(rm, e);
    }
  }

  lemma AtLeastOne(x: real, d: real)
    requires d > 0.0
    ensures x >= d ==> x / d >= 1.0
  {
    var q := x / d;
    assert q * d == x;
    if x >= d && q < 1.0 {
      ScaleLess(q, 1.0, d);
    }
  }

  lemma AtMostZero(x: real, d: real)
    requires d > 0.0 && x <= 0.0
    ensures x / d <= 0.0 && 0.0 / d == 0.0
  {
    var q := x / d;
    assert q * d == x;
    if q > 0.0 {
      PosFactor(d, q);
    }
  }

  /** The deviation, squared and times one less than the count, is the sum of squares about the mean. */
  lemma DeviationSquared(xs: seq<real>, sqrt: Sqrt)
    requires IsSqrt(sqrt) && |xs| >= 2
    ensures StdDev(xs, sqrt) >= 0.0
    ensures (StdDev(xs, sqrt) * StdDev(xs, sqrt)) * (|xs| - 1) as real == Sxy(xs, xs)
  {
    hide Sxy;
    SxyNonneg(xs);
    var n := (|xs| - 1) as real;
    var v := Sxy(xs, xs) / n;
    assert v * n == Sxy(xs, xs);
    PosFactor(n, v);
    var d := sqrt(v);
    assert d >= 0.0 && d * d == v;
  }
}
