/** Counter arithmetic: hourly maxima of a wrapping counter, lag, and the rollover-aware delta. */
module Counters {
  import opened Common

  function Modulus(msgType: string): int {
    if msgType == "SCM" then 0x100_0000 else 0x1_0000_0000
  }

  /** `rolloverDeltaSQL`: the CASE over a signed counter step. */
  function RolloverDelta(raw: int, modulus: int): Option<int> {
    if raw >= 0 then Some(raw)
    else if raw + modulus >= 0 && 2 * (raw + modulus) < modulus then Some(raw + modulus)
    else None
  }

  /** One row of the hourly aggregate of one meter. */
  datatype HourRow = HourRow(hb: int, cmax: int, n: nat)

  /** `lag(cmax) OVER (ORDER BY hb)` followed by the delta; the first row has no predecessor. */
  function Delta(rows: seq<HourRow>, i: nat, modulus: int): Option<int>
    requires i < |rows|
  {
    if i == 0 then None else RolloverDelta(rows[i].cmax - rows[i - 1].cmax, modulus)
  }

  /** A wrapping step, with the number of wraps explicit. */
  lemma StepExactIff(shownBefore: int, shownAfter: int, wraps: int, rise: int, modulus: int)
    requires 0 <= shownBefore < modulus && 0 <= shownAfter < modulus && rise >= 0
    requires rise == wraps * modulus + shownAfter - shownBefore
    ensures RolloverDelta(shownAfter - shownBefore, modulus) == Some(rise)
            <==> 2 * rise < modulus || (rise < modulus && shownBefore <= shownAfter)
  {
    var w := WholeWraps(wraps, modulus);
    StepByWraps(shownBefore, shownAfter, w, rise, modulus);
  }

  lemma WholeWraps(wraps: int, modulus: int) returns (w: int)
    requires modulus > 0
    ensures w == wraps * modulus
    ensures w == 0 || w == modulus || w >= 2 * modulus || w <= -modulus
  {
    w := wraps * modulus;
    if wraps >= 2 {
      Wider(2, wraps, modulus);
    } else if wraps <= -1 {
      Wider(wraps, -1, modulus);
    }
  }

  lemma Wider(a: int, b: int, c: int)
    requires a <= b && c > 0
    ensures a * c <= b * c
  {
  }

  lemma StepByWraps(shownBefore: int, shownAfter: int, w: int, rise: int, modulus: int)
    requires 0 <= shownBefore < modulus && 0 <= shownAfter < modulus && rise >= 0
    requires rise == w + shownAfter - shownBefore
    requires w == 0 || w == modulus || w >= 2 * modulus || w <= -modulus
    ensures RolloverDelta(shownAfter - shownBefore, modulus) == Some(rise)
            <==> 2 * rise < modulus || (rise < modulus && shownBefore <= shownAfter)
  {
  }

  /** What a counter of that field width shows: it starts over whenever it reaches the width. */
  function Shown(odo: nat, modulus: int): (r: int)
    requires modulus > 0
    ensures 0 <= r < modulus
  {
    if odo < modulus then odo else Shown(odo - modulus, modulus)
  }

  lemma OneMoreWrap(w: int, modulus: int)
    ensures (w + 1) * modulus == w * modulus + modulus
  {
  }

  lemma {:induction false} ShownSplit(odo: nat, modulus: int) returns (wraps: nat)
    requires modulus > 0
    ensures odo == wraps * modulus + Shown(odo, modulus)
  {
    if odo < modulus {
      wraps := 0;
    } else {
      var w := ShownSplit(odo - modulus, modulus);
      wraps := w + 1;
      OneMoreWrap(w, modulus);
    }
  }

  /** The step is exact exactly for a rise under half the range, or one under the whole range that did not wrap. */
  lemma DeltaExactIff(before: nat, after: nat, modulus: int)
    requires modulus > 0 && before <= after
    ensures RolloverDelta(Shown(after, modulus) - Shown(before, modulus), modulus) == Some(after - before)
            <==> 2 * (after - before) < modulus
                 || (after - before < modulus && Shown(before, modulus) <= Shown(after, modulus))
  {
    var b := ShownSplit(before, modulus);
    var a := ShownSplit(after, modulus);
    assert a * modulus - b * modulus == (a - b) * modulus;
    StepExactIff(Shown(before, modulus), Shown(after, modulus), a - b, after - before, modulus);
  }

  /** A displayed drop is refused exactly when it is at most half the range: a reset, not a wrap. */
  lemma DropIsNull(before: int, after: int, modulus: int)
    requires 0 <= after < before < modulus
    ensures RolloverDelta(after - before, modulus) == None <==> 2 * (before - after) <= modulus
  {
  }

  /** One stored reading: the bucket its time falls in, the true odometer value, and the counter it showed. */
  datatype Reading = Reading(bucket: int, odo: nat, shown: int)

  /** A nondecreasing odometer, shown modulo the field width, in time order. */
  ghost predicate Odometer(log: seq<Reading>, modulus: int)
    requires modulus > 0
  {
    (forall i :: 0 <= i < |log| ==> log[i].shown == Shown(log[i].odo, modulus)) &&
    forall i, j :: 0 <= i <= j < |log| ==> log[i].bucket <= log[j].bucket && log[i].odo <= log[j].odo
  }

  predicate SameBucket(rows: seq<HourRow>, r: Reading) {
    rows != [] && rows[|rows| - 1].hb == r.bucket
  }

  function AddToRows(rows: seq<HourRow>, r: Reading): seq<HourRow> {
    if SameBucket(rows, r) then
      var last := rows[|rows| - 1];
      rows[|rows| - 1 := HourRow(r.bucket, Max(last.cmax, r.shown), last.n + 1)]
    else rows + [HourRow(r.bucket, r.shown, 1)]
  }

  /** `readings_1h`: per bucket, the largest counter shown and the number of readings. */
  function Hourly(log: seq<Reading>): seq<HourRow> {
    if log == [] then [] else AddToRows(Hourly(log[..|log| - 1]), log[|log| - 1])
  }

  /** The readings that the rows count for one bucket. */
  function PacketsAt(rows: seq<HourRow>, hb: int): int {
    if rows == [] then 0
    else
      var n := |rows| - 1;
      PacketsAt(rows[..n], hb) + if rows[n].hb == hb then rows[n].n else 0
  }

  function Buckets(log: seq<Reading>): (hbs: seq<int>)
    ensures |hbs| == |log| && forall i :: 0 <= i < |log| ==> hbs[i] == log[i].bucket
  {
    seq(|log|, i requires 0 <= i < |log| => log[i].bucket)
  }

  /** Each bucket counts its readings. */
  lemma {:induction false} PacketsAreCounted(log: seq<Reading>, hb: int)
    ensures PacketsAt(Hourly(log), hb) == multiset(Buckets(log))[hb]
  {
    if log != [] {
      var n := |log| - 1;
      PacketsAreCounted(log[..n], hb);
      assert Buckets(log) == Buckets(log[..n]) + [log[n].bucket];
      hide PacketsAt, AddToRows, Buckets;
      OnePacketMore(Hourly(log[..n]), log[n], hb);
    }
  }

  lemma OnePacketMore(rows: seq<HourRow>, r: Reading, hb: int)
    ensures PacketsAt(AddToRows(rows, r), hb) == PacketsAt(rows, hb) + if r.bucket == hb then 1 else 0
  {
    var more := AddToRows(rows, r);
    assert more[..|more| - 1] == if SameBucket(rows, r) then rows[..|rows| - 1] else rows;
  }

  function AddToPeaks(rows: seq<HourRow>, peaks: seq<nat>, r: Reading): (more: seq<nat>)
    requires |peaks| == |rows|
    ensures |more| == |AddToRows(rows, r)|
  {
    if !SameBucket(rows, r) then peaks + [r.odo]
    else if rows[|rows| - 1].cmax >= r.shown then peaks
    else peaks[|rows| - 1 := r.odo]
  }

  /** The true odometer value behind each bucket's maximum (the earlier reading when two show the same). */
  function Peaks(log: seq<Reading>): (peaks: seq<nat>)
    ensures |peaks| == |Hourly(log)|
  {
    if log == [] then []
    else AddToPeaks(Hourly(log[..|log| - 1]), Peaks(log[..|log| - 1]), log[|log| - 1])
  }

  /** Each row's maximum is the displayed form of a true value, and those values ascend up to `last`. */
  ghost predicate Backed(rows: seq<HourRow>, peaks: seq<nat>, last: nat, modulus: int)
    requires modulus > 0
  {
    && |rows| == |peaks|
    && (forall i :: 0 <= i < |rows| ==> rows[i].cmax == Shown(peaks[i], modulus))
    && (forall i :: 0 <= i < |peaks| ==> peaks[i] <= last)
    && (forall i, j :: 0 <= i <= j < |peaks| ==> peaks[i] <= peaks[j])
  }

  lemma BackedStep(rows: seq<HourRow>, peaks: seq<nat>, last: nat, r: Reading, modulus: int)
    requires modulus > 0 && Backed(rows, peaks, last, modulus)
    requires last <= r.odo && r.shown == Shown(r.odo, modulus)
    ensures Backed(AddToRows(rows, r), AddToPeaks(rows, peaks, r), r.odo, modulus)
  {
  }

  /** Whatever the grouping, the peaks are real readings shown modulo the field, in odometer order. */
  lemma {:induction false} PeaksBehindMaxima(log: seq<Reading>, modulus: int)
    requires modulus > 0 && Odometer(log, modulus)
    ensures log != [] ==> Hourly(log) != []
    ensures Backed(Hourly(log), Peaks(log), if log == [] then 0 else log[|log| - 1].odo, modulus)
  {
    if log != [] {
      var shorter := log[..|log| - 1];
      PeaksBehindMaxima(shorter, modulus);
      var last := if shorter == [] then 0 else shorter[|shorter| - 1].odo;
      assert last <= log[|log| - 1].odo;
      BackedStep(Hourly(shorter), Peaks(shorter), last, log[|log| - 1], modulus);
    }
  }

  ghost predicate Accounts(row: HourRow, r: Reading) {
    row.hb == r.bucket && r.shown <= row.cmax
  }

  ghost predicate Covered(r: Reading, rows: seq<HourRow>) {
    exists i :: 0 <= i < |rows| && Accounts(rows[i], r)
  }

  ghost predicate Attained(row: HourRow, log: seq<Reading>) {
    exists r :: r in log && row.hb == r.bucket && row.cmax == r.shown
  }

  /** The rows are the group-by maximum of the log: ascending buckets, each bound attained, nothing uncovered. */
  ghost predicate IsBucketMaximum(rows: seq<HourRow>, log: seq<Reading>) {
    && Ascending(rows)
    && (forall r :: r in log ==> Covered(r, rows))
    && (forall i :: 0 <= i < |rows| ==> Attained(rows[i], log))
  }

  lemma CoveredStays(rows: seq<HourRow>, s: Reading, r: Reading)
    requires Covered(s, rows)
    ensures Covered(s, AddToRows(rows, r))
  {
    var i :| 0 <= i < |rows| && Accounts(rows[i], s);
    assert Accounts(AddToRows(rows, r)[i], s);
  }

  lemma AttainedStep(rows: seq<HourRow>, log: seq<Reading>, r: Reading, i: nat)
    requires i < |AddToRows(rows, r)|
    requires i < |rows| ==> Attained(rows[i], log)
    ensures Attained(AddToRows(rows, r)[i], log + [r])
  {
    if i < |rows| && rows[i].cmax == AddToRows(rows, r)[i].cmax {
      var s :| s in log && rows[i].hb == s.bucket && rows[i].cmax == s.shown;
      assert s in log + [r];
    } else {
      assert r in log + [r];
    }
  }

  ghost predicate Ascending(rows: seq<HourRow>) {
    forall i, j :: 0 <= i < j < |rows| ==> rows[i].hb < rows[j].hb
  }

  lemma AscendingStep(rows: seq<HourRow>, r: Reading)
    requires Ascending(rows) && (rows != [] ==> rows[|rows| - 1].hb <= r.bucket)
    ensures Ascending(AddToRows(rows, r))
  {
  }

  lemma BucketMaximumStep(rows: seq<HourRow>, log: seq<Reading>, r: Reading)
    requires IsBucketMaximum(rows, log)
    requires rows != [] ==> rows[|rows| - 1].hb <= r.bucket
    ensures IsBucketMaximum(AddToRows(rows, r), log + [r])
  {
    var more := AddToRows(rows, r);
    forall s | s in log + [r]
      ensures Covered(s, more)
    {
      if s in log {
        CoveredStays(rows, s, r);
      } else {
        assert Accounts(more[|more| - 1], r);
      }
    }
    forall i | 0 <= i < |more|
      ensures Attained(more[i], log + [r])
    {
      AttainedStep(rows, log, r, i);
    }
    AscendingStep(rows, r);
  }

  lemma HourlySnoc(log: seq<Reading>)
    requires log != []
    ensures Hourly(log) == AddToRows(Hourly(log[..|log| - 1]), log[|log| - 1]) && SameBucket(Hourly(log), log[|log| - 1])
  {
  }

  ghost predicate InTimeOrder(log: seq<Reading>) {
    forall i, j :: 0 <= i <= j < |log| ==> log[i].bucket <= log[j].bucket
  }

  /** The aggregate is that group-by maximum whenever the log is in time order. */
  lemma {:induction false} HourlyIsBucketMaximum(log: seq<Reading>)
    requires InTimeOrder(log)
    ensures IsBucketMaximum(Hourly(log), log)
  {
    hide IsBucketMaximum, Hourly, AddToRows, InTimeOrder;
    if log == [] {
      NoReadingsNoRows(log);
    } else {
      var n := |log| - 1;
      NextIsNotEarlier(log);
      HourlyIsBucketMaximum(log[..n]);
      HourlySnoc(log);
      BucketMaximumStep(Hourly(log[..n]), log[..n], log[n]);
      assert log == log[..n] + [log[n]];
    }
  }

  lemma NextIsNotEarlier(log: seq<Reading>)
    requires log != [] && InTimeOrder(log)
    ensures InTimeOrder(log[..|log| - 1])
    ensures var rows := Hourly(log[..|log| - 1]); rows != [] ==> rows[|rows| - 1].hb <= log[|log| - 1].bucket
  {
    hide AddToRows;
    var n := |log| - 1;
    if n > 0 {
      HourlySnoc(log[..n]);
      assert log[n - 1].bucket <= log[n].bucket;
    } else {
      NoReadingsNoRows(log[..n]);
    }
  }

  lemma NoReadingsNoRows(log: seq<Reading>)
    requires log == []
    ensures Hourly(log) == [] && IsBucketMaximum(Hourly(log), log)
  {
  }

  /** The sum of a run of deltas; a missing one contributes nothing. */
  function DeltaSum(rows: seq<HourRow>, modulus: int, upto: nat): int
    requires upto < |rows|
  {
    if upto == 0 then 0
    else DeltaSum(rows, modulus, upto - 1) + (match Delta(rows, upto, modulus) case Some(d) => d case None => 0)
  }

  /**
   * Whatever the buckets and however often the counter wraps inside one: if consecutive peaks rise by
   * less than half the field, every delta is present and exact, and the deltas add up to the true
   * rise from the first peak to the last.
   */
  lemma {:induction false} DeltasAreTheTrueRise(log: seq<Reading>, modulus: int, upto: nat)
    requires modulus > 0 && Odometer(log, modulus) && upto < |Peaks(log)|
    requires forall i :: 0 < i <= upto ==> 2 * (Peaks(log)[i] - Peaks(log)[i - 1]) < modulus
    ensures forall i :: 0 < i <= upto ==> Delta(Hourly(log), i, modulus) == Some(Peaks(log)[i] as int - Peaks(log)[i - 1])
    ensures DeltaSum(Hourly(log), modulus, upto) == Peaks(log)[upto] as int - Peaks(log)[0]
  {
    hide Hourly, Peaks, Odometer;
    PeaksBehindMaxima(log, modulus);
    BackedDeltas(Hourly(log), Peaks(log), if log == [] then 0 else log[|log| - 1].odo, modulus, upto);
  }

  lemma BackedPair(rows: seq<HourRow>, peaks: seq<nat>, last: nat, modulus: int, i: nat)
    requires modulus > 0 && Backed(rows, peaks, last, modulus) && 0 < i < |peaks|
    ensures |rows| == |peaks| && peaks[i - 1] <= peaks[i]
    ensures rows[i - 1].cmax == Shown(peaks[i - 1], modulus) && rows[i].cmax == Shown(peaks[i], modulus)
  {
    hide Shown;
  }

  lemma {:induction false} BackedDeltas(rows: seq<HourRow>, peaks: seq<nat>, last: nat, modulus: int, upto: nat)
    requires modulus > 0 && Backed(rows, peaks, last, modulus) && upto < |peaks|
    requires forall i :: 0 < i <= upto ==> 2 * (peaks[i] - peaks[i - 1]) < modulus
    ensures forall i :: 0 < i <= upto ==> Delta(rows, i, modulus) == Some(peaks[i] as int - peaks[i - 1])
    ensures DeltaSum(rows, modulus, upto) == peaks[upto] as int - peaks[0]
  {
    hide RolloverDelta, Shown, Backed;
    if upto > 0 {
      BackedPair(rows, peaks, last, modulus, upto);
      BackedDeltas(rows, peaks, last, modulus, upto - 1);
      DeltaExactIff(peaks[upto - 1], peaks[upto], modulus);
      assert Delta(rows, upto, modulus) == Some(peaks[upto] as int - peaks[upto - 1]);
    }
  }

  /** The half-range margin is needed: a 24-bit counter, or a 32-bit one, that runs past it in one bucket loses the step. */
  lemma FastMeterLosesItsStep(other: string)
    requires other != "SCM"
    ensures RolloverDelta(0x90_0000 % 0x100_0000 - 0, Modulus("SCM")) == Some(0x90_0000)
    ensures RolloverDelta((0xF0_0000 + 0x90_0000) % 0x100_0000 - 0xF0_0000, Modulus("SCM")) == None
    ensures RolloverDelta((0xF000_0000 + 0x9000_0000) % 0x1_0000_0000 - 0xF000_0000, Modulus(other)) == None
    ensures RolloverDelta((0xF000_0000 + 0x7FFF_FFFF) % 0x1_0000_0000 - 0xF000_0000, Modulus(other)) == Some(0x7FFF_FFFF)
  {
  }
}
