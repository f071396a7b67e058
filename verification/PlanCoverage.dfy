/**
 * What a whole HVAC backfill achieves: after every planned range has been fetched, expanded and written, no
 * hole is left in any of them, and every minute carries a value.
 */
module PlanCoverage {
  import opened Common
  import opened HvacHistory
  import opened Backfill
  import Keepalive

  /** Ranges in the order of time; a range may reach less than a minute into a later one. */
  ghost predicate Successive(ranges: seq<Range>) {
    forall i, j :: 0 <= i < j < |ranges| ==> ranges[i].hi < ranges[j].lo + 60
  }

  function RangesOf(plan: seq<Fetched>): (ranges: seq<Range>)
    ensures |ranges| == |plan| && forall i :: 0 <= i < |plan| ==> ranges[i] == plan[i].r
  {
    seq(|plan|, i requires 0 <= i < |plan| => plan[i].r)
  }

  /** Every range's history is in order and has an action in force throughout the range. */
  ghost predicate AllActive(plan: seq<Fetched>) {
    forall i :: 0 <= i < |plan| ==>
      AscendingEvents(plan[i].events) && ActiveThroughout(plan[i].events, plan[i].r.lo, plan[i].r.hi)
  }

  // ---- the plan's ranges -----------------------------------------------------------------------------

  /** In order, and from `lo` to `hi` as a whole. */
  ghost predicate Ordered(ranges: seq<Range>, lo: int, hi: int) {
    (forall i :: 0 <= i < |ranges| ==> lo <= ranges[i].lo <= ranges[i].hi <= hi) &&
    forall i, j :: 0 <= i < j < |ranges| ==> ranges[i].hi <= ranges[j].lo
  }

  lemma OrderedSnoc(ranges: seq<Range>, lo: int, hi: int, r: Range, end: int)
    requires Ordered(ranges, lo, hi) && lo <= hi <= r.lo <= r.hi <= end
    ensures Ordered(ranges + [r], lo, end)
  {
  }

  lemma OrderedWithin(ranges: seq<Range>, lo: int, hi: int, end: int)
    requires Ordered(ranges, lo, hi) && hi <= end
    ensures Ordered(ranges, lo, end)
  {
  }

  lemma {:induction false} HolesOrdered(mins: seq<int>, minGap: int, lo: int)
    requires minGap >= 0 && mins != [] && lo <= mins[0]
    requires forall i, j :: 0 <= i < j < |mins| ==> mins[i] < mins[j]
    ensures Ordered(Holes(mins, minGap), lo, mins[|mins| - 1])
  {
    var n := |mins| - 1;
    if n > 0 {
      hide Ordered;
      HolesOrdered(mins[..n], minGap, lo);
      if mins[n] - mins[n - 1] > minGap {
        OrderedSnoc(Holes(mins[..n], minGap), lo, mins[n - 1], Range(mins[n - 1], mins[n]), mins[n]);
      } else {
        OrderedWithin(Holes(mins[..n], minGap), lo, mins[n - 1], mins[n]);
        assert Holes(mins, minGap) == Holes(mins[..n], minGap);
      }
    }
  }

  /** Each clamped range is one of the gaps, cut short at most. */
  lemma {:induction false} ClampedKeepsOrder(gaps: seq<Range>, capEnd: int, lo: int, hi: int)
    requires Ordered(gaps, lo, hi)
    ensures Ordered(Clamped(gaps, capEnd), lo, hi)
    ensures gaps != [] ==> Ordered(Clamped(gaps, capEnd), lo, gaps[|gaps| - 1].hi)
  {
    if gaps != [] {
      var n := |gaps| - 1;
      var g := gaps[n];
      assert Ordered(gaps[..n], lo, g.lo) by { FrontOrdered(gaps, lo, hi); }
      hide Ordered;
      ClampedKeepsOrder(gaps[..n], capEnd, lo, g.lo);
      if g.lo < Min(g.hi, capEnd) {
        LastBounds(gaps, lo, hi);
        OrderedSnoc(Clamped(gaps[..n], capEnd), lo, g.lo, Range(g.lo, Min(g.hi, capEnd)), g.hi);
      } else {
        LastBounds(gaps, lo, hi);
        OrderedWithin(Clamped(gaps[..n], capEnd), lo, g.lo, g.hi);
        assert Clamped(gaps, capEnd) == Clamped(gaps[..n], capEnd);
      }
      OrderedWithin(Clamped(gaps, capEnd), lo, g.hi, hi);
    }
  }

  lemma FrontOrdered(ranges: seq<Range>, lo: int, hi: int)
    requires ranges != [] && Ordered(ranges, lo, hi)
    ensures Ordered(ranges[..|ranges| - 1], lo, ranges[|ranges| - 1].lo)
  {
  }

  lemma LastBounds(ranges: seq<Range>, lo: int, hi: int)
    requires ranges != [] && Ordered(ranges, lo, hi)
    ensures var r := ranges[|ranges| - 1]; lo <= r.lo <= r.hi <= hi
  {
  }

  lemma LeadingFirst(first: int, ranges: seq<Range>, lookStart: int, hi: int)
    requires Ordered(ranges, Keepalive.Minute(first), hi)
    ensures Successive(ranges) && Successive([Range(lookStart, first)] + ranges)
  {
    var all := [Range(lookStart, first)] + ranges;
    forall i, j | 0 <= i < j < |all| ensures all[i].hi < all[j].lo + 60 {
      assert all[j] == ranges[j - 1];
      assert i > 0 ==> all[i] == ranges[i - 1];
    }
  }

  /** The gaps sampleGaps finds: the holes between sampled minutes, and the trailing one. */
  function GapsOf(mins: seq<int>, last: int, minGap: int, capEnd: int): seq<Range> {
    Holes(mins, minGap) + if capEnd - last > minGap then [Range(last, capEnd)] else []
  }

  /** What is planned from the gaps found is a succession of ranges, the leading one and the trailing one included. */
  lemma PlanIsSuccessive(first: int, last: int, mins: seq<int>, lookStart: int, minGap: int, capEnd: int)
    requires minGap >= 0 && first <= last
    requires forall i, j :: 0 <= i < j < |mins| ==> mins[i] < mins[j]
    requires forall i :: 0 <= i < |mins| ==> Keepalive.Minute(first) <= mins[i] <= last
    ensures Successive(Plan(first, GapsOf(mins, last, minGap, capEnd), lookStart, minGap, capEnd))
  {
    hide Ordered, Clamped, Successive;
    var lo, gaps := Keepalive.Minute(first), GapsOf(mins, last, minGap, capEnd);
    var holes := Holes(mins, minGap);
    if mins == [] {
      NothingOrdered(holes, lo, last);
    } else {
      HolesOrdered(mins, minGap, lo);
      OrderedWithin(holes, lo, mins[|mins| - 1], last);
    }
    var hi := if capEnd - last > minGap then capEnd else last;
    if capEnd - last > minGap {
      OrderedSnoc(holes, lo, last, Range(last, capEnd), capEnd);
    } else {
      assert gaps == holes;
    }
    ClampedKeepsOrder(gaps, capEnd, lo, hi);
    LeadingFirst(first, Clamped(gaps, capEnd), lookStart, hi);
    assert [] + Clamped(gaps, capEnd) == Clamped(gaps, capEnd);
  }

  lemma NothingOrdered(ranges: seq<Range>, lo: int, hi: int)
    requires ranges == []
    ensures Ordered(ranges, lo, hi)
  {
  }

  // ---- what is written stays -------------------------------------------------------------------------

  lemma FilledNext(rows: seq<Row>, entity: string, plan: seq<Fetched>, k: nat)
    requires k < |plan|
    ensures FilledAll(rows, entity, plan[..k + 1]) ==
      Filled(FilledAll(rows, entity, plan[..k]), entity, plan[k].events, plan[k].r)
  {
    assert plan[..k + 1][..k] == plan[..k];
  }

  /** A row one range may not replace stays through its backfill. */
  lemma StaysThrough(rows: seq<Row>, entity: string, f: Fetched, row: Row)
    requires row in rows && !Replaceable(row, entity, f.r.lo, f.r.hi)
    ensures row in Filled(rows, entity, f.events, f.r)
  {
    hide Kept, Derived, Expand;
    KeptMembers(rows, entity, f.r.lo, f.r.hi, row);
  }

  /** A row no later range may replace is still there at the end. */
  lemma {:induction false} SurvivesLater(rows: seq<Row>, entity: string, plan: seq<Fetched>, n: nat, row: Row)
    requires n <= |plan| && row in FilledAll(rows, entity, plan[..n])
    requires forall j :: n <= j < |plan| ==> !Replaceable(row, entity, plan[j].r.lo, plan[j].r.hi)
    ensures row in FilledAll(rows, entity, plan)
    decreases |plan| - n
  {
    hide Replaceable, Filled, FilledAll;
    if n == |plan| {
      assert plan[..n] == plan;
    } else {
      StaysThrough(FilledAll(rows, entity, plan[..n]), entity, plan[n], row);
      FilledNext(rows, entity, plan, n);
      SurvivesLater(rows, entity, plan, n + 1, row);
    }
  }

  /** Wherever a planned range goes on for another minute, a sample at most five minutes old is there in the end. */
  lemma PlannedSample(rows: seq<Row>, entity: string, plan: seq<Fetched>, k: nat, t: int) returns (row: Row)
    requires AllActive(plan) && Successive(RangesOf(plan)) && k < |plan|
    requires plan[k].r.lo + 300 <= t <= plan[k].r.hi - 60
    ensures row in FilledAll(rows, entity, plan) && row.entity == entity && t - 300 < row.ts <= t
  {
    hide Filled, FilledAll, Expand;
    var f := plan[k];
    var p := NoStretchWithoutPoint(f.events, f.r.lo, f.r.hi, BACKFILL_STEP, t);
    row := Row(entity, p.ts, p.action, false);
    PointIsFilled(FilledAll(rows, entity, plan[..k]), entity, f.events, f.r, p);
    FilledNext(rows, entity, plan, k);
    forall j | k + 1 <= j < |plan| ensures !Replaceable(row, entity, plan[j].r.lo, plan[j].r.hi) {
      assert RangesOf(plan)[k].hi < RangesOf(plan)[j].lo + 60;
    }
    SurvivesLater(rows, entity, plan, k + 1, row);
  }

  // ---- no hole in the end ----------------------------------------------------------------------------

  lemma RowHasMinute(rows: seq<Row>, entity: string, since: int, row: Row)
    requires row in rows && row.entity == entity && row.ts >= since
    ensures HasMinute(rows, {entity}, since, Keepalive.Minute(row.ts))
  {
  }

  /**
   * After the whole plan, with an action in force throughout every range: no gap between neighbouring sampled
   * minutes takes up seven minutes of any planned range, so sampleGaps finds no hole within one again.
   */
  lemma NoHoleLeftInPlan(rows: seq<Row>, entity: string, plan: seq<Fetched>, since: int, mins: seq<int>, k: nat, i: nat)
    requires AllActive(plan) && Successive(RangesOf(plan)) && k < |plan|
    requires IsMinuteList(mins, FilledAll(rows, entity, plan), {entity}, since) && 0 < i < |mins|
    ensures var r := plan[k].r;
      Min(mins[i], r.hi) - Max(mins[i - 1], r.lo) < 420 &&
      (r.lo <= mins[i - 1] && mins[i] <= r.hi ==> Range(mins[i - 1], mins[i]) !in Holes(mins, 1800))
  {
    hide FilledAll, AllActive, Successive;
    var all, r := FilledAll(rows, entity, plan), plan[k].r;
    var x := Max(mins[i - 1], r.lo);
    assert mins[i - 1] in mins;
    var before := SampledSince(all, {entity}, since, mins[i - 1]);
    if Min(mins[i], r.hi) - x >= BACKFILL_STEP + 120 {
      var row := PlannedSample(rows, entity, plan, k, x + BACKFILL_STEP + 60);
      RowHasMinute(all, entity, since, row);
      NothingBetween(mins, i, Keepalive.Minute(row.ts));
      assert false;
    }
    SameHole(mins, i);
  }

  // ---- every minute has a value ----------------------------------------------------------------------

  /** The entity's rows as power samples, whatever an action is worth. */
  function SamplesOf(rows: seq<Row>, entity: string, watts: string -> real): seq<Keepalive.Sample> {
    if rows == [] then []
    else
      var n := |rows| - 1;
      SamplesOf(rows[..n], entity, watts) +
      if rows[n].entity == entity then [Keepalive.Sample(rows[n].ts, watts(rows[n].value))] else []
  }

  lemma {:induction false} SampleOfRow(rows: seq<Row>, entity: string, watts: string -> real, row: Row) returns (i: nat)
    requires row in rows && row.entity == entity
    ensures i < |SamplesOf(rows, entity, watts)| && SamplesOf(rows, entity, watts)[i].ts == row.ts
  {
    var n := |rows| - 1;
    if rows[n] == row {
      i := |SamplesOf(rows[..n], entity, watts)|;
    } else {
      assert rows == rows[..n] + [rows[n]];
      i := SampleOfRow(rows[..n], entity, watts, row);
    }
  }

  /** The expansion's density and the carry together: from five minutes into a planned range to its end no minute is NULL. */
  lemma BackfilledMinutesAreCarried(rows: seq<Row>, entity: string, plan: seq<Fetched>, k: nat, watts: string -> real, mt: int)
    requires AllActive(plan) && Successive(RangesOf(plan)) && k < |plan| && mt % 60 == 0
    requires plan[k].r.lo + 300 <= plan[k].r.hi - 60 && plan[k].r.lo + 300 <= mt <= plan[k].r.hi
    ensures Keepalive.Carried(SamplesOf(FilledAll(rows, entity, plan), entity, watts), mt).Some?
  {
    hide FilledAll, AllActive, Successive, SamplesOf, Keepalive.Source, Keepalive.MinuteAvg;
    var all := FilledAll(rows, entity, plan);
    var stored := SamplesOf(all, entity, watts);
    var row := PlannedSample(rows, entity, plan, k, Min(mt, plan[k].r.hi - 60));
    var i := SampleOfRow(all, entity, watts, row);
    Keepalive.SourceIsLatest(stored, mt);
    assert Keepalive.Minute(stored[i].ts) <= mt;
  }

  /** All of it for what the worker plans from the gaps it finds. */
  lemma RepairedPlan(rows: seq<Row>, entity: string, plan: seq<Fetched>, first: int, last: int, found: seq<int>, lookStart: int,
                     capEnd: int, since: int, mins: seq<int>, k: nat, i: nat)
    requires first <= last && (forall i, j :: 0 <= i < j < |found| ==> found[i] < found[j])
    requires forall i :: 0 <= i < |found| ==> Keepalive.Minute(first) <= found[i] <= last
    requires RangesOf(plan) == Plan(first, GapsOf(found, last, 1800, capEnd), lookStart, 1800, capEnd)
    requires AllActive(plan) && k < |plan|
    requires IsMinuteList(mins, FilledAll(rows, entity, plan), {entity}, since) && 0 < i < |mins|
    ensures plan[k].r.lo <= mins[i - 1] && mins[i] <= plan[k].r.hi ==>
      Range(mins[i - 1], mins[i]) !in Holes(mins, 1800)
  {
    hide Plan, FilledAll, AllActive, Successive, IsMinuteList;
    PlanIsSuccessive(first, last, found, lookStart, BACKFILL_MIN_GAP, capEnd);
    NoHoleLeftInPlan(rows, entity, plan, since, mins, k, i);
  }
}
