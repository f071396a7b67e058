/** The sample tables: finding holes, replacing backfilled spans, and the HVAC backfill as a whole. */
module Backfill {
  import opened Common
  import opened HvacHistory
  import Keepalive

  /** One stored sample. Rows the feed delivered are `live`; the others were derived and may be replaced. */
  datatype Row = Row(entity: string, ts: int, value: string, live: bool)

  /** What a replacement of [from, to] deletes first. */
  predicate Replaceable(r: Row, entity: string, from: int, to: int) {
    r.entity == entity && !r.live && from <= r.ts <= to
  }

  function Kept(rows: seq<Row>, entity: string, from: int, to: int): seq<Row> {
    if rows == [] then []
    else
      Kept(rows[..|rows| - 1], entity, from, to)
      + (if Replaceable(rows[|rows| - 1], entity, from, to) then [] else [rows[|rows| - 1]])
  }

  function Derived(entity: string, points: seq<Point>): seq<Row> {
    seq(|points|, i requires 0 <= i < |points| => Row(entity, points[i].ts, points[i].action, false))
  }

  function Replaced(rows: seq<Row>, entity: string, from: int, to: int, points: seq<Point>): seq<Row> {
    Kept(rows, entity, from, to) + Derived(entity, points)
  }

  class SampleTable {
    var rows: seq<Row>

    constructor ()
      ensures rows == []
    {
      rows := [];
    }

    method InsertLive(entity: string, ts: int, value: string)
      modifies this
      ensures rows == old(rows) + [Row(entity, ts, value, true)]
    {
      rows := rows + [Row(entity, ts, value, true)];
    }

    /** Delete, then insert; the two statements fail separately, and a failed insert leaves the span emptied. */
    method ReplaceBackfill(entity: string, from: int, to: int, points: seq<Point>, deleteOk: bool, insertOk: bool)
      returns (ok: bool)
      modifies this
      ensures ok <==> deleteOk && (points == [] || insertOk)
      ensures rows == if !deleteOk then old(rows)
                      else if ok then Replaced(old(rows), entity, from, to, points)
                      else Kept(old(rows), entity, from, to)
    {
      if !deleteOk {
        return false;
      }
      var kept: seq<Row> := [];
      for i := 0 to |rows|
        invariant kept == Kept(rows[..i], entity, from, to)
      {
        assert rows[..i + 1][..i] == rows[..i];
        if !(rows[i].entity == entity && !rows[i].live && rows[i].ts >= from && rows[i].ts <= to) {
          kept := kept + [rows[i]];
        }
      }
      assert rows[..|rows|] == rows;
      rows := kept;
      if |points| == 0 {
        assert Derived(entity, points) == [];
        return true;
      }
      if !insertOk {
        return false;
      }
      rows := rows + Derived(entity, points);
      return true;
    }
  }

  // ---- replacing twice ----------------------------------------------------------------------------

  lemma {:induction false} KeptOfConcat(a: seq<Row>, b: seq<Row>, entity: string, from: int, to: int)
    ensures Kept(a + b, entity, from, to) == Kept(a, entity, from, to) + Kept(b, entity, from, to)
  {
    if b == [] {
      assert a + b == a;
    } else {
      assert (a + b)[..|a + b| - 1] == a + b[..|b| - 1];
      KeptOfConcat(a, b[..|b| - 1], entity, from, to);
    }
  }

  lemma {:induction false} KeptTwice(rows: seq<Row>, entity: string, from: int, to: int)
    ensures Kept(Kept(rows, entity, from, to), entity, from, to) == Kept(rows, entity, from, to)
  {
    if rows != [] {
      var before, r := rows[..|rows| - 1], rows[|rows| - 1];
      KeptTwice(before, entity, from, to);
      KeptOfConcat(Kept(before, entity, from, to), if Replaceable(r, entity, from, to) then [] else [r], entity, from, to);
      assert [r][..0] == [];
    }
  }

  lemma {:induction false} AllReplaceable(rows: seq<Row>, entity: string, from: int, to: int)
    requires forall i :: 0 <= i < |rows| ==> Replaceable(rows[i], entity, from, to)
    ensures Kept(rows, entity, from, to) == []
  {
    if rows != [] {
      AllReplaceable(rows[..|rows| - 1], entity, from, to);
    }
  }

  /** A second identical run leaves the table as it is. */
  lemma ReplaceIsIdempotent(rows: seq<Row>, entity: string, from: int, to: int, points: seq<Point>)
    requires forall p :: p in points ==> from <= p.ts <= to
    ensures Replaced(Replaced(rows, entity, from, to, points), entity, from, to, points)
            == Replaced(rows, entity, from, to, points)
  {
    hide Kept, Derived, Replaceable;
    DerivedIsReplaceable(entity, from, to, points);
    KeptOfConcat(Kept(rows, entity, from, to), Derived(entity, points), entity, from, to);
    KeptTwice(rows, entity, from, to);
    AllReplaceable(Derived(entity, points), entity, from, to);
    assert Kept(rows, entity, from, to) + [] == Kept(rows, entity, from, to);
  }

  lemma DerivedIsReplaceable(entity: string, from: int, to: int, points: seq<Point>)
    requires forall p :: p in points ==> from <= p.ts <= to
    ensures var rows := Derived(entity, points);
      forall i :: 0 <= i < |rows| ==> Replaceable(rows[i], entity, from, to)
  {
    forall i | 0 <= i < |points| ensures from <= points[i].ts <= to {
      assert points[i] in points;
    }
  }

  lemma {:induction false} KeptCounts(rows: seq<Row>, entity: string, from: int, to: int, r: Row)
    ensures multiset(Kept(rows, entity, from, to))[r]
            == if Replaceable(r, entity, from, to) then 0 else multiset(rows)[r]
  {
    if rows != [] {
      KeptCounts(rows[..|rows| - 1], entity, from, to, r);
      assert rows == rows[..|rows| - 1] + [rows[|rows| - 1]];
    }
  }

  /** Live rows, other entities' rows and rows outside the span keep their exact multiplicity. */
  lemma ReplaceTouchesNothingElse(rows: seq<Row>, entity: string, from: int, to: int, points: seq<Point>, r: Row)
    requires forall p :: p in points ==> from <= p.ts <= to
    requires r.live || r.entity != entity || r.ts < from || r.ts > to
    ensures multiset(Replaced(rows, entity, from, to, points))[r] == multiset(rows)[r]
  {
    KeptCounts(rows, entity, from, to, r);
    assert r !in Derived(entity, points);
  }

  // ---- holes --------------------------------------------------------------------------------------

  /** The distinct minute buckets with a sample since `since`, ascending: the `mins` CTE. */
  ghost predicate IsMinuteList(mins: seq<int>, rows: seq<Row>, entities: set<string>, since: int) {
    && (forall i, j :: 0 <= i < j < |mins| ==> mins[i] < mins[j])
    && (forall m :: m in mins <==> HasMinute(rows, entities, since, m))
  }

  ghost predicate HasMinute(rows: seq<Row>, entities: set<string>, since: int, m: int) {
    exists r :: r in rows && r.entity in entities && r.ts >= since && Keepalive.Minute(r.ts) == m
  }

  function Holes(mins: seq<int>, minGap: int): seq<Range> {
    if |mins| < 2 then []
    else
      Holes(mins[..|mins| - 1], minGap)
      + (if mins[|mins| - 1] - mins[|mins| - 2] > minGap then [Range(mins[|mins| - 2], mins[|mins| - 1])] else [])
  }

  predicate HoleAt(mins: seq<int>, minGap: int, g: Range, i: nat)
    requires 0 < i < |mins|
  {
    mins[i] - mins[i - 1] > minGap && g == Range(mins[i - 1], mins[i])
  }

  /** A range is reported exactly when its ends are neighbouring sampled minutes more than minGap apart. */
  lemma {:induction false} HolesIff(mins: seq<int>, minGap: int, g: Range)
    ensures g in Holes(mins, minGap)
            <==> exists i :: 0 < i < |mins| && HoleAt(mins, minGap, g, i)
  {
    if |mins| >= 2 {
      var n := |mins| - 1;
      HolesIff(mins[..n], minGap, g);
      forall i | 0 < i < n ensures HoleAt(mins, minGap, g, i) <==> HoleAt(mins[..n], minGap, g, i) {
      }
      var newest := if mins[n] - mins[n - 1] > minGap then [Range(mins[n - 1], mins[n])] else [];
      assert Holes(mins, minGap) == Holes(mins[..n], minGap) + newest;
      assert g in newest <==> HoleAt(mins, minGap, g, n);
    }
  }

  /** `sampleGaps`: the interior holes, then the trailing one from the newest sample to capEnd. */
  method SampleGaps(mins: seq<int>, last: Option<int>, minGap: int, capEnd: int) returns (out: seq<Range>)
    ensures out == Holes(mins, minGap)
                   + (if last.Some? && capEnd - last.value > minGap then [Range(last.value, capEnd)] else [])
  {
    out := [];
    var prev: Option<int> := None;
    for i := 0 to |mins|
      invariant out == Holes(mins[..i], minGap)
      invariant prev == if i == 0 then None else Some(mins[i - 1])
    {
      assert mins[..i + 1][..i] == mins[..i];
      var mt := mins[i];
      if prev.Some? && mt - prev.value > minGap {
        out := out + [Range(prev.value, mt)];
      }
      prev := Some(mt);
    }
    assert mins[..|mins|] == mins;
    if last.Some? && capEnd - last.value > minGap {
      out := out + [Range(last.value, capEnd)];
    }
  }

  // ---- the HVAC backfill of one range --------------------------------------------------------------

  const BACKFILL_STEP: int := 300
  const BACKFILL_MIN_GAP: int := 1800

  /** The table after the fetched history of one planned range has been expanded and written. */
  function Filled(rows: seq<Row>, entity: string, events: seq<StateEvent>, r: Range): seq<Row> {
    Replaced(rows, entity, r.lo, r.hi, Expand(events, |events|, r.lo, r.hi, BACKFILL_STEP))
  }

  /** Fetching one range's history and writing it; a failing delete changes nothing, a failing insert leaves the span emptied. */
  method BackfillRange(table: SampleTable, entity: string, events: seq<StateEvent>, r: Range, deleteOk: bool, insertOk: bool)
    modifies table
    ensures table.rows ==
      if !deleteOk then old(table.rows)
      else if insertOk || Expand(events, |events|, r.lo, r.hi, BACKFILL_STEP) == [] then Filled(old(table.rows), entity, events, r)
      else Kept(old(table.rows), entity, r.lo, r.hi)
  {
    var points := ExpandHvacHistory(events, r.lo, r.hi, BACKFILL_STEP);
    var ok := table.ReplaceBackfill(entity, r.lo, r.hi, points, deleteOk, insertOk);
  }

  /**
   * The derived rows in a range after its backfill: exactly those that some event of its history prescribes, with that
   * event's action and a multiple of five minutes (300 s) after it.
   */
  lemma FilledRowsAre(rows: seq<Row>, entity: string, events: seq<StateEvent>, r: Range, p: Point)
    requires AscendingEvents(events) && r.lo <= p.ts <= r.hi
    ensures Row(entity, p.ts, p.action, false) in Filled(rows, entity, events, r) <==>
      exists i :: 0 <= i < |events| && Prescribed(events, i, r.lo, r.hi, 300, p)
  {
    hide Expand, Prescribed;
    var row, points := Row(entity, p.ts, p.action, false), Expand(events, |events|, r.lo, r.hi, BACKFILL_STEP);
    ExpandMembers(events, |events|, r.lo, r.hi, 300, p);
    KeptCounts(rows, entity, r.lo, r.hi, row);
    assert row in Kept(rows, entity, r.lo, r.hi) <==> multiset(Kept(rows, entity, r.lo, r.hi))[row] > 0;
    if p in points {
      PointIsFilled(rows, entity, events, r, p);
    }
    if row in Derived(entity, points) {
      var i :| 0 <= i < |points| && Derived(entity, points)[i] == row;
      assert points[i] == p;
    }
  }

  lemma ExpansionInside(events: seq<StateEvent>, r: Range)
    requires AscendingEvents(events)
    ensures forall p :: p in Expand(events, |events|, r.lo, r.hi, BACKFILL_STEP) ==> r.lo <= p.ts <= r.hi
  {
    ExpansionIsTheHistory(events, r.lo, r.hi, BACKFILL_STEP);
  }

  /** Running the backfill of a range twice is running it once, and only the entity's derived rows in the range move. */
  lemma BackfillIsIdempotent(rows: seq<Row>, entity: string, events: seq<StateEvent>, r: Range, other: Row)
    requires AscendingEvents(events)
    ensures Filled(Filled(rows, entity, events, r), entity, events, r) == Filled(rows, entity, events, r)
    ensures other.live || other.entity != entity || other.ts < r.lo || other.ts > r.hi
            ==> multiset(Filled(rows, entity, events, r))[other] == multiset(rows)[other]
  {
    var points := Expand(events, |events|, r.lo, r.hi, BACKFILL_STEP);
    ExpansionInside(events, r);
    ReplaceIsIdempotent(rows, entity, r.lo, r.hi, points);
    if other.live || other.entity != entity || other.ts < r.lo || other.ts > r.hi {
      ReplaceTouchesNothingElse(rows, entity, r.lo, r.hi, points, other);
    }
  }

  // ---- a whole plan --------------------------------------------------------------------------------

  /** One planned range with the history fetched for it. */
  datatype Fetched = Fetched(events: seq<StateEvent>, r: Range)

  /** The table after the first n ranges of a plan, one after the other. */
  function FilledAll(rows: seq<Row>, entity: string, plan: seq<Fetched>): seq<Row> {
    if plan == [] then rows
    else
      var f := plan[|plan| - 1];
      Filled(FilledAll(rows, entity, plan[..|plan| - 1]), entity, f.events, f.r)
  }

  /** What the whole plan deletes is taken out of the rows it starts from. */
  function KeptAll(rows: seq<Row>, entity: string, plan: seq<Fetched>): seq<Row> {
    if plan == [] then rows
    else
      var f := plan[|plan| - 1];
      Kept(KeptAll(rows, entity, plan[..|plan| - 1]), entity, f.r.lo, f.r.hi)
  }

  ghost predicate AscendingHistories(plan: seq<Fetched>) {
    forall i :: 0 <= i < |plan| ==> AscendingEvents(plan[i].events)
  }

  predicate InPlan(r: Row, entity: string, plan: seq<Fetched>) {
    exists i | 0 <= i < |plan| :: Replaceable(r, entity, plan[i].r.lo, plan[i].r.hi)
  }

  lemma {:induction false} KeptAllOfConcat(a: seq<Row>, b: seq<Row>, entity: string, plan: seq<Fetched>)
    ensures KeptAll(a + b, entity, plan) == KeptAll(a, entity, plan) + KeptAll(b, entity, plan)
  {
    if plan != [] {
      var n := |plan| - 1;
      KeptAllOfConcat(a, b, entity, plan[..n]);
      KeptOfConcat(KeptAll(a, entity, plan[..n]), KeptAll(b, entity, plan[..n]), entity, plan[n].r.lo, plan[n].r.hi);
    }
  }

  /** What is written does not depend on the rows that were there. */
  lemma {:induction false} FillingIsKeepingPlusWriting(rows: seq<Row>, entity: string, plan: seq<Fetched>)
    ensures FilledAll(rows, entity, plan) == KeptAll(rows, entity, plan) + FilledAll([], entity, plan)
  {
    if plan != [] {
      hide Kept, Derived, Expand;
      var n := |plan| - 1;
      FillingIsKeepingPlusWriting(rows, entity, plan[..n]);
      KeptOfConcat(KeptAll(rows, entity, plan[..n]), FilledAll([], entity, plan[..n]), entity, plan[n].r.lo, plan[n].r.hi);
    }
  }

  /** Keeping drops exactly the rows some range of the plan may replace. */
  lemma {:induction false} KeptMembers(rows: seq<Row>, entity: string, from: int, to: int, r: Row)
    ensures r in Kept(rows, entity, from, to) <==> r in rows && !Replaceable(r, entity, from, to)
  {
    if rows != [] {
      KeptMembers(rows[..|rows| - 1], entity, from, to, r);
      assert rows == rows[..|rows| - 1] + [rows[|rows| - 1]];
    }
  }

  lemma {:induction false} KeptAllMembers(rows: seq<Row>, entity: string, plan: seq<Fetched>, r: Row)
    ensures r in KeptAll(rows, entity, plan) <==> r in rows && !InPlan(r, entity, plan)
  {
    hide Kept;
    if plan != [] {
      var n := |plan| - 1;
      KeptAllMembers(rows, entity, plan[..n], r);
      KeptMembers(KeptAll(rows, entity, plan[..n]), entity, plan[n].r.lo, plan[n].r.hi, r);
      InPlanSnoc(r, entity, plan);
    }
  }

  lemma InPlanSnoc(r: Row, entity: string, plan: seq<Fetched>)
    requires plan != []
    ensures var n := |plan| - 1;
      InPlan(r, entity, plan) <==> InPlan(r, entity, plan[..n]) || Replaceable(r, entity, plan[n].r.lo, plan[n].r.hi)
  {
    var n := |plan| - 1;
    if i :| 0 <= i < n && Replaceable(r, entity, plan[i].r.lo, plan[i].r.hi) {
      assert plan[..n][i] == plan[i];
    }
  }

  lemma {:induction false} NothingToDrop(rows: seq<Row>, entity: string, from: int, to: int)
    requires forall i :: 0 <= i < |rows| ==> !Replaceable(rows[i], entity, from, to)
    ensures Kept(rows, entity, from, to) == rows
  {
    hide Replaceable;
    if rows != [] {
      hide Kept;
      var n := |rows| - 1;
      NothingToDrop(rows[..n], entity, from, to);
      KeptLast(rows, entity, from, to);
      assert rows == rows[..n] + [rows[n]];
    }
  }

  lemma KeptLast(rows: seq<Row>, entity: string, from: int, to: int)
    requires rows != []
    ensures var n := |rows| - 1;
      Kept(rows, entity, from, to) ==
        Kept(rows[..n], entity, from, to) + if Replaceable(rows[n], entity, from, to) then [] else [rows[n]]
  {
  }

  lemma {:induction false} NothingToDropAll(rows: seq<Row>, entity: string, plan: seq<Fetched>)
    requires forall r :: r in rows ==> !InPlan(r, entity, plan)
    ensures KeptAll(rows, entity, plan) == rows
  {
    if plan != [] {
      var n := |plan| - 1;
      hide InPlan, Replaceable, Kept;
      forall r | r in rows ensures !InPlan(r, entity, plan[..n]) && !Replaceable(r, entity, plan[n].r.lo, plan[n].r.hi) {
        InPlanSnoc(r, entity, plan);
      }
      NothingToDropAll(rows, entity, plan[..n]);
      NothingToDrop(rows, entity, plan[n].r.lo, plan[n].r.hi);
    }
  }

  /** Every row the plan writes is one the plan may replace. */
  lemma {:induction false} WrittenIsInPlan(entity: string, plan: seq<Fetched>, r: Row)
    requires AscendingHistories(plan) && r in FilledAll([], entity, plan)
    ensures InPlan(r, entity, plan)
  {
    var n := |plan| - 1;
    var f := plan[n];
    var before := FilledAll([], entity, plan[..n]);
    InPlanSnoc(r, entity, plan);
    if r in Kept(before, entity, f.r.lo, f.r.hi) {
      KeptMembers(before, entity, f.r.lo, f.r.hi, r);
      WrittenIsInPlan(entity, plan[..n], r);
    } else {
      assert r in Derived(entity, Expand(f.events, |f.events|, f.r.lo, f.r.hi, BACKFILL_STEP));
      ExpansionInside(f.events, f.r);
    }
  }

  lemma WrittenIsDropped(entity: string, plan: seq<Fetched>)
    requires AscendingHistories(plan)
    ensures KeptAll(FilledAll([], entity, plan), entity, plan) == []
  {
    hide FilledAll, KeptAll, InPlan, AscendingHistories;
    var written := FilledAll([], entity, plan);
    var left := KeptAll(written, entity, plan);
    FirstIsMember(left);
    if left != [] {
      KeptAllMembers(written, entity, plan, left[0]);
      WrittenIsInPlan(entity, plan, left[0]);
    }
  }

  lemma FirstIsMember(rows: seq<Row>)
    ensures rows != [] ==> rows[0] in rows
  {
  }

  lemma KeptAllTwice(rows: seq<Row>, entity: string, plan: seq<Fetched>)
    ensures KeptAll(KeptAll(rows, entity, plan), entity, plan) == KeptAll(rows, entity, plan)
  {
    hide KeptAll, InPlan;
    var kept := KeptAll(rows, entity, plan);
    forall r | r in kept ensures !InPlan(r, entity, plan) {
      KeptAllMembers(rows, entity, plan, r);
    }
    NothingToDropAll(kept, entity, plan);
  }

  /** Running a whole plan a second time leaves the table as it is, however its ranges touch or overlap. */
  lemma PlanIsIdempotent(rows: seq<Row>, entity: string, plan: seq<Fetched>)
    requires AscendingHistories(plan)
    ensures FilledAll(FilledAll(rows, entity, plan), entity, plan) == FilledAll(rows, entity, plan)
  {
    hide FilledAll, KeptAll, AscendingHistories;
    var kept, written := KeptAll(rows, entity, plan), FilledAll([], entity, plan);
    FillingIsKeepingPlusWriting(rows, entity, plan);
    FillingIsKeepingPlusWriting(kept + written, entity, plan);
    KeptAllOfConcat(kept, written, entity, plan);
    KeptAllTwice(rows, entity, plan);
    WrittenIsDropped(entity, plan);
  }

  /** Rows that are live, another entity's, or outside every range of the plan keep their exact multiplicity. */
  lemma PlanTouchesNothingElse(rows: seq<Row>, entity: string, plan: seq<Fetched>, other: Row)
    requires AscendingHistories(plan) && !InPlan(other, entity, plan)
    ensures multiset(FilledAll(rows, entity, plan))[other] == multiset(rows)[other]
  {
    hide FilledAll, KeptAll, AscendingHistories, InPlan;
    var written := FilledAll([], entity, plan);
    FillingIsKeepingPlusWriting(rows, entity, plan);
    KeptAllCounts(rows, entity, plan, other);
    if other in written {
      WrittenIsInPlan(entity, plan, other);
    }
  }

  lemma {:induction false} KeptAllCounts(rows: seq<Row>, entity: string, plan: seq<Fetched>, r: Row)
    requires !InPlan(r, entity, plan)
    ensures multiset(KeptAll(rows, entity, plan))[r] == multiset(rows)[r]
  {
    if plan != [] {
      var n := |plan| - 1;
      InPlanSnoc(r, entity, plan);
      KeptAllCounts(rows, entity, plan[..n], r);
      KeptCounts(KeptAll(rows, entity, plan[..n]), entity, plan[n].r.lo, plan[n].r.hi, r);
    }
  }

  // ---- no hole is left -----------------------------------------------------------------------------

  lemma FilledMinute(rows: seq<Row>, entity: string, events: seq<StateEvent>, r: Range, since: int, t: int) returns (m: int)
    requires AscendingEvents(events) && ActiveThroughout(events, r.lo, r.hi)
    requires r.lo + BACKFILL_STEP <= t <= r.hi && t - BACKFILL_STEP + 1 >= since
    ensures HasMinute(Filled(rows, entity, events, r), {entity}, since, m) && m % 60 == 0
    ensures t - BACKFILL_STEP - 60 < m <= t
  {
    hide Filled, Expand;
    var p := NoStretchWithoutPoint(events, r.lo, r.hi, BACKFILL_STEP, t);
    PointIsFilled(rows, entity, events, r, p);
    m := Keepalive.Minute(p.ts);
  }

  lemma PointIsFilled(rows: seq<Row>, entity: string, events: seq<StateEvent>, r: Range, p: Point)
    requires p in Expand(events, |events|, r.lo, r.hi, BACKFILL_STEP)
    ensures Row(entity, p.ts, p.action, false) in Filled(rows, entity, events, r)
  {
    hide Expand;
    var points := Expand(events, |events|, r.lo, r.hi, BACKFILL_STEP);
    var i :| 0 <= i < |points| && points[i] == p;
    assert Derived(entity, points)[i] == Row(entity, p.ts, p.action, false);
  }

  /**
   * If the history asserts an action throughout a planned range, then after its backfill every six-minute
   * stretch of the range holds a sampled minute.
   */
  lemma SampledEverySixMinutes(rows: seq<Row>, entity: string, events: seq<StateEvent>, r: Range, since: int, mins: seq<int>, x: int)
    returns (m: int)
    requires AscendingEvents(events) && ActiveThroughout(events, r.lo, r.hi)
    requires IsMinuteList(mins, Filled(rows, entity, events, r), {entity}, since)
    requires r.lo <= x && x + 360 <= r.hi && since - 60 <= x + 1
    ensures m in mins && x < m <= x + 360
  {
    hide Filled;
    m := FilledMinute(rows, entity, events, r, since, x + BACKFILL_STEP + 60);
  }

  /**
   * So no gap between neighbouring sampled minutes, wherever they lie, takes up more than six minutes of the
   * range: far less than the half hour that would make sampleGaps plan it again.
   */
  lemma NoHoleLeftInRange(rows: seq<Row>, entity: string, events: seq<StateEvent>, r: Range, since: int, mins: seq<int>, i: nat)
    requires AscendingEvents(events) && ActiveThroughout(events, r.lo, r.hi)
    requires IsMinuteList(mins, Filled(rows, entity, events, r), {entity}, since) && 0 < i < |mins|
    ensures Min(mins[i], r.hi) - Max(mins[i - 1], r.lo) <= 360
    ensures r.lo <= mins[i - 1] && mins[i] <= r.hi ==> Range(mins[i - 1], mins[i]) !in Holes(mins, 1800)
  {
    hide Filled;
    var x := Max(mins[i - 1], r.lo);
    assert mins[i - 1] in mins;
    var first := SampledSince(Filled(rows, entity, events, r), {entity}, since, mins[i - 1]);
    if Min(mins[i], r.hi) - x > BACKFILL_STEP + 60 {
      var m := SampledEverySixMinutes(rows, entity, events, r, since, mins, x);
      NothingBetween(mins, i, m);
      assert false;
    }
    SameHole(mins, i);
  }

  lemma SameHole(mins: seq<int>, i: nat)
    requires 0 < i < |mins| && forall a, b :: 0 <= a < b < |mins| ==> mins[a] < mins[b]
    ensures Range(mins[i - 1], mins[i]) in Holes(mins, BACKFILL_MIN_GAP) ==> mins[i] - mins[i - 1] > BACKFILL_MIN_GAP
  {
    HolesIff(mins, BACKFILL_MIN_GAP, Range(mins[i - 1], mins[i]));
  }

  /** Nor is a trailing hole left when the range ran up to the cap: the newest sample is then under five minutes before it. */
  lemma NoTrailingHole(rows: seq<Row>, entity: string, events: seq<StateEvent>, r: Range, last: int)
    requires AscendingEvents(events) && ActiveThroughout(events, r.lo, r.hi) && r.lo + 300 <= r.hi
    requires forall row :: row in Filled(rows, entity, events, r) && row.entity == entity ==> row.ts <= last
    ensures r.hi - last < 300
  {
    hide Filled, Expand;
    var p := NoStretchWithoutPoint(events, r.lo, r.hi, BACKFILL_STEP, r.hi);
    PointIsFilled(rows, entity, events, r, p);
  }

  lemma SampledSince(rows: seq<Row>, entities: set<string>, since: int, m: int) returns (r: Row)
    requires HasMinute(rows, entities, since, m)
    ensures m % 60 == 0 && r.ts >= since && m <= r.ts < m + 60
  {
    r :| r in rows && r.entity in entities && r.ts >= since && Keepalive.Minute(r.ts) == m;
  }

  lemma NothingBetween(mins: seq<int>, i: nat, m: int)
    requires forall a, b :: 0 <= a < b < |mins| ==> mins[a] < mins[b]
    requires 0 < i < |mins| && m in mins
    ensures m <= mins[i - 1] || mins[i] <= m
  {
    var k :| 0 <= k < |mins| && mins[k] == m;
  }
}
