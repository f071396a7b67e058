/** History expansion and backfill planning for the HVAC estimate. */
module HvacHistory {
  import opened Common

  /** One recorded state change: when, and the action it reported ("" when the thermostat gave none). */
  datatype StateEvent = StateEvent(ts: int, action: string)

  datatype Point = Point(ts: int, action: string)

  /** The grid points of one segment from `t` on, clipped to [lo, hi]. */
  function Walk(t: int, segEnd: int, inclusive: bool, lo: int, hi: int, step: int, action: string): seq<Point>
    requires step > 0
    decreases segEnd - t + 1
  {
    if t < segEnd || (inclusive && t == segEnd)
    then (if lo <= t <= hi then [Point(t, action)] else []) + Walk(t + step, segEnd, inclusive, lo, hi, step, action)
    else []
  }

  /** Where event i's segment ends, and whether that end belongs to it. */
  function SegmentEnd(events: seq<StateEvent>, i: nat, hi: int): (int, bool)
    requires i < |events|
  {
    if i + 1 < |events| && events[i + 1].ts <= hi then (events[i + 1].ts, false) else (hi, true)
  }

  function Segment(events: seq<StateEvent>, i: nat, lo: int, hi: int, step: int): seq<Point>
    requires i < |events| && step > 0
  {
    if events[i].action == "" then []
    else
      var end := SegmentEnd(events, i, hi);
      Walk(events[i].ts, end.0, end.1, lo, hi, step, events[i].action)
  }

  function Expand(events: seq<StateEvent>, n: nat, lo: int, hi: int, step: int): seq<Point>
    requires n <= |events| && step > 0
  {
    if n == 0 then [] else Expand(events, n - 1, lo, hi, step) + Segment(events, n - 1, lo, hi, step)
  }

  /** The inner loop: append the segment's grid points inside [lo, hi]. */
  method EmitSegment(points: seq<Point>, from: int, segEnd: int, inclusive: bool, lo: int, hi: int, step: int, action: string)
    returns (more: seq<Point>)
    requires step > 0
    ensures more == points + Walk(from, segEnd, inclusive, lo, hi, step, action)
  {
    more := points;
    var t := from;
    while t < segEnd || (inclusive && t == segEnd)
      invariant points + Walk(from, segEnd, inclusive, lo, hi, step, action)
                == more + Walk(t, segEnd, inclusive, lo, hi, step, action)
      decreases segEnd - t + 1
    {
      var rest := Walk(t + step, segEnd, inclusive, lo, hi, step, action);
      if !(t < lo) && !(t > hi) {
        assert more + ([Point(t, action)] + rest) == more + [Point(t, action)] + rest;
        more := more + [Point(t, action)];
      } else {
        assert [] + rest == rest;
      }
      t := t + step;
    }
  }

  /** `expandHVACHistory`. */
  method ExpandHvacHistory(events: seq<StateEvent>, lo: int, hi: int, step: int) returns (points: seq<Point>)
    requires step > 0
    ensures points == Expand(events, |events|, lo, hi, step)
  {
    points := [];
    for i := 0 to |events|
      invariant points == Expand(events, i, lo, hi, step)
    {
      var e := events[i];
      if e.action == "" {
        continue;
      }
      var segEnd, inclusive := hi, true;
      if i + 1 < |events| {
        segEnd, inclusive := events[i + 1].ts, false;
        if segEnd > hi {
          segEnd, inclusive := hi, true;
        }
      }
      points := EmitSegment(points, e.ts, segEnd, inclusive, lo, hi, step, e.action);
    }
  }

  // ---- what the expansion is ----------------------------------------------------------------------

  ghost predicate AscendingEvents(events: seq<StateEvent>) {
    forall i, j :: 0 <= i <= j < |events| ==> events[i].ts <= events[j].ts
  }

  /** Event i is the latest at or before t. */
  ghost predicate Governs(events: seq<StateEvent>, i: nat, t: int)
    requires i < |events|
  {
    events[i].ts <= t && (i + 1 < |events| ==> t < events[i + 1].ts)
  }

  /** t lies on event i's own grid. */
  ghost predicate OnGrid(events: seq<StateEvent>, i: nat, t: int, step: int)
    requires i < |events| && step > 0
  {
    GridFrom(events[i].ts, step, t)
  }

  /** p is the point the history prescribes under its i-th event. */
  ghost predicate Prescribed(events: seq<StateEvent>, i: nat, lo: int, hi: int, step: int, p: Point)
    requires i < |events| && step > 0
  {
    && events[i].action != "" && p.action == events[i].action
    && lo <= p.ts <= hi && Governs(events, i, p.ts) && OnGrid(events, i, p.ts, step)
  }

  ghost predicate StrictlyIncreasing(points: seq<Point>) {
    forall i, j :: 0 <= i < j < |points| ==> points[i].ts < points[j].ts
  }

  lemma JoinIncreasing(a: seq<Point>, b: seq<Point>, pivot: int)
    requires StrictlyIncreasing(a) && StrictlyIncreasing(b)
    requires (forall p :: p in a ==> p.ts < pivot) && (forall p :: p in b ==> pivot <= p.ts)
    ensures StrictlyIncreasing(a + b)
  {
    forall i, j | 0 <= i < j < |a + b|
      ensures (a + b)[i].ts < (a + b)[j].ts
    {
      assert i < |a| ==> (a + b)[i] in a;
      assert j >= |a| ==> (a + b)[j] in b;
    }
  }

  lemma {:induction false} WalkBounds(t: int, segEnd: int, inclusive: bool, lo: int, hi: int, step: int, action: string, p: Point)
    requires step > 0 && p in Walk(t, segEnd, inclusive, lo, hi, step, action)
    ensures Max(t, lo) <= p.ts <= Min(segEnd - (if inclusive then 0 else 1), hi) && p.action == action
    decreases segEnd - t + 1
  {
    if p in Walk(t + step, segEnd, inclusive, lo, hi, step, action) {
      WalkBounds(t + step, segEnd, inclusive, lo, hi, step, action, p);
    }
  }

  lemma {:induction false} WalkIncreasing(t: int, segEnd: int, inclusive: bool, lo: int, hi: int, step: int, action: string)
    requires step > 0
    ensures StrictlyIncreasing(Walk(t, segEnd, inclusive, lo, hi, step, action))
    decreases segEnd - t + 1
  {
    if t < segEnd || (inclusive && t == segEnd) {
      var rest := Walk(t + step, segEnd, inclusive, lo, hi, step, action);
      WalkIncreasing(t + step, segEnd, inclusive, lo, hi, step, action);
      forall p | p in rest
        ensures t + step <= p.ts
      {
        WalkBounds(t + step, segEnd, inclusive, lo, hi, step, action, p);
      }
      JoinIncreasing(if lo <= t <= hi then [Point(t, action)] else [], rest, t + step);
    }
  }

  /** The points t, t + step, t + 2*step and so on. */
  ghost predicate GridFrom(t: int, step: int, x: int) {
    exists k: nat {:trigger k * step} :: x == t + k * step
  }

  lemma GridAtLeast(t: int, step: int, x: int)
    requires step > 0 && GridFrom(t, step, x)
    ensures x >= t
  {
    var k: nat :| x == t + k * step;
    assert k * step >= 0;
  }

  /** A grid from t is t itself followed by the grid from t + step. */
  lemma GridShift(t: int, step: int, x: int)
    requires step > 0
    ensures GridFrom(t, step, x) <==> x == t || GridFrom(t + step, step, x)
  {
    assert t == t + 0 * step;
    if k: nat {:trigger k * step} :| x == t + k * step && x != t {
      assert x == t + step + (k - 1) * step;
    }
    if k: nat {:trigger k * step} :| x == t + step + k * step {
      assert x == t + (k + 1) * step;
    }
  }

  lemma WalkHead(t: int, segEnd: int, inclusive: bool, lo: int, hi: int, step: int, action: string, p: Point)
    requires step > 0
    ensures p in Walk(t, segEnd, inclusive, lo, hi, step, action) <==>
      (t < segEnd || (inclusive && t == segEnd)) &&
      ((lo <= t <= hi && p == Point(t, action)) || p in Walk(t + step, segEnd, inclusive, lo, hi, step, action))
  {
  }

  lemma {:induction false} WalkMembers(t: int, segEnd: int, inclusive: bool, lo: int, hi: int, step: int, action: string, x: int)
    requires step > 0
    ensures Point(x, action) in Walk(t, segEnd, inclusive, lo, hi, step, action) <==>
      lo <= x <= hi && (x < segEnd || (inclusive && x == segEnd)) && GridFrom(t, step, x)
    decreases segEnd - t + 1
  {
    hide Walk, GridFrom;
    WalkHead(t, segEnd, inclusive, lo, hi, step, action, Point(x, action));
    if t < segEnd || (inclusive && t == segEnd) {
      WalkMembers(t + step, segEnd, inclusive, lo, hi, step, action, x);
      GridShift(t, step, x);
    } else if GridFrom(t, step, x) {
      GridAtLeast(t, step, x);
    }
  }

  lemma SegmentMembers(events: seq<StateEvent>, i: nat, lo: int, hi: int, step: int, p: Point)
    requires i < |events| && step > 0 && AscendingEvents(events)
    ensures p in Segment(events, i, lo, hi, step) <==> Prescribed(events, i, lo, hi, step, p)
  {
    if events[i].action != "" {
      var end := SegmentEnd(events, i, hi);
      WalkMembers(events[i].ts, end.0, end.1, lo, hi, step, events[i].action, p.ts);
      if p in Segment(events, i, lo, hi, step) {
        WalkBounds(events[i].ts, end.0, end.1, lo, hi, step, events[i].action, p);
        assert p == Point(p.ts, events[i].action);
      }
      if OnGrid(events, i, p.ts, step) {
        GridAtLeast(events[i].ts, step, p.ts);
      }
    }
  }

  lemma ExpandNext(events: seq<StateEvent>, n: nat, lo: int, hi: int, step: int)
    requires 0 < n <= |events| && step > 0
    ensures Expand(events, n, lo, hi, step) == Expand(events, n - 1, lo, hi, step) + Segment(events, n - 1, lo, hi, step)
  {
  }

  lemma ExpandLast(events: seq<StateEvent>, n: nat, lo: int, hi: int, step: int, p: Point)
    requires 0 < n <= |events| && step > 0
    ensures p in Expand(events, n, lo, hi, step)
            <==> p in Expand(events, n - 1, lo, hi, step) || p in Segment(events, n - 1, lo, hi, step)
  {
  }

  /** A point is emitted exactly when some event prescribes it: that event's action, on its own grid, inside the window. */
  lemma {:induction false} ExpandMembers(events: seq<StateEvent>, n: nat, lo: int, hi: int, step: int, p: Point)
    requires n <= |events| && step > 0 && AscendingEvents(events)
    ensures p in Expand(events, n, lo, hi, step)
            <==> exists i :: 0 <= i < n && Prescribed(events, i, lo, hi, step, p)
  {
    hide Segment, Prescribed, AscendingEvents;
    if n > 0 {
      hide Expand;
      ExpandMembers(events, n - 1, lo, hi, step, p);
      SegmentMembers(events, n - 1, lo, hi, step, p);
      ExpandLast(events, n, lo, hi, step, p);
    }
  }

  lemma SegmentShape(events: seq<StateEvent>, i: nat, lo: int, hi: int, step: int)
    requires i < |events| && step > 0
    ensures StrictlyIncreasing(Segment(events, i, lo, hi, step))
    ensures forall p :: p in Segment(events, i, lo, hi, step) ==>
              events[i].ts <= p.ts && lo <= p.ts <= hi && (i + 1 < |events| ==> p.ts < events[i + 1].ts)
  {
    if events[i].action != "" {
      var end := SegmentEnd(events, i, hi);
      WalkIncreasing(events[i].ts, end.0, end.1, lo, hi, step, events[i].action);
      forall p | p in Segment(events, i, lo, hi, step)
        ensures events[i].ts <= p.ts && lo <= p.ts <= hi && (i + 1 < |events| ==> p.ts < events[i + 1].ts)
      {
        WalkBounds(events[i].ts, end.0, end.1, lo, hi, step, events[i].action, p);
      }
    }
  }

  lemma {:induction false} ExpandBounds(events: seq<StateEvent>, n: nat, lo: int, hi: int, step: int, p: Point)
    requires n <= |events| && step > 0 && AscendingEvents(events) && p in Expand(events, n, lo, hi, step)
    ensures lo <= p.ts <= hi && (n < |events| ==> p.ts < events[n].ts)
  {
    hide Segment;
    if n == 0 {
      NothingExpanded(events, lo, hi, step);
      assert false;
    } else {
      hide Expand;
      SegmentShape(events, n - 1, lo, hi, step);
      ExpandLast(events, n, lo, hi, step, p);
      assert n < |events| ==> events[n - 1].ts <= events[n].ts;
      if p !in Segment(events, n - 1, lo, hi, step) {
        ExpandBounds(events, n - 1, lo, hi, step, p);
      }
    }
  }

  lemma NothingExpanded(events: seq<StateEvent>, lo: int, hi: int, step: int)
    requires step > 0
    ensures Expand(events, 0, lo, hi, step) == []
  {
  }

  /** Segments follow each other in time, so the whole expansion ascends strictly. */
  lemma {:induction false} ExpandIncreasing(events: seq<StateEvent>, n: nat, lo: int, hi: int, step: int)
    requires n <= |events| && step > 0 && AscendingEvents(events)
    ensures StrictlyIncreasing(Expand(events, n, lo, hi, step))
  {
    hide Segment, AscendingEvents;
    if n > 0 {
      hide Expand, StrictlyIncreasing;
      var before := Expand(events, n - 1, lo, hi, step);
      ExpandNext(events, n, lo, hi, step);
      forall p | p in before
        ensures p.ts < events[n - 1].ts
      {
        ExpandBounds(events, n - 1, lo, hi, step, p);
      }
      ExpandIncreasing(events, n - 1, lo, hi, step);
      SegmentShape(events, n - 1, lo, hi, step);
      JoinIncreasing(before, Segment(events, n - 1, lo, hi, step), events[n - 1].ts);
    }
  }

  /** The expansion as a whole: ascending, duplicate-free, and each point carries the action in force at its time. */
  lemma ExpansionIsTheHistory(events: seq<StateEvent>, lo: int, hi: int, step: int)
    requires step > 0 && AscendingEvents(events)
    ensures StrictlyIncreasing(Expand(events, |events|, lo, hi, step))
    ensures forall p :: p in Expand(events, |events|, lo, hi, step) ==>
              lo <= p.ts <= hi
              && exists i :: 0 <= i < |events| && Governs(events, i, p.ts) && p.action == events[i].action != ""
  {
    ExpandIncreasing(events, |events|, lo, hi, step);
    forall p | p in Expand(events, |events|, lo, hi, step)
      ensures lo <= p.ts <= hi
      ensures exists i :: 0 <= i < |events| && Governs(events, i, p.ts) && p.action == events[i].action != ""
    {
      ExpandMembers(events, |events|, lo, hi, step, p);
      var i :| 0 <= i < |events| && Prescribed(events, i, lo, hi, step, p);
    }
  }

  // ---- density ------------------------------------------------------------------------------------

  /** At every time in [lo, hi] an action is in force: the history starts by lo and none governing there is empty. */
  ghost predicate ActiveThroughout(events: seq<StateEvent>, lo: int, hi: int) {
    events != [] && events[0].ts <= lo &&
    forall i, t :: 0 <= i < |events| && lo <= t <= hi && Governs(events, i, t) ==> events[i].action != ""
  }

  lemma {:induction false} LatestEvent(events: seq<StateEvent>, t: int) returns (i: nat)
    requires AscendingEvents(events) && events != [] && events[0].ts <= t
    ensures i < |events| && Governs(events, i, t)
  {
    i := 0;
    while i + 1 < |events| && events[i + 1].ts <= t
      invariant i < |events| && events[i].ts <= t
    {
      i := i + 1;
    }
  }

  /** Between lo + step and hi no step-long stretch is left without an emitted point. */
  lemma NoStretchWithoutPoint(events: seq<StateEvent>, lo: int, hi: int, step: int, t: int) returns (p: Point)
    requires step > 0 && AscendingEvents(events) && ActiveThroughout(events, lo, hi) && lo + step <= t <= hi
    ensures p in Expand(events, |events|, lo, hi, step) && t - step < p.ts <= t
  {
    var i := LatestEvent(events, t);
    var k: nat := (t - events[i].ts) / step;
    var x := events[i].ts + k * step;
    assert (t - events[i].ts) == k * step + (t - events[i].ts) % step;
    p := Point(x, events[i].action);
    assert Prescribed(events, i, lo, hi, step, p) by {
      assert k * step >= 0;
      assert OnGrid(events, i, x, step);
    }
    ExpandMembers(events, |events|, lo, hi, step, p);
  }

  // ---- planning -----------------------------------------------------------------------------------

  /** The gaps cut at capEnd, the emptied ones dropped. */
  function Clamped(gaps: seq<Range>, capEnd: int): seq<Range> {
    if gaps == [] then []
    else
      var g := gaps[|gaps| - 1];
      var hi := Min(g.hi, capEnd);
      Clamped(gaps[..|gaps| - 1], capEnd) + (if g.lo < hi then [Range(g.lo, hi)] else [])
  }

  /** Whether the span before the first recorded sample is long enough to be fetched. */
  predicate LeadingPlanned(first: int, lookStart: int, minGap: int) {
    first > lookStart + minGap
  }

  function Plan(first: int, gaps: seq<Range>, lookStart: int, minGap: int, capEnd: int): seq<Range> {
    (if LeadingPlanned(first, lookStart, minGap) then [Range(lookStart, first)] else []) + Clamped(gaps, capEnd)
  }

  /** `planHVACBackfill`: the ranges to fetch, the whole window when nothing was ever recorded. */
  method PlanHvacBackfill(first: Option<int>, gaps: seq<Range>, now: int, lookback: int, minGap: int, capEnd: int)
    returns (ranges: seq<Range>)
    ensures first.None? ==> ranges == [Range(now - lookback, capEnd)]
    ensures first.Some? ==> ranges == Plan(first.value, gaps, now - lookback, minGap, capEnd)
  {
    var lookStart := now - lookback;
    if first.None? {
      return [Range(lookStart, capEnd)];
    }
    ranges := [];
    if first.value > lookStart + minGap {
      ranges := ranges + [Range(lookStart, first.value)];
    }
    ghost var leading := ranges;
    for i := 0 to |gaps|
      invariant ranges == leading + Clamped(gaps[..i], capEnd)
    {
      assert gaps[..i + 1][..i] == gaps[..i];
      var lo, hi := gaps[i].lo, gaps[i].hi;
      if hi > capEnd {
        hi := capEnd;
      }
      if !(lo < hi) {
        continue;
      }
      ranges := ranges + [Range(lo, hi)];
    }
    assert gaps[..|gaps|] == gaps;
  }

  lemma {:induction false} ClampedWithin(gaps: seq<Range>, capEnd: int)
    ensures forall i :: 0 <= i < |Clamped(gaps, capEnd)| ==>
              Clamped(gaps, capEnd)[i].lo < Clamped(gaps, capEnd)[i].hi <= capEnd
  {
    if gaps != [] {
      ClampedWithin(gaps[..|gaps| - 1], capEnd);
    }
  }

  /** Nothing in front of capEnd is dropped: a time inside a gap and not past the cap is still covered. */
  lemma {:induction false} ClampedCovers(gaps: seq<Range>, capEnd: int, k: nat, t: int)
    requires k < |gaps| && gaps[k].lo < t <= gaps[k].hi && t <= capEnd
    ensures exists r :: r in Clamped(gaps, capEnd) && r.lo < t <= r.hi
  {
    if k == |gaps| - 1 {
      assert Range(gaps[k].lo, Min(gaps[k].hi, capEnd)) in Clamped(gaps, capEnd);
    } else {
      ClampedCovers(gaps[..|gaps| - 1], capEnd, k, t);
      var r :| r in Clamped(gaps[..|gaps| - 1], capEnd) && r.lo < t <= r.hi;
      assert r in Clamped(gaps, capEnd);
    }
  }

  /**
   * The plan stays behind capEnd exactly when a planned leading range does: the leading range is the
   * one that is not clamped, so it reaches past capEnd whenever the first sample does.
   */
  lemma PlanStaysBehindCapIff(first: int, gaps: seq<Range>, lookStart: int, minGap: int, capEnd: int)
    ensures (forall r :: r in Plan(first, gaps, lookStart, minGap, capEnd) ==> r.hi <= capEnd)
            <==> !(first > lookStart + minGap && first > capEnd)
  {
    ClampedWithin(gaps, capEnd);
    if LeadingPlanned(first, lookStart, minGap) {
      assert Range(lookStart, first) in Plan(first, gaps, lookStart, minGap, capEnd);
    }
  }

  /** A freshly configured thermostat, seeded just now, gets a leading range two hours past the cap. */
  lemma LeadingRangeCanPassTheCap(now: int)
    ensures var lookStart, capEnd := now - 10 * 86400, now - 7200;
      Range(lookStart, now) in Plan(now, [], lookStart, 1800, capEnd) && now > capEnd
  {
  }

  /** The plan is the leading range, if the history starts later than the minimum gap into the window, and the cut gaps. */
  lemma PlanIs(first: int, gaps: seq<Range>, lookStart: int, minGap: int, capEnd: int)
    ensures var plan := Plan(first, gaps, lookStart, minGap, capEnd);
      if first - lookStart > minGap
      then |plan| == 1 + |Clamped(gaps, capEnd)| && plan[0] == Range(lookStart, first) && plan[1..] == Clamped(gaps, capEnd)
      else plan == Clamped(gaps, capEnd)
  {
  }

  /** A time is covered by the cut gaps exactly when it lies in a gap and not past the cap. */
  lemma {:induction false} ClampedIff(gaps: seq<Range>, capEnd: int, t: int)
    ensures (exists r :: r in Clamped(gaps, capEnd) && r.lo < t <= r.hi) <==>
      t <= capEnd && exists g :: g in gaps && g.lo < t <= g.hi
  {
    if gaps != [] {
      var n := |gaps| - 1;
      ClampedIff(gaps[..n], capEnd, t);
      ClampedLast(gaps, capEnd, t);
      assert gaps == gaps[..n] + [gaps[n]];
    }
  }

  lemma ClampedLast(gaps: seq<Range>, capEnd: int, t: int)
    requires gaps != []
    ensures var n := |gaps| - 1;
      (exists r :: r in Clamped(gaps, capEnd) && r.lo < t <= r.hi) <==>
      (exists r :: r in Clamped(gaps[..n], capEnd) && r.lo < t <= r.hi) || (gaps[n].lo < t <= gaps[n].hi && t <= capEnd)
  {
    var n := |gaps| - 1;
    var cut := Range(gaps[n].lo, Min(gaps[n].hi, capEnd));
    var last := if cut.lo < cut.hi then [cut] else [];
    assert Clamped(gaps, capEnd) == Clamped(gaps[..n], capEnd) + last;
    assert cut.lo < cut.hi ==> cut in last;
  }

  /**
   * What the plan covers: a time in a gap and not past the cap, and, when the history starts more than the
   * minimum gap into the window, every time from there to the first sample.
   */
  lemma PlanCoversIff(first: int, gaps: seq<Range>, lookStart: int, minGap: int, capEnd: int, t: int)
    ensures (exists r :: r in Plan(first, gaps, lookStart, minGap, capEnd) && r.lo < t <= r.hi) <==>
      (first - lookStart > minGap && lookStart < t <= first) || (t <= capEnd && exists g :: g in gaps && g.lo < t <= g.hi)
  {
    ClampedIff(gaps, capEnd, t);
    PlanIs(first, gaps, lookStart, minGap, capEnd);
    hide Clamped;
    var plan, cut := Plan(first, gaps, lookStart, minGap, capEnd), Clamped(gaps, capEnd);
    if first - lookStart > minGap {
      assert plan == [Range(lookStart, first)] + cut;
      assert plan[0] in plan;
    }
  }
}
