/**
 * The same day on two pages: when a day's own consumption page and its slot on a week or month page agree. Each
 * page is a query of its own, with its own 48-hour lookback, first steps and glitch cutoff.
 */
module SameDay {
  import opened Common
  import opened Calendar
  import Counters
  import opened Glitch
  import opened Consumption

  /** The ladder a query for [from, to) is filtered from: it reaches 48 hours back. */
  function WindowRows(hours: seq<Counters.HourRow>, modulus: int, from: int, to: int): seq<DeltaRow> {
    Ladder(Window(hours, from - LOOKBACK, to), modulus)
  }

  function WindowCutoff(hours: seq<Counters.HourRow>, modulus: int, from: int, to: int): real {
    Cutoff(WindowRows(hours, modulus, from, to))
  }

  predicate Counts(r: DeltaRow, cut: real, from: int, to: int) {
    from <= r.hb < to && r.delta.Some? && r.delta.value as real <= cut
  }

  /** What the rows of [from, to) add up to under a cutoff. */
  function KeptUnits(rows: seq<DeltaRow>, cut: real, from: int, to: int): int {
    if rows == [] then 0
    else (if Counts(rows[0], cut, from, to) then rows[0].delta.value else 0) + KeptUnits(rows[1..], cut, from, to)
  }

  /** The query's chain of filters, narrowed to [f, g), adds up to the kept units of its ladder there. */
  lemma {:induction false} ShareOfQuery(rows: seq<DeltaRow>, cut: real, from: int, f: int, g: int)
    requires from <= f
    ensures Total(Share(Since(KeepUpTo(rows, cut), from), f, g)) == KeptUnits(rows, cut, f, g)
  {
    if rows != [] {
      var r, rest := rows[0], KeepUpTo(rows[1..], cut);
      ShareOfQuery(rows[1..], cut, from, f, g);
      if r.delta.Some? && r.delta.value as real <= cut {
        assert KeepUpTo(rows, cut) == [r] + rest;
        ShareHead(r, rest, from, f, g);
      } else {
        assert KeepUpTo(rows, cut) == rest;
      }
    }
  }

  lemma ShareHead(r: DeltaRow, rest: seq<DeltaRow>, from: int, f: int, g: int)
    requires from <= f
    ensures Total(Share(Since([r] + rest, from), f, g))
      == (if f <= r.hb < g then Units(r) else 0) + Total(Share(Since(rest, from), f, g))
  {
    assert ([r] + rest)[1..] == rest;
    var more := Since(rest, from);
    if r.hb >= from {
      assert Since([r] + rest, from) == [r] + more;
      assert ([r] + more)[1..] == more;
      TotalOfConcat([r], Share(more, f, g));
      assert [r][1..] == [];
      assert f <= r.hb < g ==> Share([r] + more, f, g) == [r] + Share(more, f, g);
      assert !(f <= r.hb < g) ==> Share([r] + more, f, g) == [] + Share(more, f, g) == Share(more, f, g);
    } else {
      assert Since([r] + rest, from) == [] + more == more;
    }
  }

  lemma {:induction false} ShareOfAll(rows: seq<DeltaRow>, from: int, to: int)
    requires forall i :: 0 <= i < |rows| ==> from <= rows[i].hb < to
    ensures Share(rows, from, to) == rows
  {
    if rows != [] {
      ShareOfAll(rows[1..], from, to);
    }
  }

  lemma {:induction false} KeptUnitsOfConcat(a: seq<DeltaRow>, b: seq<DeltaRow>, cut: real, from: int, to: int)
    ensures KeptUnits(a + b, cut, from, to) == KeptUnits(a, cut, from, to) + KeptUnits(b, cut, from, to)
  {
    if a == [] {
      assert a + b == b;
    } else {
      assert (a + b)[1..] == a[1..] + b;
      KeptUnitsOfConcat(a[1..], b, cut, from, to);
    }
  }

  lemma {:induction false} NothingKeptOutside(rows: seq<DeltaRow>, cut: real, from: int, to: int)
    requires forall i :: 0 <= i < |rows| ==> rows[i].hb < from || to <= rows[i].hb
    ensures KeptUnits(rows, cut, from, to) == 0
  {
    if rows != [] {
      NothingKeptOutside(rows[1..], cut, from, to);
    }
  }

  /** A row of [from, to) that the two cutoffs treat differently. */
  predicate Disputed(r: DeltaRow, c1: real, c2: real, from: int, to: int) {
    Counts(r, c1, from, to) != Counts(r, c2, from, to)
  }

  ghost predicate Undisputed(rows: seq<DeltaRow>, c1: real, c2: real, from: int, to: int) {
    forall i :: 0 <= i < |rows| ==> !Disputed(rows[i], c1, c2, from, to)
  }

  /** A higher cutoff keeps as much, and more than the lower cutoff's worth more if any row is disputed. */
  lemma {:induction false} KeptUnitsGap(rows: seq<DeltaRow>, low: real, high: real, from: int, to: int)
    requires 0.0 <= low <= high
    ensures Undisputed(rows, low, high, from, to) ==> KeptUnits(rows, low, from, to) == KeptUnits(rows, high, from, to)
    ensures !Undisputed(rows, low, high, from, to) ==>
      (KeptUnits(rows, high, from, to) - KeptUnits(rows, low, from, to)) as real > low
  {
    if rows != [] {
      KeptUnitsGap(rows[1..], low, high, from, to);
      UndisputedHead(rows, low, high, from, to);
    }
  }

  lemma UndisputedHead(rows: seq<DeltaRow>, c1: real, c2: real, from: int, to: int)
    requires rows != []
    ensures Undisputed(rows, c1, c2, from, to) <==>
      !Disputed(rows[0], c1, c2, from, to) && Undisputed(rows[1..], c1, c2, from, to)
  {
    hide Disputed;
    if Undisputed(rows[1..], c1, c2, from, to) && !Disputed(rows[0], c1, c2, from, to) {
      forall i | 0 <= i < |rows| ensures !Disputed(rows[i], c1, c2, from, to) {
        assert i > 0 ==> rows[i] == rows[1..][i - 1];
      }
    }
  }

  /**
   * Two ladders that differ in their first row only: the sums agree exactly if no other row is disputed and
   * the first counts for nothing. An extra first row of at most c2 cannot make up for a disputed row above c2.
   */
  lemma FirstRowCannotMakeUp(x: int, rest: seq<DeltaRow>, c1: real, c2: real, from: int, to: int)
    requires 0.0 <= c1 && 0 <= x && x as real <= c2
    ensures KeptUnits(rest, c1, from, to) == x + KeptUnits(rest, c2, from, to) <==>
      x == 0 && Undisputed(rest, c1, c2, from, to)
  {
    hide Undisputed, KeptUnits;
    DisputeIsMutual(rest, c1, c2, from, to);
    if c1 <= c2 {
      KeptUnitsGap(rest, c1, c2, from, to);
    } else {
      KeptUnitsGap(rest, c2, c1, from, to);
    }
  }

  lemma DisputeIsMutual(rows: seq<DeltaRow>, c1: real, c2: real, from: int, to: int)
    ensures Undisputed(rows, c1, c2, from, to) <==> Undisputed(rows, c2, c1, from, to)
  {
    assert forall i :: 0 <= i < |rows| ==> (Disputed(rows[i], c1, c2, from, to) <==> Disputed(rows[i], c2, c1, from, to));
  }

  // ---- windows inside windows --------------------------------------------------------------------

  lemma {:induction false} WindowSplit(hours: seq<Counters.HourRow>, a: int, b: int, c: int)
    requires Counters.Ascending(hours) && a <= b <= c
    ensures Window(hours, a, c) == Window(hours, a, b) + Window(hours, b, c)
  {
    if hours != [] {
      AscendingTail(hours);
      WindowSplit(hours[1..], a, b, c);
      if hours[0].hb >= b {
        NothingBefore(hours[1..], a, b);
      }
    }
  }

  lemma AscendingTail(hours: seq<Counters.HourRow>)
    requires hours != [] && Counters.Ascending(hours)
    ensures Counters.Ascending(hours[1..]) && forall i :: 0 <= i < |hours[1..]| ==> hours[0].hb < hours[1..][i].hb
  {
    forall i, j | 0 <= i < j < |hours[1..]| ensures hours[1..][i].hb < hours[1..][j].hb {
      assert hours[1..][i] == hours[i + 1] && hours[1..][j] == hours[j + 1];
    }
    forall i | 0 <= i < |hours[1..]| ensures hours[0].hb < hours[1..][i].hb {
      assert hours[1..][i] == hours[i + 1];
    }
  }

  lemma {:induction false} NothingBefore(hours: seq<Counters.HourRow>, a: int, b: int)
    requires forall i :: 0 <= i < |hours| ==> b <= hours[i].hb
    ensures Window(hours, a, b) == []
  {
    if hours != [] {
      NothingBefore(hours[1..], a, b);
    }
  }

  lemma DeltaNonneg(rows: seq<Counters.HourRow>, i: nat, modulus: int)
    requires i < |rows|
    ensures Counters.Delta(rows, i, modulus).Some? ==> Counters.Delta(rows, i, modulus).value >= 0
  {
  }

  /** The delta the long page's ladder gives the first hour of the day page's ladder. */
  function FirstDelta(hours: seq<Counters.HourRow>, modulus: int, lo: int, hi: int, from: int): Option<int> {
    var long, k := Window(hours, lo - LOOKBACK, hi), |Window(hours, lo - LOOKBACK, from - LOOKBACK)|;
    if k < |long| then Counters.Delta(long, k, modulus) else None
  }

  /**
   * The day page loses no step that the long page counts: its lookback holds an earlier hour to take the
   * first step from, or that step is missing, zero or cut off on the long page too.
   */
  predicate FirstStepKept(hours: seq<Counters.HourRow>, modulus: int, lo: int, hi: int, from: int, to: int) {
    var day, d := Window(hours, from - LOOKBACK, to), FirstDelta(hours, modulus, lo, hi, from);
    day == [] || day[0].hb < from || d.None? || d.value == 0 || d.value as real > WindowCutoff(hours, modulus, lo, hi)
  }

  /** Inside a longer window an hour's step is the same, but for the first hour, which has a predecessor there. */
  lemma StepInside(a: seq<Counters.HourRow>, w: seq<Counters.HourRow>, b: seq<Counters.HourRow>, modulus: int, k: nat)
    requires k < |w|
    ensures Ladder(a + w + b, modulus)[|a| + k] ==
      if k > 0 then Ladder(w, modulus)[k] else DeltaRow(w[0].hb, w[0].n, Counters.Delta(a + w + b, |a|, modulus))
  {
    hide Ladder, Counters.Delta;
    var all := a + w + b;
    InMiddle(a, w, b, k);
    LadderAt(all, modulus, |a| + k);
    if k > 0 {
      InMiddle(a, w, b, k - 1);
      LadderAt(w, modulus, k);
      SameStep(all, |a| + k, w, k, modulus);
    }
  }

  lemma LadderAt(hours: seq<Counters.HourRow>, modulus: int, i: nat)
    requires i < |hours|
    ensures Ladder(hours, modulus)[i] == DeltaRow(hours[i].hb, hours[i].n, Counters.Delta(hours, i, modulus))
  {
  }

  lemma SameStep(x: seq<Counters.HourRow>, i: nat, y: seq<Counters.HourRow>, j: nat, modulus: int)
    requires 0 < i < |x| && 0 < j < |y| && x[i] == y[j] && x[i - 1] == y[j - 1]
    ensures Counters.Delta(x, i, modulus) == Counters.Delta(y, j, modulus)
  {
  }

  lemma InMiddle(a: seq<Counters.HourRow>, w: seq<Counters.HourRow>, b: seq<Counters.HourRow>, k: nat)
    requires k < |w|
    ensures (a + w + b)[|a| + k] == w[k]
  {
  }

  lemma InThreeParts(l: seq<DeltaRow>, m: seq<DeltaRow>, i: nat)
    requires i + |m| <= |l| && forall k :: 0 <= k < |m| ==> l[i + k] == m[k]
    ensures l == l[..i] + m + l[i + |m|..]
  {
    assert l[i..i + |m|] == m;
  }

  /** The long ladder is an earlier part, the day's ladder but for its first row, and a later part. */
  lemma LadderSplit(a: seq<Counters.HourRow>, w: seq<Counters.HourRow>, b: seq<Counters.HourRow>, modulus: int)
    returns (first: DeltaRow)
    requires w != []
    ensures var l := Ladder(a + w + b, modulus);
      l == l[..|a|] + ([first] + Ladder(w, modulus)[1..]) + l[|a| + |w|..]
    ensures first == DeltaRow(w[0].hb, w[0].n, Counters.Delta(a + w + b, |a|, modulus))
  {
    hide Ladder, Counters.Delta;
    var l := Ladder(a + w + b, modulus);
    first := DeltaRow(w[0].hb, w[0].n, Counters.Delta(a + w + b, |a|, modulus));
    var m := [first] + Ladder(w, modulus)[1..];
    MiddleMatches(a, w, b, modulus, l, m);
    InThreeParts(l, m, |a|);
  }

  lemma MiddleMatches(a: seq<Counters.HourRow>, w: seq<Counters.HourRow>, b: seq<Counters.HourRow>, modulus: int,
                      l: seq<DeltaRow>, m: seq<DeltaRow>)
    requires w != [] && l == Ladder(a + w + b, modulus)
    requires m == [DeltaRow(w[0].hb, w[0].n, Counters.Delta(a + w + b, |a|, modulus))] + Ladder(w, modulus)[1..]
    ensures |a| + |m| <= |l| && |m| == |w| && forall k :: 0 <= k < |m| ==> l[|a| + k] == m[k]
  {
    hide Ladder, Counters.Delta;
    forall k | 0 <= k < |m| ensures l[|a| + k] == m[k] {
      StepInside(a, w, b, modulus, k);
      assert k > 0 ==> m[k] == Ladder(w, modulus)[k];
    }
  }

  lemma EarlierPart(l: seq<DeltaRow>, all: seq<Counters.HourRow>, n: nat, cut: real, from: int, to: int)
    requires n <= |l| == |all| && forall i :: 0 <= i < |l| ==> l[i].hb == all[i].hb
    requires forall i :: 0 <= i < n ==> all[i].hb < from
    ensures KeptUnits(l[..n], cut, from, to) == 0
  {
    NothingKeptOutside(l[..n], cut, from, to);
  }

  lemma LaterPart(l: seq<DeltaRow>, all: seq<Counters.HourRow>, n: nat, cut: real, from: int, to: int)
    requires n <= |l| == |all| && forall i :: 0 <= i < |l| ==> l[i].hb == all[i].hb
    requires forall i :: n <= i < |all| ==> to <= all[i].hb
    ensures KeptUnits(l[n..], cut, from, to) == 0
  {
    NothingKeptOutside(l[n..], cut, from, to);
  }

  lemma PartsOutside(a: seq<Counters.HourRow>, w: seq<Counters.HourRow>, b: seq<Counters.HourRow>, from: int, to: int)
    requires (forall i :: 0 <= i < |a| ==> a[i].hb < from) && (forall i :: 0 <= i < |b| ==> to <= b[i].hb)
    ensures var all := a + w + b;
      (forall i :: 0 <= i < |a| ==> all[i].hb < from) && forall i :: |a| + |w| <= i < |all| ==> to <= all[i].hb
  {
    var all := a + w + b;
    forall i | |a| + |w| <= i < |all| ensures to <= all[i].hb {
      assert all[i] == b[i - |a| - |w|];
    }
  }

  /** The kept units of the day on the long page come from the middle part alone. */
  lemma KeptOnLongPage(a: seq<Counters.HourRow>, w: seq<Counters.HourRow>, b: seq<Counters.HourRow>, modulus: int,
                       cut: real, from: int, to: int)
    requires (forall i :: 0 <= i < |a| ==> a[i].hb < from) && (forall i :: 0 <= i < |b| ==> to <= b[i].hb) && w != []
    ensures var first := DeltaRow(w[0].hb, w[0].n, Counters.Delta(a + w + b, |a|, modulus));
      KeptUnits(Ladder(a + w + b, modulus), cut, from, to)
      == (if Counts(first, cut, from, to) then first.delta.value else 0) + KeptUnits(Ladder(w, modulus)[1..], cut, from, to)
  {
    hide KeptUnits, Counts, Ladder;
    var all, n := a + w + b, |a| + |w|;
    var l := Ladder(all, modulus);
    PartsOutside(a, w, b, from, to);
    EarlierPart(l, all, |a|, cut, from, to);
    LaterPart(l, all, n, cut, from, to);
    var first := LadderSplit(a, w, b, modulus);
    var middle := [first] + Ladder(w, modulus)[1..];
    KeptUnitsOfConcat(l[..|a|] + middle, l[n..], cut, from, to);
    KeptUnitsOfConcat(l[..|a|], middle, cut, from, to);
    KeptHead(first, Ladder(w, modulus)[1..], cut, from, to);
  }

  lemma KeptHead(r: DeltaRow, rest: seq<DeltaRow>, cut: real, from: int, to: int)
    ensures KeptUnits([r] + rest, cut, from, to)
      == (if Counts(r, cut, from, to) then r.delta.value else 0) + KeptUnits(rest, cut, from, to)
  {
    assert ([r] + rest)[1..] == rest;
  }

  /** The core: a window's own ladder against the same hours inside a longer window. */
  lemma DayAgainstLong(a: seq<Counters.HourRow>, w: seq<Counters.HourRow>, b: seq<Counters.HourRow>, modulus: int,
                       c1: real, c2: real, from: int, to: int)
    requires (forall i :: 0 <= i < |a| ==> a[i].hb < from) && (forall i :: 0 <= i < |b| ==> to <= b[i].hb)
    requires (forall i :: 0 <= i < |w| ==> w[i].hb < to) && w != [] && c1 >= 0.0 && c2 >= 0.0
    ensures var d := Counters.Delta(a + w + b, |a|, modulus);
      KeptUnits(Ladder(w, modulus), c1, from, to) == KeptUnits(Ladder(a + w + b, modulus), c2, from, to) <==>
      Undisputed(Ladder(w, modulus), c1, c2, from, to) && (w[0].hb < from || d.None? || d.value == 0 || d.value as real > c2)
  {
    hide KeptUnits, Undisputed;
    var l := Ladder(w, modulus);
    var rest := l[1..];
    assert l == [l[0]] + rest && l[0].delta.None?;
    KeptHead(l[0], rest, c1, from, to);
    UndisputedHead(l, c1, c2, from, to);
    KeptOnLongPage(a, w, b, modulus, c2, from, to);
    var first := DeltaRow(w[0].hb, w[0].n, Counters.Delta(a + w + b, |a|, modulus));
    DeltaNonneg(a + w + b, |a|, modulus);
    FirstRowCannotMakeUp(if Counts(first, c2, from, to) then first.delta.value else 0, rest, c1, c2, from, to);
  }

  lemma NoHoursOnEitherPage(a: seq<Counters.HourRow>, b: seq<Counters.HourRow>, modulus: int, cut: real, from: int, to: int)
    requires (forall i :: 0 <= i < |a| ==> a[i].hb < from) && (forall i :: 0 <= i < |b| ==> to <= b[i].hb)
    ensures KeptUnits(Ladder(a + b, modulus), cut, from, to) == 0
  {
    var l := Ladder(a + b, modulus);
    forall i | 0 <= i < |l| ensures l[i].hb < from || to <= l[i].hb {
      assert l[i].hb == (a + b)[i].hb;
    }
    NothingKeptOutside(l, cut, from, to);
  }

  /** A page's own rows add up to the kept units of its ladder. */
  lemma OwnPage(hours: seq<Counters.HourRow>, modulus: int, from: int, to: int)
    requires Aligned(hours)
    ensures Total(QueryRows(hours, modulus, from, to)) ==
      KeptUnits(WindowRows(hours, modulus, from, to), WindowCutoff(hours, modulus, from, to), from, to)
  {
    hide Window, KeptUnits, Cutoff;
    var rows, cut := WindowRows(hours, modulus, from, to), WindowCutoff(hours, modulus, from, to);
    ShareOfQuery(rows, cut, from, from, to);
    WindowWithin(hours, from - LOOKBACK, to);
    KeptWithin(rows, cut, from - LOOKBACK, to);
    SinceWithin(KeepUpTo(rows, cut), from - LOOKBACK, from, to);
    ShareOfAll(QueryRows(hours, modulus, from, to), from, to);
  }

  /**
   * The window [from, to) as a page of its own and as part of a longer page [lo, hi): the totals agree exactly
   * when no hour of the window is treated differently by the two pages' cutoffs, each taken over its own
   * lookback window, and the short page loses no step the long one counts.
   */
  lemma DayAgreesWithPageIff(hours: seq<Counters.HourRow>, modulus: int, lo: int, hi: int, from: int, to: int)
    requires Counters.Ascending(hours) && Aligned(hours) && lo <= from <= to <= hi
    ensures Total(QueryRows(hours, modulus, from, to)) == Total(Share(QueryRows(hours, modulus, lo, hi), from, to)) <==>
      (Undisputed(WindowRows(hours, modulus, from, to), WindowCutoff(hours, modulus, from, to),
                  WindowCutoff(hours, modulus, lo, hi), from, to) &&
       FirstStepKept(hours, modulus, lo, hi, from, to))
  {
    hide Window, Ladder, KeptUnits, Cutoff, Counts, Disputed, QueryRows, Counters.Delta;
    var c1, c2 := WindowCutoff(hours, modulus, from, to), WindowCutoff(hours, modulus, lo, hi);
    var a, w, b := Window(hours, lo - LOOKBACK, from - LOOKBACK), Window(hours, from - LOOKBACK, to), Window(hours, to, hi);
    WindowSplit(hours, lo - LOOKBACK, from - LOOKBACK, hi);
    WindowSplit(hours, from - LOOKBACK, to, hi);
    assert a + (w + b) == a + w + b;
    WindowWithin(hours, lo - LOOKBACK, from - LOOKBACK);
    WindowWithin(hours, from - LOOKBACK, to);
    WindowWithin(hours, to, hi);
    OwnPage(hours, modulus, from, to);
    LongPage(hours, modulus, lo, hi, from, to);
    if w == [] {
      assert a + w + b == a + b;
      NoHoursOnEitherPage(a, b, modulus, c2, from, to);
      NoHoursOnEitherPage([], [], modulus, c1, from, to);
      assert [] + [] == w;
      EmptyLadder(w, modulus);
    } else {
      DayAgainstLong(a, w, b, modulus, c1, c2, from, to);
    }
  }

  lemma EmptyLadder(w: seq<Counters.HourRow>, modulus: int)
    requires w == []
    ensures Ladder(w, modulus) == []
  {
  }

  lemma LongPage(hours: seq<Counters.HourRow>, modulus: int, lo: int, hi: int, from: int, to: int)
    requires lo <= from
    ensures Total(Share(QueryRows(hours, modulus, lo, hi), from, to)) ==
      KeptUnits(WindowRows(hours, modulus, lo, hi), WindowCutoff(hours, modulus, lo, hi), from, to)
  {
    ShareOfQuery(WindowRows(hours, modulus, lo, hi), WindowCutoff(hours, modulus, lo, hi), lo, from, to);
  }

  lemma OnLocalDayIff(zone: Zone, hb: int, day: int)
    requires Increasing(zone)
    ensures LocalDay(zone, hb) == day <==> zone(day) <= hb < zone(day + 1)
  {
    if zone(day) <= hb < zone(day + 1) {
      StepIsUnique(zone, hb, LocalDay(zone, hb), day);
    }
  }

  /** On a week or month page a day's slot is the page's share of that day. */
  lemma {:induction false} SlotIsShare(view: View, zone: Zone, rows: seq<DeltaRow>, day: int)
    requires Increasing(zone) && (view.Week? || view.Month?)
    ensures GroupSum(view, zone, rows, DayKey(day)) == Total(Share(rows, zone(day), zone(day + 1)))
  {
    if rows != [] {
      hide Increasing, Total, Share, Units;
      SlotIsShare(view, zone, rows[1..], day);
      OnLocalDayIff(zone, rows[0].hb, day);
      ShareTotal(rows, zone(day), zone(day + 1));
    }
  }

  /** So, on the pages themselves: a day's slot of a week or month page against that day's own page. */
  lemma DaySlotAgreesWithDayPageIff(hours: seq<Counters.HourRow>, modulus: int, view: View, zone: Zone, start: int, day: int)
    requires IsPage(view, zone, start) && (view.Week? || view.Month?) && start <= day < PeriodNext(view, start)
    requires Counters.Ascending(hours) && Aligned(hours)
    ensures var lo, hi, from, to := zone(start), zone(PeriodNext(view, start)), zone(day), zone(day + 1);
      Total(QueryRows(hours, modulus, from, to)) == GroupSum(view, zone, QueryRows(hours, modulus, lo, hi), DayKey(day)) <==>
      (Undisputed(WindowRows(hours, modulus, from, to), WindowCutoff(hours, modulus, from, to),
                  WindowCutoff(hours, modulus, lo, hi), from, to) &&
       FirstStepKept(hours, modulus, lo, hi, from, to))
  {
    hide QueryRows, Undisputed, FirstStepKept, WindowRows, WindowCutoff, PeriodNext, IsStart;
    var end := PeriodNext(view, start);
    assert start < day ==> zone(start) < zone(day);
    assert day + 1 < end ==> zone(day + 1) < zone(end);
    SlotIsShare(view, zone, QueryRows(hours, modulus, zone(start), zone(end)), day);
    DayAgreesWithPageIff(hours, modulus, zone(start), zone(end), zone(day), zone(day + 1));
  }

  // ---- two ways to disagree ----------------------------------------------------------------------

  const DAY: int := 86400

  /** One hour at noon of each of four days, d counts apart. */
  function FourNoons(d: int): seq<Counters.HourRow> {
    [Counters.HourRow(43200, 0, 1), Counters.HourRow(129600, d, 1), Counters.HourRow(216000, 2 * d, 1),
     Counters.HourRow(302400, 3 * d, 1)]
  }

  lemma {:induction false} FewPositives(rows: seq<DeltaRow>)
    ensures |Positives(rows)| <= |rows|
  {
    if rows != [] {
      FewPositives(rows[1..]);
    }
  }

  lemma {:induction false} NothingKept(rows: seq<DeltaRow>, cut: real)
    requires forall i :: 0 <= i < |rows| && rows[i].delta.Some? ==> rows[i].delta.value as real > cut
    ensures KeepUpTo(rows, cut) == []
  {
    if rows != [] {
      NothingKept(rows[1..], cut);
    }
  }

  /** Fewer than four hours whose steps are all above the floor show nothing. */
  lemma FewHoursShowNothing(hours: seq<Counters.HourRow>, modulus: int, from: int)
    requires |hours| < 4
    requires forall i :: 0 < i < |hours| ==> hours[i].cmax - hours[i - 1].cmax > 1000
    ensures Total(Since(Clean(Ladder(hours, modulus)), from)) == 0
  {
    var rows := Ladder(hours, modulus);
    if rows != [] {
      FewPositives(rows[1..]);
      assert |Positives(rows)| < 3;
    }
    assert Cutoff(rows) == 1000.0;
    NothingKept(rows, 1000.0);
  }

  lemma DayOfNoons(d: int, modulus: int, k: nat)
    requires d > 1000 && k < 7
    ensures Total(QueryRows(FourNoons(d), modulus, DAY * k, DAY * (k + 1))) == 0
  {
    hide Clean, Ladder, FourNoons, Window;
    var i, j := if k < 2 then 0 else Min(k - 2, 4), Min(k + 1, 4);
    var hours := FourNoons(d);
    Noons(d);
    NoonsWithin(k, i, j);
    WindowOfSome(hours, DAY * k - LOOKBACK, DAY * (k + 1), i, j);
    FewHoursShowNothing(hours[i..j], modulus, DAY * k);
  }

  /** The window of day k, lookback included, holds the noons of that day and of the two before. */
  lemma NoonsWithin(k: nat, i: nat, j: nat)
    requires i == (if k < 2 then 0 else Min(k - 2, 4)) && j == Min(k + 1, 4)
    ensures forall m :: 0 <= m < 4 ==> (DAY * k - LOOKBACK <= DAY * m + 43200 < DAY * (k + 1) <==> i <= m < j)
  {
  }

  lemma Noons(d: int)
    ensures |FourNoons(d)| == 4
    ensures forall m :: 0 <= m < 4 ==> FourNoons(d)[m] == Counters.HourRow(DAY * m + 43200, m * d, 1)
  {
  }

  lemma StepsOfNoons(d: int, modulus: int) returns (r0: DeltaRow, r1: DeltaRow, r2: DeltaRow, r3: DeltaRow)
    requires d > 1000
    ensures Ladder(FourNoons(d), modulus) == [r0] + ([r1] + ([r2] + ([r3] + [])))
    ensures r0.delta.None? && r1.delta == r2.delta == r3.delta == Some(d)
    ensures 0 <= r1.hb && 0 <= r2.hb && 0 <= r3.hb
  {
    var r := Ladder(FourNoons(d), modulus);
    r0, r1, r2, r3 := r[0], r[1], r[2], r[3];
  }

  /** Three equal steps stay, and nothing else is there. */
  lemma ThreeStepsStay(r0: DeltaRow, r1: DeltaRow, r2: DeltaRow, r3: DeltaRow, d: int)
    requires r0.delta.None? && r1.delta == r2.delta == r3.delta == Some(d) && d > 1000
    ensures Clean([r0] + ([r1] + ([r2] + ([r3] + [])))) == [r1] + ([r2] + ([r3] + []))
  {
    var rows := [r0] + ([r1] + ([r2] + ([r3] + [])));
    PositivesCons(r3, []);
    PositivesCons(r2, [r3] + []);
    PositivesCons(r1, [r2] + ([r3] + []));
    PositivesCons(r0, [r1] + ([r2] + ([r3] + [])));
    assert Positives(rows) == [d, d, d];
    SteadyStepsAreKept(rows, d);
  }

  lemma {:induction false} SinceAll(rows: seq<DeltaRow>, from: int)
    requires forall i :: 0 <= i < |rows| ==> from <= rows[i].hb
    ensures Since(rows, from) == rows
  {
    if rows != [] {
      SinceAll(rows[1..], from);
    }
  }

  lemma WeekOfNoons(d: int, modulus: int)
    requires d > 1000
    ensures Total(QueryRows(FourNoons(d), modulus, 0, 7 * DAY)) == 3 * d
  {
    WindowOfSome(FourNoons(d), -LOOKBACK, 7 * DAY, 0, 4);
    assert FourNoons(d)[0..4] == FourNoons(d);
    var r0, r1, r2, r3 := StepsOfNoons(d, modulus);
    hide Ladder, FourNoons, Window, Clean;
    ThreeStepsStay(r0, r1, r2, r3, d);
    var kept := [r1] + ([r2] + ([r3] + []));
    SinceAll(kept, 0);
    TotalHead(r3, []);
    TotalHead(r2, [r3] + []);
    TotalHead(r1, [r2] + ([r3] + []));
  }

  /**
   * They do disagree: of a week with three steps of d > 1000 counts on three days, the week page shows all
   * and no day page shows anything: with the lookback a day never sees the three steps a median needs.
   */
  lemma DayTotalsNeedNotSumToThePage(d: int, modulus: int)
    requires d > 1000
    ensures Total(QueryRows(FourNoons(d), modulus, 0, 7 * DAY)) == 3 * d
    ensures forall k :: 0 <= k < 7 ==> Total(QueryRows(FourNoons(d), modulus, DAY * k, DAY * (k + 1))) == 0
  {
    WeekOfNoons(d, modulus);
    forall k | 0 <= k < 7 ensures Total(QueryRows(FourNoons(d), modulus, DAY * k, DAY * (k + 1))) == 0 {
      DayOfNoons(d, modulus, k);
    }
  }

  /** A meter silent for four days, then c counts on. */
  function LateReturn(c: int): seq<Counters.HourRow> {
    [Counters.HourRow(0, 0, 1), Counters.HourRow(4 * DAY + 43200, c, 1)]
  }

  lemma FewHoursFloor(hours: seq<Counters.HourRow>, modulus: int)
    requires |hours| < 3
    ensures Cutoff(Ladder(hours, modulus)) == 1000.0
  {
    FewPositives(Ladder(hours, modulus));
  }

  lemma LateReturnDay(c: int, modulus: int)
    ensures WindowCutoff(LateReturn(c), modulus, 4 * DAY, 5 * DAY) == 1000.0
    ensures Total(QueryRows(LateReturn(c), modulus, 4 * DAY, 5 * DAY)) == 0
  {
    hide Ladder, Cutoff;
    var hours := LateReturn(c);
    WindowOfSome(hours, 4 * DAY - LOOKBACK, 5 * DAY, 1, 2);
    FewHoursFloor(hours[1..2], modulus);
    FewHoursShowNothing(hours[1..2], modulus, 4 * DAY);
  }

  lemma LateReturnLadder(c: int, modulus: int) returns (r0: DeltaRow, r1: DeltaRow)
    requires c > 0
    ensures Ladder(LateReturn(c), modulus) == [r0] + ([r1] + [])
    ensures r0.delta.None? && r1.delta == Some(c) && r1.hb == 4 * DAY + 43200
  {
    var r := Ladder(LateReturn(c), modulus);
    r0, r1 := r[0], r[1];
  }

  lemma LateReturnWeek(c: int, modulus: int)
    requires 0 < c <= 1000
    ensures WindowCutoff(LateReturn(c), modulus, 0, 7 * DAY) == 1000.0
    ensures Total(Share(QueryRows(LateReturn(c), modulus, 0, 7 * DAY), 4 * DAY, 5 * DAY)) == c
  {
    var hours := LateReturn(c);
    WindowOfSome(hours, -LOOKBACK, 7 * DAY, 0, 2);
    assert hours[0..2] == hours;
    var r0, r1 := LateReturnLadder(c, modulus);
    FewHoursFloor(hours, modulus);
    hide Ladder, Cutoff, Window, QueryRows, LateReturn;
    LongPage(hours, modulus, 0, 7 * DAY, 4 * DAY, 5 * DAY);
    KeptHead(r0, [r1] + [], 1000.0, 4 * DAY, 5 * DAY);
    KeptHead(r1, [], 1000.0, 4 * DAY, 5 * DAY);
  }

  /**
   * And with equal cutoffs too: the week page steps from the older hour; on the day's own page that hour is
   * out of the lookback's reach and the step is lost.
   */
  lemma DayPageCanLoseItsFirstStep(c: int, modulus: int)
    requires 0 < c <= 1000
    ensures WindowCutoff(LateReturn(c), modulus, 4 * DAY, 5 * DAY) == WindowCutoff(LateReturn(c), modulus, 0, 7 * DAY)
    ensures Total(QueryRows(LateReturn(c), modulus, 4 * DAY, 5 * DAY)) == 0
    ensures Total(Share(QueryRows(LateReturn(c), modulus, 0, 7 * DAY), 4 * DAY, 5 * DAY)) == c
  {
    hide WindowCutoff, QueryRows;
    LateReturnDay(c, modulus);
    LateReturnWeek(c, modulus);
  }
}
