/** One page of a meter's consumption: its slots, the join of hourly rows to slots, and its totals. */
module Consumption {
  import opened Common
  import opened Calendar
  import Counters
  import opened Glitch

  const HOUR: int := 3600
  const LOOKBACK: int := 48 * 3600

  /** The join key: the UTC hour, the local date, or the local month. */
  datatype Key = HourKey(hour: int) | DayKey(day: int) | MonthKey(month: int)

  datatype Slot = Slot(key: Key, start: int)

  function TruncateHour(t: int): int {
    t - t % HOUR
  }

  function SlotCount(view: View, zone: Zone, start: int): int {
    match view
    case Day => (zone(start + 1) - TruncateHour(zone(start)) + HOUR - 1) / HOUR
    case Year => 12
    case _ => PeriodNext(view, start) - start
  }

  function SlotAt(view: View, zone: Zone, start: int, i: int): Slot {
    match view
    case Day => var t := TruncateHour(zone(start)) + HOUR * i; Slot(HourKey(t), t)
    case Year => Slot(MonthKey(MonthOf(start) + i), zone(MonthStart(MonthOf(start) + i)))
    case _ => Slot(DayKey(start + i), zone(start + i))
  }

  ghost predicate IsPage(view: View, zone: Zone, start: int) {
    Increasing(zone) && IsStart(view, start)
  }

  /** The page's slots are the closed-form ones, in order. */
  ghost predicate AreSlots(slots: seq<Slot>, view: View, zone: Zone, start: int) {
    |slots| == SlotCount(view, zone, start)
    && forall i :: 0 <= i < |slots| ==> slots[i] == SlotAt(view, zone, start, i)
  }

  method HourSlots(zone: Zone, start: int) returns (slots: seq<Slot>)
    requires IsPage(Day, zone, start)
    ensures AreSlots(slots, Day, zone, start)
  {
    slots := [];
    var end := zone(PeriodNext(Day, start));
    var t := TruncateHour(zone(start));
    while t < end
      invariant t == TruncateHour(zone(start)) + HOUR * |slots|
      invariant |slots| <= SlotCount(Day, zone, start)
      invariant forall i :: 0 <= i < |slots| ==> slots[i] == SlotAt(Day, zone, start, i)
      decreases end - t
    {
      slots := slots + [Slot(HourKey(t), t)];
      t := t + HOUR;
    }
  }

  method DaySlots(view: View, zone: Zone, start: int) returns (slots: seq<Slot>)
    requires IsPage(view, zone, start) && (view.Week? || view.Month?)
    ensures AreSlots(slots, view, zone, start)
  {
    hide MonthStart, DaysInMonth, IsStart, AddMonths;
    slots := [];
    var end := zone(PeriodNext(view, start));
    PeriodsTile(view, start, start);
    var d := start;
    while zone(d) < end
      invariant start <= d <= PeriodNext(view, start) && d == start + |slots|
      invariant forall i :: 0 <= i < |slots| ==> slots[i] == SlotAt(view, zone, start, i)
      decreases PeriodNext(view, start) - d
    {
      slots := slots + [Slot(DayKey(d), zone(d))];
      d := d + 1;
    }
  }

  method MonthSlots(zone: Zone, start: int) returns (slots: seq<Slot>)
    requires IsPage(Year, zone, start)
    ensures AreSlots(slots, Year, zone, start)
  {
    hide MonthStart, DaysInMonth, IsStart, AddMonths;
    slots := [];
    var end := zone(PeriodNext(Year, start));
    ghost var first := StartMonth(Year, start);
    var m := MonthOf(start);
    while zone(MonthStart(m)) < end
      invariant m == first + |slots| && |slots| <= 12
      invariant forall i :: 0 <= i < |slots| ==> slots[i] == SlotAt(Year, zone, start, i)
      decreases first + 12 - m
    {
      YearGuard(zone, first, m);
      slots := slots + [Slot(MonthKey(m), zone(MonthStart(m)))];
      m := m + 1;
    }
    YearGuard(zone, first, m);
  }

  /** `consumptionSlots`: step hours, local midnights or month starts while they are before the page's end. */
  method ConsumptionSlots(view: View, zone: Zone, start: int) returns (slots: seq<Slot>)
    requires IsPage(view, zone, start)
    ensures AreSlots(slots, view, zone, start)
  {
    match view
    case Day => slots := HourSlots(zone, start);
    case Year => slots := MonthSlots(zone, start);
    case _ => slots := DaySlots(view, zone, start);
  }

  /** The year loop's guard: month m starts before the end of the year exactly when it is one of the twelve. */
  lemma YearGuard(zone: Zone, first: int, m: int)
    requires Increasing(zone) && first <= m <= first + 12
    ensures zone(MonthStart(m)) < zone(MonthStart(first + 12)) <==> m < first + 12
  {
    if m < first + 12 {
      MonthsAscend(m, first + 12);
    }
  }

  // ---- rows and slots ----------------------------------------------------------------------------

  /** The SQL group key of an hourly row, matching the slots' keys. */
  function RowKey(view: View, zone: Zone, hb: int): Key
    requires Increasing(zone)
  {
    match view
    case Day => HourKey(hb)
    case Year => MonthKey(MonthOf(LocalDay(zone, hb)))
    case _ => DayKey(LocalDay(zone, hb))
  }

  function SlotIndex(view: View, zone: Zone, start: int, hb: int): int
    requires Increasing(zone)
  {
    match view
    case Day => (hb - TruncateHour(zone(start))) / HOUR
    case Year => MonthOf(LocalDay(zone, hb)) - MonthOf(start)
    case _ => LocalDay(zone, hb) - start
  }

  /** An hourly bucket inside the page. */
  ghost predicate OnPage(view: View, zone: Zone, start: int, hb: int) {
    hb % HOUR == 0 && zone(start) <= hb < zone(PeriodNext(view, start))
  }

  function SlotEnd(view: View, zone: Zone, start: int, i: int): int {
    if i + 1 < SlotCount(view, zone, start) then SlotAt(view, zone, start, i + 1).start
    else zone(PeriodNext(view, start))
  }

  /** Slot i is the only one with the row's key, and its time span holds the row. */
  ghost predicate Joins(view: View, zone: Zone, start: int, hb: int, i: int)
    requires Increasing(zone)
  {
    0 <= i < SlotCount(view, zone, start) &&
    SlotAt(view, zone, start, i).start <= hb < SlotEnd(view, zone, start, i) &&
    forall j :: SlotAt(view, zone, start, j).key == RowKey(view, zone, hb) <==> j == i
  }

  /** Every hourly row of the page joins exactly one slot, the one whose time span it falls in. */
  lemma RowJoinsOneSlot(view: View, zone: Zone, start: int, hb: int)
    requires IsPage(view, zone, start) && OnPage(view, zone, start, hb)
    ensures Joins(view, zone, start, hb, SlotIndex(view, zone, start, hb))
  {
    hide Joins, SlotIndex, SlotAt, SlotCount, PeriodNext, IsStart;
    match view
    case Day => HourJoins(zone, start, hb);
    case Year => YearJoins(zone, start, hb);
    case _ => DayJoins(view, zone, start, hb);
  }

  lemma HourJoins(zone: Zone, start: int, hb: int)
    requires IsPage(Day, zone, start) && OnPage(Day, zone, start, hb)
    ensures Joins(Day, zone, start, hb, SlotIndex(Day, zone, start, hb))
  {
  }

  lemma DayJoins(view: View, zone: Zone, start: int, hb: int)
    requires (view.Week? || view.Month?) && IsPage(view, zone, start) && OnPage(view, zone, start, hb)
    ensures Joins(view, zone, start, hb, SlotIndex(view, zone, start, hb))
  {
    hide PeriodNext, IsStart;
    LocalDayWithin(zone, hb, start, PeriodNext(view, start));
  }

  lemma YearJoins(zone: Zone, start: int, hb: int)
    requires IsPage(Year, zone, start) && OnPage(Year, zone, start, hb)
    ensures Joins(Year, zone, start, hb, SlotIndex(Year, zone, start, hb))
  {
    hide MonthStart, DaysInMonth, IsStart, AddMonths, LocalDay, MonthOf, PeriodNext;
    LocalDayWithin(zone, hb, start, PeriodNext(Year, start));
    var first := StartMonth(Year, start);
    var d := LocalDay(zone, hb);
    MonthInYearOf(first, d);
    DayInMonthSpan(zone, hb, d, MonthOf(d));
  }

  lemma MonthInYearOf(first: int, day: int)
    requires MonthStart(first) <= day < MonthStart(first + 12)
    ensures first <= MonthOf(day) < first + 12
  {
    hide MonthStart, DaysInMonth;
    var m := MonthOf(day);
    if m < first {
      MonthsAtMost(m + 1, first);
    }
    if m >= first + 12 {
      MonthsAtMost(first + 12, m);
    }
  }

  /** An instant of a day lies between the starts of the day's month and of the next. */
  lemma DayInMonthSpan(zone: Zone, t: int, day: int, m: int)
    requires Increasing(zone) && zone(day) <= t < zone(day + 1) && MonthStart(m) <= day < MonthStart(m + 1)
    ensures zone(MonthStart(m)) <= t < zone(MonthStart(m + 1))
  {
    hide MonthStart;
    assert MonthStart(m) < day ==> zone(MonthStart(m)) < zone(day);
    assert day + 1 < MonthStart(m + 1) ==> zone(day + 1) < zone(MonthStart(m + 1));
  }

  lemma YearSlots(zone: Zone, start: int, i: nat, j: nat)
    requires IsPage(Year, zone, start) && i < j < 12
    ensures zone(MonthStart(MonthOf(start) + i)) < zone(MonthStart(MonthOf(start) + i + 1))
            <= zone(MonthStart(MonthOf(start) + j)) < zone(PeriodNext(Year, start))
  {
    hide MonthStart, DaysInMonth, AddMonths, IsStart;
    var first := StartMonth(Year, start);
    MonthsAscend(first + i, first + i + 1);
    MonthsAtMost(first + i + 1, first + j);
    MonthsAscend(first + j, first + 12);
  }

  /** Two slots of a page: the first ends by the start of the second, both start before the page's end, and the keys differ. */
  ghost predicate Apart(view: View, zone: Zone, start: int, i: nat, j: nat) {
    SlotAt(view, zone, start, i).start < SlotEnd(view, zone, start, i) <= SlotAt(view, zone, start, j).start
      < zone(PeriodNext(view, start)) &&
    SlotAt(view, zone, start, i).key != SlotAt(view, zone, start, j).key
  }

  lemma HoursApart(zone: Zone, start: int, i: nat, j: nat)
    requires IsPage(Day, zone, start) && i < j < SlotCount(Day, zone, start)
    ensures Apart(Day, zone, start, i, j)
  {
    LastHourStarts(zone(start + 1) - TruncateHour(zone(start)), j);
  }

  /** An hour counted in the rounded-up length of a day starts before the day's end. */
  lemma LastHourStarts(length: int, j: nat)
    requires j < (length + HOUR - 1) / HOUR
    ensures HOUR * j < length
  {
  }

  lemma DaysApart(view: View, zone: Zone, start: int, i: nat, j: nat)
    requires IsPage(view, zone, start) && (view.Week? || view.Month?) && i < j < SlotCount(view, zone, start)
    ensures Apart(view, zone, start, i, j)
  {
    hide PeriodNext, IsStart;
    assert start + i < start + i + 1 && start + j < PeriodNext(view, start);
    assert zone(start + i) < zone(start + i + 1);
    assert start + i + 1 < start + j ==> zone(start + i + 1) < zone(start + j);
    assert zone(start + j) < zone(PeriodNext(view, start));
  }

  lemma MonthsApart(zone: Zone, start: int, i: nat, j: nat)
    requires IsPage(Year, zone, start) && i < j < SlotCount(Year, zone, start)
    ensures Apart(Year, zone, start, i, j)
  {
    hide MonthStart, MonthOf, PeriodNext, IsStart, Increasing;
    YearSlots(zone, start, i, j);
  }

  lemma YearStart(zone: Zone, start: int)
    requires IsPage(Year, zone, start)
    ensures MonthStart(MonthOf(start)) == start
  {
    hide MonthStart, MonthOf, IsStart, Increasing;
    var first := StartMonth(Year, start);
  }

  /** The slots follow each other without overlap, in every zone. */
  lemma SlotsApart(view: View, zone: Zone, start: int, i: nat, j: nat)
    requires IsPage(view, zone, start) && i < j < SlotCount(view, zone, start)
    ensures Apart(view, zone, start, i, j)
  {
    hide SlotAt, Apart, SlotCount, IsStart, Increasing;
    match view
    case Day => HoursApart(zone, start, i, j);
    case Year => MonthsApart(zone, start, i, j);
    case _ => DaysApart(view, zone, start, i, j);
  }

  lemma FirstSlotStarts(view: View, zone: Zone, start: int)
    requires IsPage(view, zone, start) && (view.Day? ==> zone(start) % HOUR == 0)
    ensures SlotAt(view, zone, start, 0).start == zone(start)
  {
    hide MonthStart, MonthOf, IsStart, Increasing;
    if view.Year? {
      YearStart(zone, start);
    }
  }

  /**
   * The slots start with the page, follow each other without overlap and end with it; their keys are distinct.
   * Only the day view, which steps UTC hours, needs a whole-hour zone for it.
   */
  lemma SlotsPartitionThePage(view: View, zone: Zone, start: int, i: nat, j: nat)
    requires IsPage(view, zone, start) && (view.Day? ==> zone(start) % HOUR == 0)
    requires i < j < SlotCount(view, zone, start)
    ensures Apart(view, zone, start, i, j) && SlotAt(view, zone, start, 0).start == zone(start)
  {
    hide SlotAt, Apart, SlotCount, IsStart, Increasing;
    SlotsApart(view, zone, start, i, j);
    FirstSlotStarts(view, zone, start);
  }

  /** 7 slots a week, as many as the month has days, 12 a year, and one per elapsed hour of the day (23 and 25 included). */
  lemma SlotCounts(view: View, zone: Zone, start: int)
    requires IsPage(view, zone, start)
    ensures view.Week? ==> SlotCount(view, zone, start) == 7
    ensures view.Month? ==> SlotCount(view, zone, start) == DaysInMonth(MonthOf(start))
    ensures view.Year? ==> SlotCount(view, zone, start) == 12
    ensures view.Day? && zone(start) % 3600 == 0 && zone(start + 1) % 3600 == 0
            ==> 3600 * SlotCount(view, zone, start) == zone(start + 1) - zone(start)
  {
    hide DaysInMonth, MonthStart;
    if view.Month? {
      var m := StartMonth(view, start);
      MonthLength(m);
    }
  }

  /** The day view's first slot is the page's first instant exactly in a whole-hour zone; elsewhere a day gets a 25th slot. */
  lemma DayViewNeedsWholeHours(zone: Zone, start: int)
    requires IsPage(Day, zone, start)
    ensures SlotAt(Day, zone, start, 0).start == zone(start) <==> zone(start) % 3600 == 0
    ensures zone(start + 1) == zone(start) + 24 * 3600 ==>
              SlotCount(Day, zone, start) == if zone(start) % 3600 == 0 then 24 else 25
  {
  }

  /**
   * Where the slots start: on a day at every whole hour from the one its first instant lies in, until its end is
   * reached; on a week or month at every local midnight; on a year at the first midnight of each month.
   */
  lemma SlotStarts(view: View, zone: Zone, start: int, i: nat)
    requires IsPage(view, zone, start) && i < SlotCount(view, zone, start)
    ensures var s, n := SlotAt(view, zone, start, i), SlotCount(view, zone, start);
      match view
      case Day =>
        s.start % 3600 == 0 && s.key == HourKey(s.start) && 0 <= zone(start) + 3600 * i - s.start < 3600 &&
        0 <= s.start + 3600 * (n - i) - zone(start + 1) < 3600
      case Year =>
        s.start == zone(MonthStart(MonthOf(start) + i)) && MonthStart(MonthOf(start)) == start &&
        s.key == MonthKey(MonthOf(start) + i)
      case _ => s.start == zone(start + i) && s.key == DayKey(start + i)
  {
    hide MonthStart, MonthOf, IsStart, Increasing, PeriodNext;
    if view.Year? {
      YearStart(zone, start);
    } else if view.Day? {
      HourStarts(zone(start), zone(start + 1), i);
    }
  }

  lemma HourStarts(from: int, to: int, i: nat)
    ensures var first := TruncateHour(from);
      var n := (to - first + HOUR - 1) / HOUR;
      (first + HOUR * i) % 3600 == 0 && 0 <= from - first < 3600 && 0 <= first + 3600 * n - to < 3600
  {
  }

  // ---- totals ------------------------------------------------------------------------------------

  /** `sum(delta) ... GROUP BY g` for one key. */
  function GroupSum(view: View, zone: Zone, rows: seq<DeltaRow>, key: Key): int
    requires Increasing(zone)
  {
    if rows == [] then 0
    else (if RowKey(view, zone, rows[0].hb) == key then Units(rows[0]) else 0) + GroupSum(view, zone, rows[1..], key)
  }

  /** The group exists: some row of the page has this key. */
  predicate Heard(view: View, zone: Zone, rows: seq<DeltaRow>, key: Key)
    requires Increasing(zone)
  {
    rows != [] && (RowKey(view, zone, rows[0].hb) == key || Heard(view, zone, rows[1..], key))
  }

  function SumSlots(view: View, zone: Zone, start: int, rows: seq<DeltaRow>, n: nat): int
    requires Increasing(zone)
  {
    if n == 0 then 0
    else SumSlots(view, zone, start, rows, n - 1) + GroupSum(view, zone, rows, SlotAt(view, zone, start, n - 1).key)
  }

  function HeardSlots(view: View, zone: Zone, start: int, rows: seq<DeltaRow>, n: nat): nat
    requires Increasing(zone)
  {
    if n == 0 then 0
    else HeardSlots(view, zone, start, rows, n - 1)
         + (if Heard(view, zone, rows, SlotAt(view, zone, start, n - 1).key) then 1 else 0)
  }

  ghost predicate RowsOnPage(view: View, zone: Zone, start: int, rows: seq<DeltaRow>) {
    forall i :: 0 <= i < |rows| ==> OnPage(view, zone, start, rows[i].hb)
  }

  lemma {:induction false} OneRowOneSlot(view: View, zone: Zone, start: int, rows: seq<DeltaRow>, n: nat)
    requires rows != [] && IsPage(view, zone, start) && OnPage(view, zone, start, rows[0].hb)
    ensures SumSlots(view, zone, start, rows, n)
            == SumSlots(view, zone, start, rows[1..], n)
               + (if SlotIndex(view, zone, start, rows[0].hb) < n then Units(rows[0]) else 0)
  {
    hide SlotAt, SlotIndex, RowKey, OnPage, IsPage;
    RowJoinsOneSlot(view, zone, start, rows[0].hb);
    if n > 0 {
      OneRowOneSlot(view, zone, start, rows, n - 1);
    }
  }

  lemma {:induction false} NoRowsNoUnits(view: View, zone: Zone, start: int, n: nat)
    requires Increasing(zone)
    ensures SumSlots(view, zone, start, [], n) == 0 && HeardSlots(view, zone, start, [], n) == 0
  {
    hide SlotAt, Increasing;
    if n > 0 {
      NoRowsNoUnits(view, zone, start, n - 1);
    }
  }

  /** Nothing is lost or counted twice between the rows of a page and its slots. */
  lemma {:induction false} SlotsConserveUnits(view: View, zone: Zone, start: int, rows: seq<DeltaRow>, n: nat)
    requires IsPage(view, zone, start) && RowsOnPage(view, zone, start, rows) && n == SlotCount(view, zone, start)
    ensures SumSlots(view, zone, start, rows, n) == Total(rows)
    ensures HeardSlots(view, zone, start, rows, n) > 0 <==> rows != []
  {
    if rows == [] {
      NoRowsNoUnits(view, zone, start, n);
    } else {
      SlotsConserveUnits(view, zone, start, rows[1..], n);
      OneRowOneSlot(view, zone, start, rows, n);
      RowJoinsOneSlot(view, zone, start, rows[0].hb);
      SlotIsHeard(view, zone, start, rows, SlotIndex(view, zone, start, rows[0].hb), n);
    }
  }

  lemma {:induction false} SlotIsHeard(view: View, zone: Zone, start: int, rows: seq<DeltaRow>, i: nat, n: nat)
    requires Increasing(zone) && i < n && Heard(view, zone, rows, SlotAt(view, zone, start, i).key)
    ensures HeardSlots(view, zone, start, rows, n) > 0
  {
    hide SlotAt, Increasing, Heard;
    if i + 1 < n {
      SlotIsHeard(view, zone, start, rows, i, n - 1);
    }
  }

  // ---- the query and the page ---------------------------------------------------------------------

  /** `WHERE r.bucket >= from AND r.bucket < to`. */
  function Window(hours: seq<Counters.HourRow>, from: int, to: int): seq<Counters.HourRow> {
    if hours == [] then []
    else (if from <= hours[0].hb < to then [hours[0]] else []) + Window(hours[1..], from, to)
  }

  /** lag and rollover-aware delta over a window. */
  function Ladder(hours: seq<Counters.HourRow>, modulus: int): (rows: seq<DeltaRow>)
    ensures |rows| == |hours| && forall i :: 0 <= i < |rows| ==> rows[i].hb == hours[i].hb
  {
    seq(|hours|, i requires 0 <= i < |hours| => DeltaRow(hours[i].hb, hours[i].n, Counters.Delta(hours, i, modulus)))
  }

  /** `WHERE hb >= from`. */
  function Since(rows: seq<DeltaRow>, from: int): seq<DeltaRow> {
    if rows == [] then [] else (if rows[0].hb >= from then [rows[0]] else []) + Since(rows[1..], from)
  }

  /** `glitch_clean` over [from - 48h, to), from `from` on. */
  function QueryRows(hours: seq<Counters.HourRow>, modulus: int, from: int, to: int): seq<DeltaRow> {
    Since(Clean(Ladder(Window(hours, from - LOOKBACK, to), modulus)), from)
  }

  ghost predicate Aligned(hours: seq<Counters.HourRow>) {
    forall i :: 0 <= i < |hours| ==> hours[i].hb % HOUR == 0
  }

  ghost predicate Between(rows: seq<DeltaRow>, from: int, to: int) {
    forall i :: 0 <= i < |rows| ==> rows[i].hb % HOUR == 0 && from <= rows[i].hb < to
  }

  lemma {:induction false} WindowWithin(hours: seq<Counters.HourRow>, from: int, to: int)
    ensures Aligned(hours) ==> Aligned(Window(hours, from, to))
    ensures forall i :: 0 <= i < |Window(hours, from, to)| ==> from <= Window(hours, from, to)[i].hb < to
  {
    if hours != [] {
      WindowWithin(hours[1..], from, to);
    }
  }

  lemma {:induction false} KeptWithin(rows: seq<DeltaRow>, cut: real, from: int, to: int)
    requires Between(rows, from, to)
    ensures Between(KeepUpTo(rows, cut), from, to)
  {
    if rows != [] {
      KeptWithin(rows[1..], cut, from, to);
    }
  }

  lemma {:induction false} SinceWithin(rows: seq<DeltaRow>, low: int, from: int, to: int)
    requires Between(rows, low, to)
    ensures Between(Since(rows, from), from, to)
  {
    if rows != [] {
      SinceWithin(rows[1..], low, from, to);
    }
  }

  lemma QueryRowsOnPage(hours: seq<Counters.HourRow>, modulus: int, view: View, zone: Zone, start: int)
    requires Aligned(hours)
    ensures RowsOnPage(view, zone, start, QueryRows(hours, modulus, zone(start), zone(PeriodNext(view, start))))
  {
    hide MonthStart, DaysInMonth, AddMonths, PeriodNext, Cutoff;
    var from, to := zone(start), zone(PeriodNext(view, start));
    WindowWithin(hours, from - LOOKBACK, to);
    var rows := Ladder(Window(hours, from - LOOKBACK, to), modulus);
    KeptWithin(rows, Cutoff(rows), from - LOOKBACK, to);
    SinceWithin(Clean(rows), from - LOOKBACK, from, to);
  }

  lemma {:induction false} WindowOfSome(hours: seq<Counters.HourRow>, from: int, to: int, i: nat, j: nat)
    requires i <= j <= |hours| && forall m :: 0 <= m < |hours| ==> (from <= hours[m].hb < to <==> i <= m < j)
    ensures Window(hours, from, to) == hours[i..j]
  {
    if hours != [] {
      var tail := hours[1..];
      var p, q := if i > 0 then i - 1 else 0, if j > 0 then j - 1 else 0;
      forall m | 0 <= m < |tail| ensures from <= tail[m].hb < to <==> p <= m < q {
        assert tail[m] == hours[m + 1];
      }
      WindowOfSome(tail, from, to, p, q);
      SliceOfTail(hours, i, j);
    }
  }

  lemma SliceOfTail(hours: seq<Counters.HourRow>, i: nat, j: nat)
    requires hours != [] && i <= j <= |hours|
    ensures hours[i..j] == (if i == 0 < j then [hours[0]] else []) +
      hours[1..][if i > 0 then i - 1 else 0..if j > 0 then j - 1 else 0]
  {
  }

  lemma {:induction false} SinceMembers(rows: seq<DeltaRow>, from: int, r: DeltaRow)
    ensures multiset(Since(rows, from))[r] == if r.hb >= from then multiset(rows)[r] else 0
  {
    if rows != [] {
      SinceMembers(rows[1..], from, r);
      assert rows == [rows[0]] + rows[1..];
    }
  }

  /** What the hours i to j of a meter step by: nothing at the first of them, then from hour to hour. */
  ghost predicate AreSteps(steps: seq<DeltaRow>, hours: seq<Counters.HourRow>, i: nat, j: nat, modulus: int)
    requires i <= j <= |hours|
  {
    |steps| == j - i &&
    forall k :: i <= k < j ==> steps[k - i] == DeltaRow(hours[k].hb, hours[k].n,
      if k == i then None else Counters.RolloverDelta(hours[k].cmax - hours[k - 1].cmax, modulus))
  }

  /**
   * With the hours from 48 hours (172800 s) before `from` up to `to` being those from i to j, the query returns the
   * steps among them that are known, within the cutoff over all of them, and not before `from`.
   */
  lemma QueryRowsAre(hours: seq<Counters.HourRow>, modulus: int, from: int, to: int, i: nat, j: nat, steps: seq<DeltaRow>,
                     r: DeltaRow)
    requires i <= j <= |hours|
    requires forall m :: 0 <= m < |hours| ==> (from - 172_800 <= hours[m].hb < to <==> i <= m < j)
    requires AreSteps(steps, hours, i, j, modulus)
    ensures multiset(QueryRows(hours, modulus, from, to))[r] ==
      if r.hb >= from && r.delta.Some? && r.delta.value as real <= Cutoff(steps) then multiset(steps)[r] else 0
  {
    hide Cutoff, AreSteps, Ladder, KeepUpTo, Since, Window;
    WindowOfSome(hours, from - LOOKBACK, to, i, j);
    StepsAreLadder(steps, hours, i, j, modulus);
    KeptMembers(steps, Cutoff(steps), r);
    SinceMembers(Clean(steps), from, r);
  }

  lemma StepsAreLadder(steps: seq<DeltaRow>, hours: seq<Counters.HourRow>, i: nat, j: nat, modulus: int)
    requires i <= j <= |hours| && AreSteps(steps, hours, i, j, modulus)
    ensures steps == Ladder(hours[i..j], modulus)
  {
    var window := hours[i..j];
    forall k | 0 <= k < |steps| ensures steps[k] == Ladder(window, modulus)[k] {
      assert steps[k + i - i] == steps[k] && window[k] == hours[k + i];
    }
  }

  /** The unrounded units of the page that the anchor date `at` opens; None when nothing was heard. */
  function PageUnits(hours: seq<Counters.HourRow>, modulus: int, view: View, zone: Zone, at: int): Option<int> {
    var start := PeriodStart(view, at);
    var rows := QueryRows(hours, modulus, zone(start), zone(PeriodNext(view, start)));
    if rows == [] then None else Some(Total(rows))
  }

  lemma {:induction false} TotalOfConcat(a: seq<DeltaRow>, b: seq<DeltaRow>)
    ensures Total(a + b) == Total(a) + Total(b)
  {
    if a == [] {
      assert a + b == b;
    } else {
      assert (a + b)[1..] == a[1..] + b;
      TotalOfConcat(a[1..], b);
    }
  }

  lemma TotalOfOne(r: DeltaRow)
    ensures Total([r]) == if r.delta.Some? then r.delta.value else 0
  {
    assert [r][1..] == [];
  }

  lemma TotalHead(r: DeltaRow, rest: seq<DeltaRow>)
    ensures Total([r] + rest) == Units(r) + Total(rest)
  {
    assert ([r] + rest)[1..] == rest;
  }

  /** The rows of a result that fall into [from, to). */
  function Share(rows: seq<DeltaRow>, from: int, to: int): seq<DeltaRow> {
    if rows == [] then [] else (if from <= rows[0].hb < to then [rows[0]] else []) + Share(rows[1..], from, to)
  }

  lemma ShareTotal(rows: seq<DeltaRow>, from: int, to: int)
    requires rows != []
    ensures Total(Share(rows, from, to)) ==
      (if from <= rows[0].hb < to then Units(rows[0]) else 0) + Total(Share(rows[1..], from, to))
  {
    var rest := Share(rows[1..], from, to);
    assert [] + rest == rest;
    TotalHead(rows[0], rest);
  }

  /** A share is exactly the rows of its span, each as often. */
  lemma {:induction false} ShareMembers(rows: seq<DeltaRow>, from: int, to: int, r: DeltaRow)
    ensures multiset(Share(rows, from, to))[r] == if from <= r.hb < to then multiset(rows)[r] else 0
  {
    if rows != [] {
      ShareMembers(rows[1..], from, to, r);
      assert rows == [rows[0]] + rows[1..];
    }
  }

  /** A row of the page has a slot's key exactly when it lies in the slot's span. */
  lemma KeyIsSpan(view: View, zone: Zone, start: int, i: nat, hb: int)
    requires IsPage(view, zone, start) && OnPage(view, zone, start, hb) && i < SlotCount(view, zone, start)
    ensures RowKey(view, zone, hb) == SlotAt(view, zone, start, i).key <==>
      SlotAt(view, zone, start, i).start <= hb < SlotEnd(view, zone, start, i)
  {
    hide SlotAt, SlotCount, SlotEnd, RowKey, SlotIndex, IsStart, OnPage;
    var k := SlotIndex(view, zone, start, hb);
    RowJoinsOneSlot(view, zone, start, hb);
    if i < k {
      SlotsApart(view, zone, start, i, k);
    } else if k < i {
      SlotsApart(view, zone, start, k, i);
    }
  }

  /** A slot's group is its span's share of the rows. */
  lemma {:induction false} GroupIsShare(view: View, zone: Zone, start: int, rows: seq<DeltaRow>, i: nat)
    requires IsPage(view, zone, start) && RowsOnPage(view, zone, start, rows) && i < SlotCount(view, zone, start)
    ensures var s := SlotAt(view, zone, start, i);
      var mine := Share(rows, s.start, SlotEnd(view, zone, start, i));
      GroupSum(view, zone, rows, s.key) == Total(mine) && (Heard(view, zone, rows, s.key) <==> mine != [])
  {
    hide SlotAt, SlotCount, SlotEnd, RowKey, IsPage, OnPage, Total, Units;
    if rows == [] {
      NoRowsNoTotal();
    } else {
      GroupIsShare(view, zone, start, rows[1..], i);
      KeyIsSpan(view, zone, start, i, rows[0].hb);
      ShareTotal(rows, SlotAt(view, zone, start, i).start, SlotEnd(view, zone, start, i));
    }
  }

  lemma NoRowsNoTotal()
    ensures Total([]) == 0
  {
  }

  function Times(units: int, mult: real): real {
    units as real * mult
  }

  lemma TimesAdds(a: int, b: int, mult: real)
    ensures Times(a, mult) == a as real * mult && Times(a + b, mult) == Times(a, mult) + Times(b, mult)
  {
  }

  function Scaled(units: Option<int>, mult: real): Option<real> {
    match units case Some(u) => Some(Times(u, mult)) case None => None
  }

  datatype Bucket = Bucket(start: int, value: Option<real>)

  function BucketOf(view: View, zone: Zone, rows: seq<DeltaRow>, s: Slot, mult: real): Bucket
    requires Increasing(zone)
  {
    Bucket(s.start, if Heard(view, zone, rows, s.key) then Some(Times(GroupSum(view, zone, rows, s.key), mult)) else None)
  }

  ghost predicate AreBuckets(buckets: seq<Bucket>, view: View, zone: Zone, rows: seq<DeltaRow>, slots: seq<Slot>, mult: real)
    requires Increasing(zone)
  {
    |buckets| == |slots| && forall i :: 0 <= i < |slots| ==> buckets[i] == BucketOf(view, zone, rows, slots[i], mult)
  }

  /** Moving on by one slot adds that slot's units and counts it when something was heard in it. */
  lemma NextSlot(view: View, zone: Zone, start: int, rows: seq<DeltaRow>, slots: seq<Slot>, i: nat, mult: real)
    requires IsPage(view, zone, start) && AreSlots(slots, view, zone, start) && i < |slots|
    ensures Times(SumSlots(view, zone, start, rows, i + 1), mult)
            == Times(SumSlots(view, zone, start, rows, i), mult) + Times(GroupSum(view, zone, rows, slots[i].key), mult)
    ensures HeardSlots(view, zone, start, rows, i + 1)
            == HeardSlots(view, zone, start, rows, i) + (if Heard(view, zone, rows, slots[i].key) then 1 else 0)
    ensures !Heard(view, zone, rows, slots[i].key) ==> Times(GroupSum(view, zone, rows, slots[i].key), mult) == 0.0
  {
    hide SlotAt, SlotCount, Increasing, IsStart, Heard, GroupSum;
    TimesAdds(SumSlots(view, zone, start, rows, i), GroupSum(view, zone, rows, slots[i].key), mult);
    if !Heard(view, zone, rows, slots[i].key) {
      UnheardIsZero(view, zone, rows, slots[i].key);
    }
  }

  /** The page loop: one bucket per slot, a running total, and how many slots have data. */
  method FillBuckets(view: View, zone: Zone, start: int, rows: seq<DeltaRow>, slots: seq<Slot>, mult: real)
    returns (buckets: seq<Bucket>, total: Option<real>, covered: nat)
    requires IsPage(view, zone, start) && RowsOnPage(view, zone, start, rows) && AreSlots(slots, view, zone, start)
    ensures AreBuckets(buckets, view, zone, rows, slots, mult)
    ensures (total.Some? <==> rows != []) && (total.Some? ==> total.value == Times(Total(rows), mult) == SumOf(buckets))
    ensures covered == HeardSlots(view, zone, start, rows, |slots|) == |Shown(buckets)|
  {
    hide SlotAt, SlotCount, Times, Heard, GroupSum, Increasing, IsStart, RowsOnPage, Total;
    assert SumSlots(view, zone, start, rows, 0) == 0 && HeardSlots(view, zone, start, rows, 0) == 0;
    assert Times(0, mult) == 0.0 by { TimesAdds(0, 0, mult); }
    hide SumSlots, HeardSlots;
    buckets, covered := [], 0;
    var sum, haveData := 0.0, false;
    for i := 0 to |slots|
      invariant |buckets| == i && covered == HeardSlots(view, zone, start, rows, i) == |Shown(buckets)|
      invariant haveData <==> covered > 0
      invariant sum == Times(SumSlots(view, zone, start, rows, i), mult) == SumOf(buckets)
      invariant forall k :: 0 <= k < i ==> buckets[k] == BucketOf(view, zone, rows, slots[k], mult)
    {
      var s := slots[i];
      ghost var before := buckets;
      NextSlot(view, zone, start, rows, slots, i, mult);
      if Heard(view, zone, rows, s.key) {
        var v := Times(GroupSum(view, zone, rows, s.key), mult);
        buckets := buckets + [Bucket(s.start, Some(v))];
        sum := sum + v;
        haveData := true;
        covered := covered + 1;
      } else {
        buckets := buckets + [Bucket(s.start, None)];
      }
      assert buckets[..|buckets| - 1] == before;
      OneMoreShown(before, buckets[i]);
    }
    SlotsConserveUnits(view, zone, start, rows, |slots|);
    total := if haveData then Some(sum) else None;
  }

  lemma {:induction false} UnheardIsZero(view: View, zone: Zone, rows: seq<DeltaRow>, key: Key)
    requires Increasing(zone) && !Heard(view, zone, rows, key)
    ensures GroupSum(view, zone, rows, key) == 0
  {
    if rows != [] {
      UnheardIsZero(view, zone, rows[1..], key);
    }
  }

  /** The present values of the buckets, added up. */
  function SumOf(buckets: seq<Bucket>): real {
    if buckets == [] then 0.0
    else
      var n := |buckets| - 1;
      SumOf(buckets[..n]) + match buckets[n].value case Some(v) => v case None => 0.0
  }

  /** The buckets that show a value. */
  function Shown(buckets: seq<Bucket>): set<int> {
    set i | 0 <= i < |buckets| && buckets[i].value.Some?
  }

  lemma OneMoreShown(buckets: seq<Bucket>, b: Bucket)
    ensures |Shown(buckets + [b])| == |Shown(buckets)| + if b.value.Some? then 1 else 0
  {
    var more := buckets + [b];
    if b.value.Some? {
      assert Shown(more) == Shown(buckets) + {|buckets|};
    } else {
      assert Shown(more) == Shown(buckets);
    }
  }

  /**
   * What a page shows, slot by slot: a value exactly where some row falls into the slot's span, and then the
   * sum of exactly those rows' deltas in the meter's unit.
   */
  ghost predicate Shows(buckets: seq<Bucket>, view: View, zone: Zone, start: int, rows: seq<DeltaRow>, mult: real) {
    |buckets| == SlotCount(view, zone, start) &&
    forall i :: 0 <= i < |buckets| ==> ShowsSlot(buckets[i], view, zone, start, rows, mult, i)
  }

  ghost predicate ShowsSlot(b: Bucket, view: View, zone: Zone, start: int, rows: seq<DeltaRow>, mult: real, i: nat) {
    var from, to := SlotAt(view, zone, start, i).start, SlotEnd(view, zone, start, i);
    b.start == from &&
    (b.value.Some? <==> exists r :: r in rows && from <= r.hb < to) &&
    (b.value.Some? ==> b.value.value == Total(Share(rows, from, to)) as real * mult)
  }

  lemma BucketShowsSlot(view: View, zone: Zone, start: int, rows: seq<DeltaRow>, mult: real, i: nat)
    requires IsPage(view, zone, start) && RowsOnPage(view, zone, start, rows) && i < SlotCount(view, zone, start)
    ensures ShowsSlot(BucketOf(view, zone, rows, SlotAt(view, zone, start, i), mult), view, zone, start, rows, mult, i)
  {
    hide SlotAt, SlotCount, SlotEnd, Heard, GroupSum, IsPage, RowsOnPage, Total;
    GroupIsShare(view, zone, start, rows, i);
    ShareIsHeard(rows, SlotAt(view, zone, start, i).start, SlotEnd(view, zone, start, i));
  }

  lemma {:induction false} ShareIsHeard(rows: seq<DeltaRow>, from: int, to: int)
    ensures Share(rows, from, to) != [] <==> exists r :: r in rows && from <= r.hb < to
  {
    if rows != [] {
      ShareIsHeard(rows[1..], from, to);
      assert rows == [rows[0]] + rows[1..];
      assert forall r :: r in rows <==> r == rows[0] || r in rows[1..];
    }
  }

  /** The previous-period tile runs its own query over [prev - 48h, start). */
  function PrevUnits(hours: seq<Counters.HourRow>, modulus: int, view: View, zone: Zone, start: int): Option<int> {
    var prev := PeriodPrev(view, start);
    var rows := QueryRows(hours, modulus, zone(prev), zone(start));
    if rows == [] then None else Some(Total(rows))
  }

  /** The "vs previous" tile shows what the page opened by the previous anchor shows as its own total. */
  lemma PrevTotalIsThePreviousPage(hours: seq<Counters.HourRow>, modulus: int, view: View, zone: Zone, start: int)
    requires IsStart(view, start)
    ensures PrevUnits(hours, modulus, view, zone, start) == PageUnits(hours, modulus, view, zone, PeriodPrev(view, start))
  {
    hide MonthStart, DaysInMonth, AddMonths, QueryRows, PeriodNext, PeriodPrev;
    PagingIsInvertible(view, start);
  }

  /** `DB.Consumption`, less display: the slots of the period `at` falls in, their values, the total and the previous total. */
  method ConsumptionPage(hours: seq<Counters.HourRow>, modulus: int, view: View, zone: Zone, at: int, mult: real)
    returns (buckets: seq<Bucket>, total: Option<real>, covered: nat, prevTotal: Option<real>)
    requires Increasing(zone) && Aligned(hours)
    ensures var start := PeriodStart(view, at);
      Shows(buckets, view, zone, start, QueryRows(hours, modulus, zone(start), zone(PeriodNext(view, start))), mult)
    ensures total.Some? ==> total.value == SumOf(buckets)
    ensures covered == |Shown(buckets)|
    ensures total == Scaled(PageUnits(hours, modulus, view, zone, at), mult)
    ensures prevTotal == Scaled(PageUnits(hours, modulus, view, zone, PeriodPrev(view, PeriodStart(view, at))), mult)
    ensures var start := PeriodStart(view, at);
      covered == HeardSlots(view, zone, start, QueryRows(hours, modulus, zone(start), zone(PeriodNext(view, start))),
                            SlotCount(view, zone, start))
    ensures total.Some? <==> covered > 0
  {
    hide MonthStart, DaysInMonth, AddMonths, SlotAt, SlotCount, QueryRows, Times, PeriodNext, PeriodPrev;
    hide BucketOf, HeardSlots, ShowsSlot, SumOf;
    var start := PeriodStart(view, at);
    PeriodStartIsStart(view, at);
    var end := PeriodNext(view, start);
    var rows := QueryRows(hours, modulus, zone(start), zone(end));
    QueryRowsOnPage(hours, modulus, view, zone, start);
    var slots := ConsumptionSlots(view, zone, start);
    buckets, total, covered := FillBuckets(view, zone, start, rows, slots, mult);
    SlotsConserveUnits(view, zone, start, rows, |slots|);
    forall i | 0 <= i < |buckets| ensures ShowsSlot(buckets[i], view, zone, start, rows, mult, i) {
      BucketShowsSlot(view, zone, start, rows, mult, i);
    }
    prevTotal := Scaled(PrevUnits(hours, modulus, view, zone, start), mult);
    PrevTotalIsThePreviousPage(hours, modulus, view, zone, start);
  }
}
