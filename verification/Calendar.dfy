/**
 * The calendar behind the consumption pages. A local date is a day number (0 is 0000-01-01 in the
 * proleptic Gregorian calendar), a month is year * 12 + month - 1, and a time zone gives the UTC
 * second at which each local day begins.
 */
module Calendar {

  /** Strictly increasing on all of int. */
  ghost predicate Increasing(f: int -> int) {
    forall a, b {:trigger f(a), f(b)} :: a < b ==> f(a) < f(b)
  }

  /** The step of the staircase `f` that x stands on, searched from `k`. */
  function Locate(f: int -> int, x: int, k: int): (j: int)
    requires Increasing(f)
    ensures f(j) <= x < f(j + 1)
    decreases if x < f(k) then 1 else 0, if x < f(k) then f(k) - x else x - f(k)
  {
    if x < f(k) then Locate(f, x, k - 1)
    else if x >= f(k + 1) then Locate(f, x, k + 1)
    else k
  }

  lemma StepIsUnique(f: int -> int, x: int, a: int, b: int)
    requires Increasing(f) && f(a) <= x < f(a + 1) && f(b) <= x < f(b + 1)
    ensures a == b
  {
    assert a + 1 < b ==> f(a + 1) < f(b);
    assert b + 1 < a ==> f(b + 1) < f(a);
  }

  // ---- months -----------------------------------------------------------------------------------

  predicate Leap(y: int) {
    y % 4 == 0 && (y % 100 != 0 || y % 400 == 0)
  }

  function DaysInMonth(month: int): (n: int)
    ensures 28 <= n <= 31
  {
    var m := month % 12 + 1;
    if m == 2 then (if Leap(month / 12) then 29 else 28)
    else if m == 4 || m == 6 || m == 9 || m == 11 then 30
    else 31
  }

  /** The day number of the first of a month: the lengths of all months between it and month 0. */
  function MonthStart(month: int): int
    decreases if month < 0 then -month else month
  {
    if month == 0 then 0
    else if month > 0 then MonthStart(month - 1) + DaysInMonth(month - 1)
    else MonthStart(month + 1) - DaysInMonth(month)
  }

  lemma MonthLength(month: int)
    ensures MonthStart(month + 1) == MonthStart(month) + DaysInMonth(month)
  {
  }

  lemma {:induction false} MonthsAscend(a: int, b: int)
    requires a < b
    ensures MonthStart(a) < MonthStart(b)
    decreases b - a
  {
    MonthLength(a);
    if a + 1 < b {
      MonthsAscend(a + 1, b);
    }
  }

  /** Days before a year, in closed form: 365 each plus a leap day every 4 years, but not 100, but 400. */
  function DaysBeforeYear(y: int): int {
    365 * y + (y + 3) / 4 - (y + 99) / 100 + (y + 399) / 400
  }

  lemma ClosedFormAtZero()
    ensures DaysBeforeYear(0) == 0 == MonthStart(0)
  {
  }

  lemma FourthYears(y: int)
    ensures (y + 4) / 4 - (y + 3) / 4 == if y % 4 == 0 then 1 else 0
  {
  }

  lemma Centuries(y: int)
    ensures (y + 100) / 100 - (y + 99) / 100 == if y % 100 == 0 then 1 else 0
  {
  }

  lemma FourthCenturies(y: int)
    ensures (y + 400) / 400 - (y + 399) / 400 == if y % 400 == 0 then 1 else 0
  {
  }

  lemma LeapByCycles(y: int, a: int, b: int, c: int)
    requires a == (if y % 4 == 0 then 1 else 0) && b == (if y % 100 == 0 then 1 else 0) && c == if y % 400 == 0 then 1 else 0
    ensures a - b + c == if Leap(y) then 1 else 0
  {
    CenturyIsFourth(y);
    FourthCenturyIsCentury(y);
  }

  lemma CenturyIsFourth(y: int)
    ensures y % 100 == 0 ==> y % 4 == 0
  {
  }

  lemma FourthCenturyIsCentury(y: int)
    ensures y % 400 == 0 ==> y % 100 == 0
  {
  }

  lemma ClosedFormStep(y: int)
    ensures DaysBeforeYear(y + 1) - DaysBeforeYear(y) == if Leap(y) then 366 else 365
  {
    hide Leap;
    FourthYears(y);
    Centuries(y);
    FourthCenturies(y);
    LeapByCycles(y, (y + 4) / 4 - (y + 3) / 4, (y + 100) / 100 - (y + 99) / 100, (y + 400) / 400 - (y + 399) / 400);
  }

  lemma MonthInYear(y: int, m: nat)
    requires m < 12
    ensures (12 * y + m) / 12 == y && (12 * y + m) % 12 == m
    ensures MonthStart(12 * y + m + 1) == MonthStart(12 * y + m) + DaysInMonth(12 * y + m)
    ensures DaysInMonth(12 * y + m)
            == [31, if Leap(y) then 29 else 28, 31, 30, 31, 30, 31, 31, 30, 31, 30, 31][m]
  {
    MonthLength(12 * y + m);
  }

  lemma YearLength(y: int)
    ensures MonthStart(12 * y + 12) - MonthStart(12 * y) == if Leap(y) then 366 else 365
  {
    hide DaysInMonth, MonthStart;
    MonthInYear(y, 0);
    MonthInYear(y, 1);
    MonthInYear(y, 2);
    MonthInYear(y, 3);
    MonthInYear(y, 4);
    MonthInYear(y, 5);
    MonthInYear(y, 6);
    MonthInYear(y, 7);
    MonthInYear(y, 8);
    MonthInYear(y, 9);
    MonthInYear(y, 10);
    MonthInYear(y, 11);
  }

  /** The month staircase passes through the Gregorian closed form at every January, before and after year 0. */
  lemma {:induction false} JanuaryClosedForm(y: int)
    ensures MonthStart(12 * y) == DaysBeforeYear(y)
    decreases if y < 0 then -y else y
  {
    hide DaysInMonth, DaysBeforeYear, MonthStart, Leap;
    if y == 0 {
      ClosedFormAtZero();
    } else if y > 0 {
      JanuaryClosedForm(y - 1);
      YearLength(y - 1);
      ClosedFormStep(y - 1);
    } else {
      JanuaryClosedForm(y + 1);
      YearLength(y);
      ClosedFormStep(y);
    }
  }

  lemma MonthStartIncreasing()
    ensures Increasing(MonthStart)
  {
    forall a, b | a < b
      ensures MonthStart(a) < MonthStart(b)
    {
      MonthsAscend(a, b);
    }
  }

  /** The month a local date belongs to. */
  function MonthOf(day: int): (m: int)
    ensures MonthStart(m) <= day < MonthStart(m + 1)
  {
    MonthStartIncreasing();
    Locate(MonthStart, day, 0)
  }

  lemma MonthOfIs(day: int, m: int)
    requires MonthStart(m) <= day < MonthStart(m + 1)
    ensures MonthOf(day) == m
  {
    hide DaysInMonth, MonthStart;
    MonthStartIncreasing();
    StepIsUnique(MonthStart, day, MonthOf(day), m);
  }

  lemma MonthOfStart(m: int)
    ensures MonthOf(MonthStart(m)) == m
  {
    MonthsAscend(m, m + 1);
    MonthOfIs(MonthStart(m), m);
  }

  /** Sunday is 0. */
  function Weekday(day: int): int {
    (day + 6) % 7
  }

  /** Anchors into the real calendar: 1970-01-01 was a Thursday, 2026-06-28 a Sunday. */
  lemma KnownDates()
    ensures Weekday(MonthStart(12 * 1970)) == 4
    ensures Weekday(MonthStart(12 * 2026 + 5) + 27) == 0
    ensures DaysInMonth(12 * 2026 + 1) == 28 && DaysInMonth(12 * 2024 + 1) == 29
    ensures DaysInMonth(12 * 1900 + 1) == 28 && DaysInMonth(12 * 2000 + 1) == 29
  {
    hide DaysInMonth, MonthStart;
    JanuaryClosedForm(1970);
    JanuaryClosedForm(2026);
    MonthInYear(2026, 0);
    MonthInYear(2026, 1);
    MonthInYear(2026, 2);
    MonthInYear(2026, 3);
    MonthInYear(2026, 4);
    MonthInYear(2024, 1);
    MonthInYear(1900, 1);
    MonthInYear(2000, 1);
  }

  // ---- periods ----------------------------------------------------------------------------------

  datatype View = Day | Week | Month | Year

  /** `AddDate(0, n, 0)`: same day of the month n months on, overflowing into the next month. */
  function AddMonths(day: int, n: int): int {
    MonthStart(MonthOf(day) + n) + (day - MonthStart(MonthOf(day)))
  }

  function PeriodStart(view: View, day: int): int {
    match view
    case Day => day
    case Week => day - Weekday(day)
    case Month => MonthStart(MonthOf(day))
    case Year => MonthStart(MonthOf(day) / 12 * 12)
  }

  function PeriodNext(view: View, start: int): int {
    match view
    case Day => start + 1
    case Week => start + 7
    case Month => AddMonths(start, 1)
    case Year => AddMonths(start, 12)
  }

  function PeriodPrev(view: View, start: int): int {
    match view
    case Day => start - 1
    case Week => start - 7
    case Month => AddMonths(start, -1)
    case Year => AddMonths(start, -12)
  }

  predicate IsStart(view: View, start: int) {
    PeriodStart(view, start) == start
  }

  /** The month number a month or year page starts with. */
  lemma StartMonth(view: View, start: int) returns (m: int)
    requires IsStart(view, start) && (view.Month? || view.Year?)
    ensures start == MonthStart(m) && MonthOf(start) == m
    ensures view.Year? ==> m % 12 == 0
    ensures PeriodNext(view, start) == MonthStart(m + if view.Month? then 1 else 12)
    ensures PeriodPrev(view, start) == MonthStart(m - if view.Month? then 1 else 12)
  {
    hide DaysInMonth, MonthStart;
    m := if view.Month? then MonthOf(start) else MonthOf(start) / 12 * 12;
    MonthOfStart(m);
  }

  /** Every date lies in the period that starts at its period start, and no other. */
  lemma PeriodsTile(view: View, start: int, day: int)
    requires IsStart(view, start)
    ensures start < PeriodNext(view, start)
    ensures PeriodStart(view, day) == start <==> start <= day < PeriodNext(view, start)
  {
    hide DaysInMonth, MonthStart;
    if view.Week? {
      var w := Weekday(day);
      if start <= day < start + 7 {
        assert (start + 6) % 7 == 0 && w == day - start;
      }
    } else if view.Month? || view.Year? {
      var m := StartMonth(view, start);
      var n := if view.Month? then 1 else 12;
      MonthsAscend(m, m + n);
      var k := MonthOf(day);
      var j := if view.Month? then k else k / 12 * 12;
      if start <= day < PeriodNext(view, start) {
        assert m <= k by { if k < m { MonthsAtMost(k + 1, m); } }
        assert k < m + n by { if k >= m + n { MonthsAtMost(m + n, k); } }
        assert j == m;
      } else if PeriodStart(view, day) == start {
        assert MonthStart(j) == MonthStart(m);
        if j < m { MonthsAscend(j, m); } else if m < j { MonthsAscend(m, j); }
        MonthsAtMost(k + 1, m + n);
        MonthsAtMost(m, k);
        assert false;
      }
    }
  }

  lemma MonthsAtMost(a: int, b: int)
    requires a <= b
    ensures MonthStart(a) <= MonthStart(b)
  {
    if a < b {
      MonthsAscend(a, b);
    }
  }

  lemma PeriodStartIsStart(view: View, day: int)
    ensures IsStart(view, PeriodStart(view, day))
    ensures PeriodStart(view, day) <= day < PeriodNext(view, PeriodStart(view, day))
  {
    hide DaysInMonth, MonthStart;
    if view.Month? {
      MonthOfStart(MonthOf(day));
    } else if view.Year? {
      MonthOfStart(MonthOf(day) / 12 * 12);
    }
    PeriodsTile(view, PeriodStart(view, day), day);
  }

  /** Paging forward and back are inverse on page starts, and stay on page starts. */
  lemma PagingIsInvertible(view: View, start: int)
    requires IsStart(view, start)
    ensures IsStart(view, PeriodNext(view, start)) && PeriodPrev(view, PeriodNext(view, start)) == start
    ensures IsStart(view, PeriodPrev(view, start)) && PeriodNext(view, PeriodPrev(view, start)) == start
  {
    hide DaysInMonth, MonthStart;
    if view.Month? || view.Year? {
      var m := StartMonth(view, start);
      var n := if view.Month? then 1 else 12;
      MonthOfStart(m + n);
      MonthOfStart(m - n);
    }
  }

  // ---- instants ---------------------------------------------------------------------------------

  /** A zone: the UTC second at which each local day begins. Every midnight exists and days follow each other. */
  type Zone = int -> int

  /** The local date of an instant. */
  function LocalDay(zone: Zone, t: int): (day: int)
    requires Increasing(zone)
    ensures zone(day) <= t < zone(day + 1)
  {
    Locate(zone, t, 0)
  }

  lemma LocalDayWithin(zone: Zone, t: int, from: int, to: int)
    requires Increasing(zone) && zone(from) <= t < zone(to)
    ensures from <= LocalDay(zone, t) < to
  {
    var d := LocalDay(zone, t);
    assert d + 1 < from ==> zone(d + 1) < zone(from);
    assert to < d ==> zone(to) < zone(d);
  }
}
