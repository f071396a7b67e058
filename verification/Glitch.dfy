/** The median glitch filter over one meter's hourly deltas, and the interpolated median behind it. */
module Glitch {
  import opened Common

  /** One hour of the ladder: bucket, packets heard, delta (None on the first row and on a reset). */
  datatype DeltaRow = DeltaRow(hb: int, n: nat, delta: Option<int>)

  ghost predicate IsSorted(xs: seq<int>) {
    forall i, j :: 0 <= i <= j < |xs| ==> xs[i] <= xs[j]
  }

  function Insert(x: int, xs: seq<int>): (ys: seq<int>)
    ensures multiset(ys) == multiset(xs) + multiset{x}
  {
    if xs == [] then [x]
    else if x <= xs[0] then [x] + xs
    else
      assert xs == [xs[0]] + xs[1..];
      [xs[0]] + Insert(x, xs[1..])
  }

  ghost predicate AtLeast(xs: seq<int>, m: int) {
    forall k :: 0 <= k < |xs| ==> m <= xs[k]
  }

  lemma {:induction false} InsertAtLeast(x: int, xs: seq<int>, m: int)
    requires AtLeast(xs, m) && m <= x
    ensures AtLeast(Insert(x, xs), m)
  {
    if xs != [] && x > xs[0] {
      InsertAtLeast(x, xs[1..], m);
    }
  }

  lemma ConsSorted(m: int, xs: seq<int>)
    requires IsSorted(xs) && AtLeast(xs, m)
    ensures IsSorted([m] + xs)
  {
  }

  lemma {:induction false} InsertKeepsSorted(x: int, xs: seq<int>)
    requires IsSorted(xs)
    ensures IsSorted(Insert(x, xs))
  {
    if xs == [] || x <= xs[0] {
      InsertInFront(x, xs);
    } else {
      TailSorted(xs);
      hide IsSorted, AtLeast;
      InsertKeepsSorted(x, xs[1..]);
      InsertAtLeast(x, xs[1..], xs[0]);
      ConsSorted(xs[0], Insert(x, xs[1..]));
    }
  }

  lemma TailSorted(xs: seq<int>)
    requires xs != [] && IsSorted(xs)
    ensures IsSorted(xs[1..]) && AtLeast(xs[1..], xs[0])
  {
  }

  lemma InsertInFront(x: int, xs: seq<int>)
    requires IsSorted(xs) && (xs != [] ==> x <= xs[0])
    ensures Insert(x, xs) == [x] + xs && IsSorted([x] + xs)
  {
  }

  /** `ORDER BY delta`. */
  function Sorted(xs: seq<int>): (ys: seq<int>)
    ensures multiset(ys) == multiset(xs) && |ys| == |xs|
  {
    if xs == [] then []
    else
      assert xs == [xs[0]] + xs[1..];
      var ys := Insert(xs[0], Sorted(xs[1..]));
      assert |multiset(ys)| == |multiset(xs)|;
      ys
  }

  lemma {:induction false} SortedIsSorted(xs: seq<int>)
    ensures IsSorted(Sorted(xs))
  {
    if xs != [] {
      SortedIsSorted(xs[1..]);
      InsertKeepsSorted(xs[0], Sorted(xs[1..]));
    }
  }

  /** `percentile_cont(p)` over ascending values: linear interpolation between the two nearest ranks. */
  function PercentileCont(p: real, values: seq<int>): real
    requires 0.0 <= p <= 1.0 && values != []
  {
    var rank := p * (|values| - 1) as real;
    RankInRange(p, |values| - 1, rank);
    var lo := rank.Floor;
    var frac := rank - lo as real;
    if frac == 0.0 then values[lo] as real
    else (1.0 - frac) * values[lo] as real + frac * values[lo + 1] as real
  }

  /** The rank's whole part is an index, and so is the next one unless the rank is whole. */
  lemma RankInRange(p: real, n: nat, rank: real)
    requires 0.0 <= p <= 1.0 && rank == p * n as real
    ensures 0 <= rank.Floor <= n
    ensures rank != rank.Floor as real ==> rank.Floor < n
  {
    AtMost(p, n as real);
    FloorAtMost(rank, n);
  }

  lemma AtMost(p: real, x: real)
    requires 0.0 <= p <= 1.0 && x >= 0.0
    ensures 0.0 <= p * x <= x
  {
  }

  lemma FloorAtMost(rank: real, n: nat)
    requires 0.0 <= rank <= n as real
    ensures 0 <= rank.Floor <= n && (rank != rank.Floor as real ==> rank.Floor < n)
  {
  }

  /** At p = 0.5: the middle value, or the mean of the two middle values. */
  lemma MedianIsMiddle(values: seq<int>)
    requires values != []
    ensures PercentileCont(0.5, values) == (values[(|values| - 1) / 2] as real + values[|values| / 2] as real) / 2.0
  {
    var n := |values| - 1;
    var h := n / 2;
    HalfRank(n, h, 0.5 * n as real);
    assert |values| / 2 == if n == 2 * h then h else h + 1;
  }

  lemma HalfRank(n: nat, h: nat, rank: real)
    requires (n == 2 * h || n == 2 * h + 1) && rank == 0.5 * n as real
    ensures rank.Floor == h && rank - h as real == if n == 2 * h then 0.0 else 0.5
  {
    assert n as real == 2.0 * h as real + if n == 2 * h then 0.0 else 1.0;
  }

  function Positives(rows: seq<DeltaRow>): seq<int> {
    if rows == [] then []
    else
      (if rows[0].delta.Some? && rows[0].delta.value > 0 then [rows[0].delta.value] else []) + Positives(rows[1..])
  }

  function MedianPositive(rows: seq<DeltaRow>): real
    requires Positives(rows) != []
  {
    PercentileCont(0.5, Sorted(Positives(rows)))
  }

  /** The `hourlyDeltaCTEs` bound: the self-median counts only from three positive deltas on. */
  function Cutoff(rows: seq<DeltaRow>): (c: real)
    ensures c >= 1000.0
  {
    if |Positives(rows)| >= 3 then MaxR(50.0 * MedianPositive(rows), 1000.0) else 1000.0
  }

  /** The `glitchCleanCTEs` bound: any positive delta is its own median. */
  function LooseCutoff(rows: seq<DeltaRow>): (c: real)
    ensures c >= 1000.0
  {
    if Positives(rows) == [] then 1000.0 else MaxR(50.0 * MedianPositive(rows), 1000.0)
  }

  function KeepUpTo(rows: seq<DeltaRow>, cut: real): seq<DeltaRow> {
    if rows == [] then []
    else
      (if rows[0].delta.Some? && rows[0].delta.value as real <= cut then [rows[0]] else []) + KeepUpTo(rows[1..], cut)
  }

  function Clean(rows: seq<DeltaRow>): seq<DeltaRow> {
    KeepUpTo(rows, Cutoff(rows))
  }

  function Units(r: DeltaRow): int {
    match r.delta case Some(d) => d case None => 0
  }

  /** `sum(delta)`. */
  function Total(rows: seq<DeltaRow>): int {
    if rows == [] then 0 else Units(rows[0]) + Total(rows[1..])
  }

  /** The rows kept are exactly the ones whose delta is known and at most the cutoff, each as often. */
  lemma {:induction false} KeptMembers(rows: seq<DeltaRow>, cut: real, r: DeltaRow)
    ensures multiset(KeepUpTo(rows, cut))[r] ==
      if r.delta.Some? && r.delta.value as real <= cut then multiset(rows)[r] else 0
  {
    if rows != [] {
      KeptMembers(rows[1..], cut, r);
      assert rows == [rows[0]] + rows[1..];
    }
  }

  function Deltas(rows: seq<DeltaRow>): (ds: seq<Option<int>>)
    ensures |ds| == |rows| && forall i :: 0 <= i < |rows| ==> ds[i] == rows[i].delta
  {
    seq(|rows|, i requires 0 <= i < |rows| => rows[i].delta)
  }

  lemma {:induction false} PositivesMembers(rows: seq<DeltaRow>, x: int)
    ensures multiset(Positives(rows))[x] == if x > 0 then multiset(Deltas(rows))[Some(x)] else 0
  {
    if rows != [] {
      PositivesMembers(rows[1..], x);
      assert Deltas(rows) == [rows[0].delta] + Deltas(rows[1..]);
    }
  }

  /** Ascending arrangements of the same values are the same. */
  lemma {:induction false} OneArrangement(xs: seq<int>, ys: seq<int>)
    requires IsSorted(xs) && IsSorted(ys) && multiset(xs) == multiset(ys)
    ensures xs == ys
  {
    hide IsSorted;
    SameLength(xs, ys);
    if xs != [] {
      LeastFirst(xs, ys);
      LeastFirst(ys, xs);
      TailSorted(xs);
      TailSorted(ys);
      SameTails(xs, ys);
      OneArrangement(xs[1..], ys[1..]);
      assert xs == [xs[0]] + xs[1..] && ys == [ys[0]] + ys[1..];
    }
  }

  lemma SameLength(xs: seq<int>, ys: seq<int>)
    requires multiset(xs) == multiset(ys)
    ensures |xs| == |ys|
  {
    assert |xs| == |multiset(xs)|;
  }

  lemma LeastFirst(xs: seq<int>, ys: seq<int>)
    requires IsSorted(xs) && multiset(xs) == multiset(ys) && xs != [] && ys != []
    ensures xs[0] <= ys[0]
  {
    assert ys[0] in multiset(ys);
    assert ys[0] in xs;
  }

  lemma SameTails(xs: seq<int>, ys: seq<int>)
    requires xs != [] && ys != [] && xs[0] == ys[0] && multiset(xs) == multiset(ys)
    ensures multiset(xs[1..]) == multiset(ys[1..])
  {
    assert xs == [xs[0]] + xs[1..] && ys == [ys[0]] + ys[1..];
    assert multiset(xs[1..]) == multiset(xs) - multiset{xs[0]};
    assert multiset(ys[1..]) == multiset(ys) - multiset{ys[0]};
  }

  /**
   * The cutoff by the positive deltas in ascending order: with three or more of them, 25 times the sum of the
   * two middle ones (the middle one twice if their number is odd) but at least 1000; otherwise 1000.
   */
  lemma CutoffIs(rows: seq<DeltaRow>, ys: seq<int>)
    requires IsSorted(ys) && forall x :: multiset(ys)[x] == if x > 0 then multiset(Deltas(rows))[Some(x)] else 0
    ensures Cutoff(rows) ==
      if |ys| < 3 then 1000.0 else MaxR(25.0 * (ys[(|ys| - 1) / 2] + ys[|ys| / 2]) as real, 1000.0)
  {
    hide Positives, Deltas, PercentileCont;
    var ps := Positives(rows);
    forall x ensures multiset(Sorted(ps))[x] == multiset(ys)[x] {
      PositivesMembers(rows, x);
    }
    SortedIsSorted(ps);
    OneArrangement(Sorted(ps), ys);
    if ys != [] {
      MedianIsMiddle(ys);
    }
  }

  // ---- robustness of the median ------------------------------------------------------------------

  function CountAbove(xs: seq<int>, x: int): nat {
    if xs == [] then 0 else (if xs[0] > x then 1 else 0) + CountAbove(xs[1..], x)
  }

  lemma {:induction false} InsertCount(y: int, xs: seq<int>, x: int)
    ensures CountAbove(Insert(y, xs), x) == CountAbove(xs, x) + (if y > x then 1 else 0)
  {
    if xs != [] && y > xs[0] {
      InsertCount(y, xs[1..], x);
      assert Insert(y, xs)[1..] == Insert(y, xs[1..]);
    } else {
      assert Insert(y, xs)[1..] == xs;
    }
  }

  lemma {:induction false} SortedCount(xs: seq<int>, x: int)
    ensures CountAbove(Sorted(xs), x) == CountAbove(xs, x)
  {
    if xs != [] {
      SortedCount(xs[1..], x);
      InsertCount(xs[0], Sorted(xs[1..]), x);
    }
  }

  lemma {:induction false} TailAbove(xs: seq<int>, k: nat, x: int)
    requires IsSorted(xs) && k < |xs| && xs[k] > x
    ensures CountAbove(xs, x) >= |xs| - k
  {
    if |xs| > 1 {
      TailAbove(xs[1..], if k == 0 then 0 else k - 1, x);
    }
  }

  /** How many of the positive deltas are corrupt. */
  function BadPositives(rows: seq<DeltaRow>, bad: seq<bool>): nat
    requires |bad| == |rows|
  {
    if rows == [] then 0
    else
      (if bad[0] && rows[0].delta.Some? && rows[0].delta.value > 0 then 1 else 0) + BadPositives(rows[1..], bad[1..])
  }

  /** Every uncorrupted positive delta lies in [low, top]. */
  ghost predicate GoodWithin(rows: seq<DeltaRow>, bad: seq<bool>, low: int, top: int)
    requires |bad| == |rows|
  {
    forall i :: 0 <= i < |rows| && !bad[i] && rows[i].delta.Some? && rows[i].delta.value > 0
                ==> low <= rows[i].delta.value <= top
  }

  ghost predicate BadAbove(rows: seq<DeltaRow>, bad: seq<bool>, bound: real)
    requires |bad| == |rows|
  {
    forall i :: 0 <= i < |rows| && bad[i] && rows[i].delta.Some? ==> rows[i].delta.value as real > bound
  }

  lemma {:induction false} OnlyBadAbove(rows: seq<DeltaRow>, bad: seq<bool>, low: int, top: int)
    requires |bad| == |rows| && GoodWithin(rows, bad, low, top)
    ensures CountAbove(Positives(rows), top) <= BadPositives(rows, bad)
  {
    if rows != [] {
      assert GoodWithin(rows[1..], bad[1..], low, top) by {
        forall i | 0 <= i < |rows[1..]| ensures rows[1..][i] == rows[i + 1] && bad[1..][i] == bad[i + 1] {}
      }
      OnlyBadAbove(rows[1..], bad[1..], low, top);
      if rows[0].delta.Some? && rows[0].delta.value > 0 {
        assert Positives(rows) == [rows[0].delta.value] + Positives(rows[1..]);
        assert Positives(rows)[1..] == Positives(rows[1..]);
      } else {
        assert Positives(rows) == Positives(rows[1..]);
      }
    }
  }

  /** A minority of corrupt deltas cannot lift the cutoff past what the clean ones allow. */
  lemma CutoffIsRobust(rows: seq<DeltaRow>, bad: seq<bool>, low: int, top: int)
    requires |bad| == |rows| && GoodWithin(rows, bad, low, top)
    requires |Positives(rows)| >= 3 && 2 * BadPositives(rows, bad) < |Positives(rows)|
    ensures Cutoff(rows) <= MaxR(50.0 * top as real, 1000.0)
  {
    var xs := Sorted(Positives(rows));
    var k := |xs| / 2;
    SortedIsSorted(Positives(rows));
    MedianIsMiddle(xs);
    OnlyBadAbove(rows, bad, low, top);
    SortedCount(Positives(rows), top);
    if xs[k] > top {
      TailAbove(xs, k, top);
      assert false;
    }
    assert xs[(|xs| - 1) / 2] <= xs[k];
  }

  /** The rows that were decoded correctly and carry a delta. */
  function GoodRows(rows: seq<DeltaRow>, bad: seq<bool>): seq<DeltaRow>
    requires |bad| == |rows|
  {
    if rows == [] then []
    else (if !bad[0] && rows[0].delta.Some? then [rows[0]] else []) + GoodRows(rows[1..], bad[1..])
  }

  lemma {:induction false} PositivesAtLeast(rows: seq<DeltaRow>, bad: seq<bool>, low: int, top: int, x: int)
    requires |bad| == |rows| && GoodWithin(rows, bad, low, top) && BadAbove(rows, bad, top as real)
    requires x in Positives(rows)
    ensures low <= x || top < x
  {
    if rows[0].delta.Some? && rows[0].delta.value > 0 && rows[0].delta.value == x {
    } else {
      assert x in Positives(rows[1..]);
      forall i | 0 <= i < |rows[1..]| ensures rows[1..][i] == rows[i + 1] && bad[1..][i] == bad[i + 1] {}
      PositivesAtLeast(rows[1..], bad[1..], low, top, x);
    }
  }

  lemma {:induction false} KeepsExactlyGood(rows: seq<DeltaRow>, bad: seq<bool>, cut: real)
    requires |bad| == |rows| && BadAbove(rows, bad, cut)
    requires forall i :: 0 <= i < |rows| && !bad[i] && rows[i].delta.Some? ==> rows[i].delta.value as real <= cut
    ensures KeepUpTo(rows, cut) == GoodRows(rows, bad)
  {
    if rows != [] {
      forall i | 0 <= i < |rows[1..]| ensures rows[1..][i] == rows[i + 1] && bad[1..][i] == bad[i + 1] {}
      KeepsExactlyGood(rows[1..], bad[1..], cut);
    }
  }

  /**
   * With at least three positive deltas, a strict minority of them corrupt, clean ones within a factor
   * of 50 of each other and corrupt ones beyond max(50 x the largest clean, 1000): the filter keeps
   * exactly the clean rows, so the energy it reports is the energy that was really counted.
   */
  lemma FilterRecoversCleanRows(rows: seq<DeltaRow>, bad: seq<bool>, low: int, top: int)
    requires |bad| == |rows| && GoodWithin(rows, bad, low, top) && 0 < low <= top <= 50 * low
    requires |Positives(rows)| >= 3 && 2 * BadPositives(rows, bad) < |Positives(rows)|
    requires BadAbove(rows, bad, MaxR(50.0 * top as real, 1000.0))
    ensures Clean(rows) == GoodRows(rows, bad)
    ensures Total(Clean(rows)) == Total(GoodRows(rows, bad))
  {
    CutoffIsRobust(rows, bad, low, top);
    var xs := Sorted(Positives(rows));
    MedianIsMiddle(xs);
    forall i | 0 <= i < |xs|
      ensures low <= xs[i]
    {
      assert xs[i] in multiset(xs);
      assert xs[i] in Positives(rows);
      PositivesAtLeast(rows, bad, low, top, xs[i]);
    }
    assert 50.0 * MedianPositive(rows) >= top as real;
    KeepsExactlyGood(rows, bad, Cutoff(rows));
  }

  // ---- steady use --------------------------------------------------------------------------------

  lemma SortedMembers(xs: seq<int>, d: int)
    requires forall x :: x in xs ==> x == d
    ensures forall i :: 0 <= i < |Sorted(xs)| ==> Sorted(xs)[i] == d
  {
    var ys := Sorted(xs);
    forall i | 0 <= i < |ys| ensures ys[i] == d {
      assert ys[i] in multiset(ys);
      assert ys[i] in xs;
    }
  }

  /** Steady use is its own median: at least three equal steps are kept, however large. */
  lemma SteadyStepsAreKept(rows: seq<DeltaRow>, d: int)
    requires |Positives(rows)| >= 3 && d > 0 && forall x :: x in Positives(rows) ==> x == d
    ensures Cutoff(rows) >= d as real
  {
    var xs := Sorted(Positives(rows));
    SortedMembers(Positives(rows), d);
    MedianIsMiddle(xs);
    assert MedianPositive(rows) == d as real;
  }

  lemma PositivesCons(r: DeltaRow, rows: seq<DeltaRow>)
    ensures Positives([r] + rows) == (if r.delta.Some? && r.delta.value > 0 then [r.delta.value] else []) + Positives(rows)
    ensures forall cut :: KeepUpTo([r] + rows, cut) ==
                          (if r.delta.Some? && r.delta.value as real <= cut then [r] else []) + KeepUpTo(rows, cut)
    ensures Total([r] + rows) == Units(r) + Total(rows)
  {
    assert ([r] + rows)[1..] == rows;
  }

  /** The correlation variant admits at least as much; the two bounds coincide exactly on these windows. */
  lemma LooseCutoffIff(rows: seq<DeltaRow>)
    ensures Cutoff(rows) <= LooseCutoff(rows)
    ensures Cutoff(rows) == LooseCutoff(rows)
            <==> |Positives(rows)| >= 3 || Positives(rows) == [] || MedianPositive(rows) <= 20.0
  {
  }
}
