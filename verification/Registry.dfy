/** The per-meter registries that ingest keeps beside the raw readings. */
module Registry {
  import opened Common

  datatype Reading = Reading(
    ts: int, msgType: Option<string>, endpoint: int, endpointType: Option<int>, consumption: Option<real>, source: string)

  datatype MeterRow = MeterRow(
    msgType: Option<string>, endpointType: Option<int>, firstSeen: int, lastSeen: int, packets: nat,
    min: Option<real>, max: Option<real>, last: Option<real>, lastTs: int)

  datatype SourceRow = SourceRow(packets: nat, lastSeen: int)

  /** LEAST and GREATEST ignore NULLs. */
  function Least(a: Option<real>, b: Option<real>): Option<real> {
    if a.None? then b else if b.None? then a else Some(MinR(a.value, b.value))
  }

  function Greatest(a: Option<real>, b: Option<real>): Option<real> {
    if a.None? then b else if b.None? then a else Some(MaxR(a.value, b.value))
  }

  function Coalesce<T>(a: Option<T>, b: Option<T>): Option<T> {
    if a.Some? then a else b
  }

  /** The meter_index upsert for one reading. */
  function UpsertMeter(row: Option<MeterRow>, r: Reading): MeterRow {
    match row
    case None =>
      MeterRow(r.msgType, r.endpointType, r.ts, r.ts, 1, r.consumption, r.consumption, r.consumption, r.ts)
    case Some(m) =>
      MeterRow(Coalesce(r.msgType, m.msgType), Coalesce(r.endpointType, m.endpointType),
               m.firstSeen, Max(m.lastSeen, r.ts), m.packets + 1,
               Least(m.min, r.consumption), Greatest(m.max, r.consumption),
               if r.consumption.Some? && r.ts >= m.lastTs then r.consumption else m.last,
               Max(m.lastTs, r.ts))
  }

  function UpsertSource(row: Option<SourceRow>, r: Reading): SourceRow {
    match row
    case None => SourceRow(1, r.ts)
    case Some(s) => SourceRow(s.packets + 1, Max(s.lastSeen, r.ts))
  }

  function Lookup<K, V>(m: map<K, V>, k: K): Option<V> {
    if k in m then Some(m[k]) else None
  }

  class Store {
    var readings: seq<Reading>
    var meterIndex: map<int, MeterRow>
    var meterSource: map<(int, string), SourceRow>

    constructor ()
      ensures readings == [] && meterIndex == map[] && meterSource == map[]
    {
      readings, meterIndex, meterSource := [], map[], map[];
    }

    /** The registries are what replaying the stored log one upsert at a time gives. */
    ghost predicate InStep()
      reads this
    {
      && (forall id :: Lookup(meterIndex, id) == MeterOf(readings, id))
      && (forall id, src :: Lookup(meterSource, (id, src)) == SourceOf(readings, id, src))
    }

    /**
     * Store the reading, then maintain the registries. A failed insert changes nothing and is
     * reported; the upserts' own failures are swallowed (`indexOk`, `sourceOk`).
     */
    method InsertReading(r: Reading, insertOk: bool, indexOk: bool, sourceOk: bool) returns (ok: bool)
      modifies this
      ensures ok == insertOk
      ensures readings == if insertOk then old(readings) + [r] else old(readings)
      ensures meterIndex == if insertOk && indexOk
                            then old(meterIndex)[r.endpoint := UpsertMeter(Lookup(old(meterIndex), r.endpoint), r)]
                            else old(meterIndex)
      ensures meterSource == if insertOk && sourceOk && r.source != ""
                             then old(meterSource)[(r.endpoint, r.source) :=
                                                   UpsertSource(Lookup(old(meterSource), (r.endpoint, r.source)), r)]
                             else old(meterSource)
      ensures old(InStep()) && (insertOk ==> indexOk && sourceOk) ==> InStep()
    {
      if !insertOk {
        return false;
      }
      readings := readings + [r];
      if indexOk {
        meterIndex := meterIndex[r.endpoint := UpsertMeter(Lookup(meterIndex, r.endpoint), r)];
      }
      if r.source != "" && sourceOk {
        meterSource := meterSource[(r.endpoint, r.source) := UpsertSource(Lookup(meterSource, (r.endpoint, r.source)), r)];
      }
      assert readings[..|readings| - 1] == old(readings);
      return true;
    }
  }

  /** The registry row of one meter after a log, by the upserts alone. */
  function MeterOf(log: seq<Reading>, id: int): Option<MeterRow> {
    if log == [] then None
    else
      var before := MeterOf(log[..|log| - 1], id);
      var r := log[|log| - 1];
      if r.endpoint == id then Some(UpsertMeter(before, r)) else before
  }

  function SourceOf(log: seq<Reading>, id: int, src: string): Option<SourceRow> {
    if log == [] then None
    else
      var before := SourceOf(log[..|log| - 1], id, src);
      var r := log[|log| - 1];
      if r.endpoint == id && r.source == src && src != "" then Some(UpsertSource(before, r)) else before
  }

  // ---- recomputation over the whole log, free of order ------------------------------------------

  function CountOf(log: seq<Reading>, id: int): nat {
    if log == [] then 0 else CountOf(log[..|log| - 1], id) + (if log[|log| - 1].endpoint == id then 1 else 0)
  }

  ghost predicate Has(log: seq<Reading>, id: int, r: Reading) {
    r in log && r.endpoint == id
  }

  /** Every stored reading of the meter carries a consumption, as the decoder guarantees. */
  ghost predicate Present(log: seq<Reading>, id: int) {
    forall r :: Has(log, id, r) ==> r.consumption.Some?
  }

  /** No two readings of the meter share a timestamp. */
  ghost predicate DistinctTimes(log: seq<Reading>, id: int) {
    forall i, j :: 0 <= i < j < |log| && log[i].endpoint == id && log[j].endpoint == id ==> log[i].ts != log[j].ts
  }

  /** The row agrees with a recomputation over the set of the meter's readings. */
  ghost predicate Recomputed(row: MeterRow, log: seq<Reading>, id: int) {
    && row.packets == CountOf(log, id)
    && row.min.Some? && row.max.Some? && row.last.Some? && row.lastTs == row.lastSeen
    && (exists r :: Has(log, id, r) && r.consumption == row.min)
    && (exists r :: Has(log, id, r) && r.consumption == row.max)
    && (exists r :: Has(log, id, r) && r.ts == row.lastSeen && r.consumption == row.last)
    && (forall r :: Has(log, id, r) && r.consumption.Some? ==>
                      row.min.value <= r.consumption.value <= row.max.value && r.ts <= row.lastSeen)
  }

  lemma LaterRow(before: seq<Reading>, r: Reading, id: int, row: MeterRow)
    requires r.endpoint == id && r.consumption.Some?
    requires Recomputed(row, before, id)
    ensures Recomputed(UpsertMeter(Some(row), r), before + [r], id)
  {
    var log := before + [r];
    assert log[..|log| - 1] == before;
    assert forall s :: s in log <==> s in before || s == r;
    var lo :| Has(before, id, lo) && lo.consumption == row.min;
    var hi :| Has(before, id, hi) && hi.consumption == row.max;
    var la :| Has(before, id, la) && la.ts == row.lastSeen && la.consumption == row.last;
    assert Has(log, id, lo) && Has(log, id, hi) && Has(log, id, la) && Has(log, id, r);
  }

  lemma FirstRow(before: seq<Reading>, r: Reading, id: int)
    requires r.endpoint == id && r.consumption.Some? && CountOf(before, id) == 0
    requires forall s :: !Has(before, id, s)
    ensures Recomputed(UpsertMeter(None, r), before + [r], id)
  {
    var log := before + [r];
    assert log[..|log| - 1] == before;
    assert forall s :: s in log <==> s in before || s == r;
    assert Has(log, id, r);
    forall s | Has(log, id, s)
      ensures s == r
    {
      assert !Has(before, id, s);
    }
  }

  /** The incrementally kept row always equals the recomputation, whatever order the readings arrived in. */
  lemma {:induction false} RowIsRecomputed(log: seq<Reading>, id: int)
    requires Present(log, id)
    ensures MeterOf(log, id).None? <==> CountOf(log, id) == 0
    ensures MeterOf(log, id).Some? ==> Recomputed(MeterOf(log, id).value, log, id)
    ensures MeterOf(log, id).None? ==> forall r :: !Has(log, id, r)
  {
    if log != [] {
      var before, r := log[..|log| - 1], log[|log| - 1];
      assert log == before + [r];
      assert forall s :: s in log <==> s in before || s == r;
      assert Present(before, id) by {
        forall s | Has(before, id, s) ensures Has(log, id, s) {}
      }
      RowIsRecomputed(before, id);
      var row := MeterOf(before, id);
      if r.endpoint != id {
        OtherMeter(before, r, id);
      } else {
        assert Has(log, id, r);
        if row.Some? {
          LaterRow(before, r, id, row.value);
        } else {
          FirstRow(before, r, id);
        }
      }
    }
  }

  lemma OtherMeter(before: seq<Reading>, r: Reading, id: int)
    requires r.endpoint != id
    ensures forall s :: Has(before + [r], id, s) <==> Has(before, id, s)
    ensures MeterOf(before, id).Some? && Recomputed(MeterOf(before, id).value, before, id)
            ==> Recomputed(MeterOf(before, id).value, before + [r], id)
  {
    assert (before + [r])[..|before|] == before;
    assert forall s :: s in before + [r] <==> s in before || s == r;
    if MeterOf(before, id).Some? && Recomputed(MeterOf(before, id).value, before, id) {
      var row := MeterOf(before, id).value;
      var lo :| Has(before, id, lo) && lo.consumption == row.min;
      var hi :| Has(before, id, hi) && hi.consumption == row.max;
      var la :| Has(before, id, la) && la.ts == row.lastSeen && la.consumption == row.last;
      assert Has(before + [r], id, lo) && Has(before + [r], id, hi) && Has(before + [r], id, la);
    }
  }

  lemma SameExtremes(log1: seq<Reading>, log2: seq<Reading>, id: int, a: MeterRow, b: MeterRow)
    requires Recomputed(a, log1, id) && Recomputed(b, log2, id)
    requires forall r :: Has(log1, id, r) <==> Has(log2, id, r)
    ensures a.min == b.min && a.max == b.max
  {
    var lo1 :| Has(log1, id, lo1) && lo1.consumption == a.min;
    var lo2 :| Has(log2, id, lo2) && lo2.consumption == b.min;
    var hi1 :| Has(log1, id, hi1) && hi1.consumption == a.max;
    var hi2 :| Has(log2, id, hi2) && hi2.consumption == b.max;
    assert Has(log2, id, lo1) && Has(log1, id, lo2) && Has(log2, id, hi1) && Has(log1, id, hi2);
  }

  lemma SameLast(log1: seq<Reading>, log2: seq<Reading>, id: int, a: MeterRow, b: MeterRow)
    requires Recomputed(a, log1, id) && Recomputed(b, log2, id)
    requires DistinctTimes(log1, id) && forall r :: Has(log1, id, r) <==> Has(log2, id, r)
    ensures a.lastSeen == b.lastSeen && a.last == b.last
  {
    var x :| Has(log1, id, x) && x.ts == a.lastSeen && x.consumption == a.last;
    var y :| Has(log2, id, y) && y.ts == b.lastSeen && y.consumption == b.last;
    assert Has(log2, id, x) && Has(log1, id, y);
    var i :| 0 <= i < |log1| && log1[i] == x;
    var j :| 0 <= j < |log1| && log1[j] == y;
    assert i == j;
  }

  lemma {:induction false} CountSplit(a: seq<Reading>, b: seq<Reading>, id: int)
    ensures CountOf(a + b, id) == CountOf(a, id) + CountOf(b, id)
  {
    if b == [] {
      assert a + b == a;
    } else {
      assert (a + b)[..|a + b| - 1] == a + b[..|b| - 1];
      CountSplit(a, b[..|b| - 1], id);
    }
  }

  lemma TakeOut(log: seq<Reading>, i: nat, id: int) returns (rest: seq<Reading>)
    requires i < |log|
    ensures multiset(rest) == multiset(log) - multiset{log[i]}
    ensures CountOf(log, id) == CountOf(rest, id) + (if log[i].endpoint == id then 1 else 0)
  {
    var a, b := log[..i], log[i + 1..];
    rest := a + b;
    assert log == a + ([log[i]] + b);
    CountSplit(a, [log[i]] + b, id);
    CountSplit([log[i]], b, id);
    CountSplit(a, b, id);
    assert [log[i]][..0] == [];
  }

  /** Counting does not look at the order of arrival. */
  lemma {:induction false} CountIgnoresOrder(log1: seq<Reading>, log2: seq<Reading>, id: int)
    requires multiset(log1) == multiset(log2)
    ensures CountOf(log1, id) == CountOf(log2, id)
    decreases |log1|
  {
    if log1 == [] {
      assert |log2| == |multiset(log2)| == 0;
    } else {
      hide CountOf;
      var k := |log1| - 1;
      MultisetLast(log1);
      TakeBack(multiset(log1[..k]), log1[k]);
      var i := IndexOf(log2, log1[k]);
      var rest := TakeOut(log2, i, id);
      CountLast(log1, id);
      CountIgnoresOrder(log1[..k], rest, id);
    }
  }

  lemma IndexOf(log: seq<Reading>, r: Reading) returns (i: nat)
    requires r in multiset(log)
    ensures i < |log| && log[i] == r
  {
    i :| 0 <= i < |log| && log[i] == r;
  }

  lemma CountLast(log: seq<Reading>, id: int)
    requires log != []
    ensures CountOf(log, id) == CountOf(log[..|log| - 1], id) + if log[|log| - 1].endpoint == id then 1 else 0
  {
  }

  lemma MultisetLast(log: seq<Reading>)
    requires log != []
    ensures multiset(log) == multiset(log[..|log| - 1]) + multiset{log[|log| - 1]}
  {
    assert log == log[..|log| - 1] + [log[|log| - 1]];
  }

  lemma TakeBack(m: multiset<Reading>, r: Reading)
    ensures r in m + multiset{r} && m + multiset{r} - multiset{r} == m
  {
  }

  /** Two arrival orders of the same readings leave the same packets, extremes, last seen and last consumption. */
  lemma ArrivalOrderIrrelevant(log1: seq<Reading>, log2: seq<Reading>, id: int)
    requires multiset(log1) == multiset(log2) && Present(log1, id) && DistinctTimes(log1, id)
    ensures MeterOf(log1, id).Some? <==> MeterOf(log2, id).Some?
    ensures MeterOf(log1, id).Some? ==>
              var a, b := MeterOf(log1, id).value, MeterOf(log2, id).value;
              a.packets == b.packets && a.min == b.min && a.max == b.max && a.lastSeen == b.lastSeen && a.last == b.last
  {
    assert forall r :: r in log1 <==> r in multiset(log1);
    assert forall r :: r in log2 <==> r in multiset(log2);
    assert Present(log2, id) by {
      forall r | Has(log2, id, r) ensures r.consumption.Some? { assert Has(log1, id, r); }
    }
    CountIgnoresOrder(log1, log2, id);
    RowIsRecomputed(log1, id);
    RowIsRecomputed(log2, id);
    if MeterOf(log1, id).Some? {
      assert forall r :: Has(log1, id, r) <==> Has(log2, id, r);
      SameExtremes(log1, log2, id, MeterOf(log1, id).value, MeterOf(log2, id).value);
      SameLast(log1, log2, id, MeterOf(log1, id).value, MeterOf(log2, id).value);
    }
  }

  // ---- with consumption missing ------------------------------------------------------------------

  /** What holds of the row whether or not every packet carries a consumption, but for `last`. */
  ghost predicate RecomputedWithGaps(row: MeterRow, log: seq<Reading>, id: int) {
    && row.packets == CountOf(log, id)
    && row.lastTs == row.lastSeen
    && (exists r :: Has(log, id, r) && r.ts == row.lastSeen)
    && (forall r :: Has(log, id, r) ==> r.ts <= row.lastSeen)
    && ExtremeIs(row.min, log, id, true) && ExtremeIs(row.max, log, id, false)
  }

  /** m is the least (or greatest) consumption among the meter's readings that carry one, and none if none does. */
  ghost predicate ExtremeIs(m: Option<real>, log: seq<Reading>, id: int, least: bool) {
    match m
    case None => forall r :: Has(log, id, r) ==> r.consumption.None?
    case Some(v) =>
      (exists r :: Has(log, id, r) && r.consumption == Some(v)) &&
      forall r :: Has(log, id, r) && r.consumption.Some? ==> if least then v <= r.consumption.value else r.consumption.value <= v
  }

  lemma HasSnoc(before: seq<Reading>, r: Reading, id: int, s: Reading)
    ensures Has(before + [r], id, s) <==> Has(before, id, s) || (s == r && r.endpoint == id)
  {
  }

  lemma ExtremeStep(m: Option<real>, before: seq<Reading>, r: Reading, id: int, least: bool)
    requires ExtremeIs(m, before, id, least) && r.endpoint == id
    ensures ExtremeIs(if least then Least(m, r.consumption) else Greatest(m, r.consumption), before + [r], id, least)
  {
    hide Has;
    var log := before + [r];
    forall s ensures Has(log, id, s) <==> Has(before, id, s) || s == r {
      HasSnoc(before, r, id, s);
    }
    if m.Some? {
      var w :| Has(before, id, w) && w.consumption == m;
      assert Has(log, id, w);
    }
  }

  lemma ExtremeElsewhere(m: Option<real>, before: seq<Reading>, r: Reading, id: int, least: bool)
    requires ExtremeIs(m, before, id, least) && r.endpoint != id
    ensures ExtremeIs(m, before + [r], id, least)
  {
    hide Has;
    forall s ensures Has(before + [r], id, s) <==> Has(before, id, s) {
      HasSnoc(before, r, id, s);
    }
    if m.Some? {
      var w :| Has(before, id, w) && w.consumption == m;
      assert Has(before + [r], id, w);
    }
  }

  lemma ClockElsewhere(seen: int, before: seq<Reading>, r: Reading, id: int)
    requires r.endpoint != id
    requires (exists s :: Has(before, id, s) && s.ts == seen) && forall s :: Has(before, id, s) ==> s.ts <= seen
    ensures (exists s :: Has(before + [r], id, s) && s.ts == seen) && forall s :: Has(before + [r], id, s) ==> s.ts <= seen
  {
    hide Has;
    forall s ensures Has(before + [r], id, s) <==> Has(before, id, s) {
      HasSnoc(before, r, id, s);
    }
    var w :| Has(before, id, w) && w.ts == seen;
    assert Has(before + [r], id, w);
  }

  lemma ClockStep(seen: Option<int>, before: seq<Reading>, r: Reading, id: int)
    requires r.endpoint == id
    requires if seen.None? then forall s :: !Has(before, id, s)
      else (exists s :: Has(before, id, s) && s.ts == seen.value) && forall s :: Has(before, id, s) ==> s.ts <= seen.value
    ensures var now := if seen.None? then r.ts else Max(seen.value, r.ts);
      (exists s :: Has(before + [r], id, s) && s.ts == now) && forall s :: Has(before + [r], id, s) ==> s.ts <= now
  {
    hide Has;
    forall s ensures Has(before + [r], id, s) <==> Has(before, id, s) || s == r {
      HasSnoc(before, r, id, s);
    }
    assert Has(before + [r], id, r);
    if seen.Some? {
      var w :| Has(before, id, w) && w.ts == seen.value;
      assert Has(before + [r], id, w);
    }
  }

  lemma MeterLast(log: seq<Reading>, id: int)
    requires log != []
    ensures var before, r := log[..|log| - 1], log[|log| - 1];
      log == before + [r] && MeterOf(log, id) ==
        if r.endpoint == id then Some(UpsertMeter(MeterOf(before, id), r)) else MeterOf(before, id)
  {
  }

  /**
   * Packets, last seen and the extremes are the recomputation for any log, packets without consumption
   * included: the extremes over the readings that carry one.
   */
  lemma {:induction false} RowIsRecomputedWithGaps(log: seq<Reading>, id: int)
    ensures MeterOf(log, id).None? ==> CountOf(log, id) == 0 && forall r :: !Has(log, id, r)
    ensures MeterOf(log, id).Some? ==> RecomputedWithGaps(MeterOf(log, id).value, log, id)
  {
    if log != [] {
      hide MeterOf, CountOf, ExtremeIs, Has;
      var before, r := log[..|log| - 1], log[|log| - 1];
      RowIsRecomputedWithGaps(before, id);
      MeterLast(log, id);
      CountLast(log, id);
      var row := MeterOf(before, id);
      if r.endpoint == id {
        ClockStep(if row.None? then None else Some(row.value.lastSeen), before, r, id);
        if row.None? {
          NoExtremes(before, id);
        }
        ExtremeStep(if row.None? then None else row.value.min, before, r, id, true);
        ExtremeStep(if row.None? then None else row.value.max, before, r, id, false);
      } else if row.Some? {
        ClockElsewhere(row.value.lastSeen, before, r, id);
        ExtremeElsewhere(row.value.min, before, r, id, true);
        ExtremeElsewhere(row.value.max, before, r, id, false);
      } else {
        forall s ensures !Has(log, id, s) {
          HasSnoc(before, r, id, s);
        }
      }
    }
  }

  lemma NoExtremes(log: seq<Reading>, id: int)
    requires forall r :: !Has(log, id, r)
    ensures ExtremeIs(None, log, id, true) && ExtremeIs(None, log, id, false)
  {
  }

  /** The clock a reading is held against: no earlier arrival of the meter is later in time. */
  ghost predicate NoneLaterBefore(log: seq<Reading>, id: int, i: nat)
    requires i < |log|
  {
    forall j :: 0 <= j < i && log[j].endpoint == id ==> log[j].ts <= log[i].ts
  }

  /** A reading that sets `last`: the meter's, with a consumption, not overtaken when it arrives. */
  ghost predicate Sets(log: seq<Reading>, id: int, i: nat)
    requires i < |log|
  {
    log[i].endpoint == id && log[i].consumption.Some? && NoneLaterBefore(log, id, i)
  }

  /** The last arrival that sets it. */
  ghost function SetBy(log: seq<Reading>, id: int): (i: Option<nat>)
    ensures i.Some? ==> i.value < |log|
  {
    if log == [] then None
    else if Sets(log, id, |log| - 1) then Some(|log| - 1)
    else SetBy(log[..|log| - 1], id)
  }

  lemma SetsInFront(log: seq<Reading>, id: int, n: nat, i: nat)
    requires i < n <= |log|
    ensures Sets(log[..n], id, i) <==> Sets(log, id, i)
  {
    assert forall j :: 0 <= j <= i ==> log[..n][j] == log[j];
  }

  lemma {:induction false} SetByIsLast(log: seq<Reading>, id: int)
    ensures match SetBy(log, id)
      case None => forall i :: 0 <= i < |log| ==> !Sets(log, id, i)
      case Some(k) => Sets(log, id, k) && forall i :: k < i < |log| ==> !Sets(log, id, i)
  {
    if log != [] {
      hide Sets;
      var n := |log| - 1;
      SetByIsLast(log[..n], id);
      forall i | 0 <= i < n ensures Sets(log[..n], id, i) <==> Sets(log, id, i) {
        SetsInFront(log, id, n, i);
      }
    }
  }

  /** `last_consumption` is that reading's, and missing as long as none has set it. */
  lemma {:induction false} LastIsSetBy(log: seq<Reading>, id: int)
    ensures MeterOf(log, id).Some? ==>
      MeterOf(log, id).value.last == match SetBy(log, id) case None => None case Some(i) => log[i].consumption
    ensures MeterOf(log, id).None? ==> SetBy(log, id).None?
  {
    if log != [] {
      hide MeterOf, Sets;
      var n := |log| - 1;
      LastIsSetBy(log[..n], id);
      MeterLast(log, id);
      SetsAgainstClock(log, id);
    }
  }

  /** The upsert's comparison with last_consumption_ts asks just that. */
  lemma SetsAgainstClock(log: seq<Reading>, id: int)
    requires log != []
    ensures var n := |log| - 1;
      var row := MeterOf(log[..n], id);
      Sets(log, id, n) <==>
        log[n].endpoint == id && log[n].consumption.Some? && (row.None? || log[n].ts >= row.value.lastTs)
  {
    hide MeterOf;
    var n := |log| - 1;
    var before := log[..n];
    var row := MeterOf(before, id);
    RowIsRecomputedWithGaps(before, id);
    forall j | 0 <= j < n && log[j].endpoint == id ensures Has(before, id, log[j]) {
      assert before[j] == log[j];
    }
    if row.Some? {
      var w :| Has(before, id, w) && w.ts == row.value.lastSeen;
      var j :| 0 <= j < |before| && before[j] == w;
      assert log[j] == w;
    }
  }

  /** Reading i carries the meter's latest consumption: every other one that carries one is earlier. */
  ghost predicate IsLatestPresent(log: seq<Reading>, id: int, i: nat)
    requires i < |log|
  {
    log[i].endpoint == id && log[i].consumption.Some? &&
    forall j :: 0 <= j < |log| && j != i && log[j].endpoint == id && log[j].consumption.Some? ==> log[j].ts < log[i].ts
  }

  /**
   * `last` comes from the latest consumption exactly when no packet of the meter that arrived before it is
   * later in time: such a packet can only be one without consumption.
   */
  lemma LatestIsKeptIff(log: seq<Reading>, id: int, i: nat)
    requires i < |log| && IsLatestPresent(log, id, i)
    ensures SetBy(log, id) == Some(i) <==> NoneLaterBefore(log, id, i)
  {
    SetByIsLast(log, id);
    if NoneLaterBefore(log, id, i) {
      forall k | i < k < |log| ensures !Sets(log, id, k) {
      }
    }
  }

  // ---- what does depend on the order -------------------------------------------------------------

  ghost predicate IsFirst(log: seq<Reading>, id: int, r: Reading) {
    exists i :: 0 <= i < |log| && log[i] == r && r.endpoint == id && forall j :: 0 <= j < i ==> log[j].endpoint != id
  }

  lemma {:induction false} FirstSeenIsFirstArrival(log: seq<Reading>, id: int)
    ensures MeterOf(log, id).Some? ==> exists r :: IsFirst(log, id, r) && MeterOf(log, id).value.firstSeen == r.ts
    ensures MeterOf(log, id).None? ==> forall i :: 0 <= i < |log| ==> log[i].endpoint != id
  {
    if log != [] {
      var before, r := log[..|log| - 1], log[|log| - 1];
      assert log == before + [r];
      FirstSeenIsFirstArrival(before, id);
      if MeterOf(before, id).Some? {
        var f :| IsFirst(before, id, f) && MeterOf(before, id).value.firstSeen == f.ts;
        FirstStaysFirst(before, r, id, f);
      } else if r.endpoint == id {
        FirstOfItsMeter(before, r, id);
      }
    }
  }

  lemma FirstStaysFirst(before: seq<Reading>, r: Reading, id: int, f: Reading)
    requires IsFirst(before, id, f)
    ensures IsFirst(before + [r], id, f)
  {
    var log := before + [r];
    var i :| 0 <= i < |before| && before[i] == f && forall j :: 0 <= j < i ==> before[j].endpoint != id;
    assert log[i] == f && forall j :: 0 <= j < i ==> log[j] == before[j];
  }

  lemma FirstOfItsMeter(before: seq<Reading>, r: Reading, id: int)
    requires r.endpoint == id && forall i :: 0 <= i < |before| ==> before[i].endpoint != id
    ensures IsFirst(before + [r], id, r)
  {
    var log := before + [r];
    assert log[|before|] == r && forall j :: 0 <= j < |before| ==> log[j] == before[j];
  }

  /** first_seen is the earliest reading exactly when no reading of the meter precedes its first arrival in time. */
  lemma FirstSeenIsEarliestIff(log: seq<Reading>, id: int, first: Reading)
    requires IsFirst(log, id, first)
    ensures MeterOf(log, id).Some?
    ensures (forall r :: Has(log, id, r) ==> MeterOf(log, id).value.firstSeen <= r.ts)
            <==> (forall r :: Has(log, id, r) ==> first.ts <= r.ts)
  {
    FirstSeenIsFirstArrival(log, id);
    var f :| IsFirst(log, id, f) && MeterOf(log, id).value.firstSeen == f.ts;
    assert f == first;
  }

  /** Out-of-order delivery does make it wrong: the registry keeps the later time of two readings. */
  lemma FirstSeenCanBeLate(id: int, c: real)
    ensures var a := Reading(10, None, id, None, Some(c), "s"); var b := Reading(5, None, id, None, Some(c), "s");
            MeterOf([a, b], id).Some? && MeterOf([a, b], id).value.firstSeen == 10 && Has([a, b], id, b) && b.ts == 5
  {
    var a := Reading(10, None, id, None, Some(c), "s");
    var b := Reading(5, None, id, None, Some(c), "s");
    assert [a, b][..1] == [a] && [a][..0] == [];
    assert MeterOf([a], id) == Some(UpsertMeter(None, a));
  }

  /**
   * A packet without consumption still advances last_consumption_ts: afterwards a reading that does carry
   * one is taken over exactly when it is not older than every packet so far, NULLs included.
   */
  lemma NullAdvancesTheClock(m: MeterRow, empty: Reading, late: Reading)
    requires empty.consumption.None? && late.consumption.Some? && late.consumption != m.last
    ensures var after := UpsertMeter(Some(UpsertMeter(Some(m), empty)), late);
            after.last == late.consumption <==> late.ts >= m.lastTs && late.ts >= empty.ts
  {
  }

  // ---- per-source counts -------------------------------------------------------------------------

  function CountFrom(log: seq<Reading>, id: int, src: string): nat {
    if log == [] then 0
    else
      CountFrom(log[..|log| - 1], id, src)
      + (if log[|log| - 1].endpoint == id && log[|log| - 1].source == src then 1 else 0)
  }

  lemma {:induction false} SourceCounts(log: seq<Reading>, id: int, src: string)
    requires src != ""
    ensures SourceOf(log, id, src).None? <==> CountFrom(log, id, src) == 0
    ensures SourceOf(log, id, src).Some? ==> SourceOf(log, id, src).value.packets == CountFrom(log, id, src)
  {
    if log != [] {
      SourceCounts(log[..|log| - 1], id, src);
    }
  }

  /** The packets of the listed sources of one meter, as the coverage matrix adds them up. */
  function SumSources(log: seq<Reading>, id: int, srcs: seq<string>): nat {
    if srcs == [] then 0
    else
      (match SourceOf(log, id, srcs[0]) case Some(s) => s.packets case None => 0) + SumSources(log, id, srcs[1..])
  }

  lemma {:induction false} OneMorePacket(log: seq<Reading>, id: int, srcs: seq<string>)
    requires log != [] && "" !in srcs && (forall i, j :: 0 <= i < j < |srcs| ==> srcs[i] != srcs[j])
    ensures var r := log[|log| - 1];
            SumSources(log, id, srcs)
            == SumSources(log[..|log| - 1], id, srcs) + (if r.endpoint == id && r.source in srcs then 1 else 0)
  {
    if srcs != [] {
      OneMorePacket(log, id, srcs[1..]);
      SourceCounts(log, id, srcs[0]);
      SourceCounts(log[..|log| - 1], id, srcs[0]);
    }
  }

  /** The sources' counts add up to the meter's exactly when every reading of it named its source. */
  lemma {:induction false} SourcesSumToMeter(log: seq<Reading>, id: int, srcs: seq<string>)
    requires "" !in srcs && (forall i, j :: 0 <= i < j < |srcs| ==> srcs[i] != srcs[j])
    requires forall r :: Has(log, id, r) && r.source != "" ==> r.source in srcs
    ensures SumSources(log, id, srcs) + CountFrom(log, id, "") == CountOf(log, id)
    ensures SumSources(log, id, srcs) == CountOf(log, id) <==> forall r :: Has(log, id, r) ==> r.source != ""
  {
    if log == [] {
      EmptySum(id, srcs);
    } else {
      var before, r := log[..|log| - 1], log[|log| - 1];
      assert forall s :: s in log <==> s in before || s == r;
      forall s | Has(before, id, s) ensures Has(log, id, s) {}
      SourcesSumToMeter(before, id, srcs);
      OneMorePacket(log, id, srcs);
      assert r.endpoint == id ==> Has(log, id, r);
      if forall s :: Has(before, id, s) ==> s.source != "" {
        assert (forall s :: Has(log, id, s) ==> s.source != "") <==> (r.endpoint == id ==> r.source != "");
      } else {
        var s :| Has(before, id, s) && s.source == "";
        assert Has(log, id, s);
      }
    }
  }

  lemma {:induction false} EmptySum(id: int, srcs: seq<string>)
    ensures SumSources([], id, srcs) == 0
  {
    if srcs != [] {
      EmptySum(id, srcs[1..]);
    }
  }

  // ---- what later packets say ----------------------------------------------------------------------

  /** Reading i is the last of the meter to say its message type. */
  ghost predicate LastToSayType(log: seq<Reading>, id: int, i: nat)
    requires i < |log|
  {
    log[i].endpoint == id && log[i].msgType.Some? &&
    forall j :: i < j < |log| && log[j].endpoint == id ==> log[j].msgType.None?
  }

  ghost predicate LastToSayEndpointType(log: seq<Reading>, id: int, i: nat)
    requires i < |log|
  {
    log[i].endpoint == id && log[i].endpointType.Some? &&
    forall j :: i < j < |log| && log[j].endpoint == id ==> log[j].endpointType.None?
  }

  /** The latest arrival that says a type wins; one that says none changes nothing. */
  lemma {:induction false} LatestTypeWins(log: seq<Reading>, id: int, i: nat)
    requires i < |log| && LastToSayType(log, id, i)
    ensures MeterOf(log, id).Some? && MeterOf(log, id).value.msgType == log[i].msgType
  {
    MeterLast(log, id);
    var n := |log| - 1;
    if i < n {
      assert LastToSayType(log[..n], id, i);
      LatestTypeWins(log[..n], id, i);
    }
  }

  lemma {:induction false} LatestEndpointTypeWins(log: seq<Reading>, id: int, i: nat)
    requires i < |log| && LastToSayEndpointType(log, id, i)
    ensures MeterOf(log, id).Some? && MeterOf(log, id).value.endpointType == log[i].endpointType
  {
    MeterLast(log, id);
    var n := |log| - 1;
    if i < n {
      assert LastToSayEndpointType(log[..n], id, i);
      LatestEndpointTypeWins(log[..n], id, i);
    }
  }

  /** A source's row is as recent as its latest packet. */
  lemma {:induction false} SourceIsAsRecentAsItsPackets(log: seq<Reading>, id: int, src: string)
    requires src != ""
    ensures SourceOf(log, id, src).Some? ==>
      (exists i :: 0 <= i < |log| && log[i].endpoint == id && log[i].source == src &&
                   log[i].ts == SourceOf(log, id, src).value.lastSeen) &&
      forall i :: 0 <= i < |log| && log[i].endpoint == id && log[i].source == src ==> log[i].ts <= SourceOf(log, id, src).value.lastSeen
    ensures SourceOf(log, id, src).None? ==> forall i :: 0 <= i < |log| ==> log[i].endpoint != id || log[i].source != src
  {
    if log != [] {
      var n := |log| - 1;
      SourceIsAsRecentAsItsPackets(log[..n], id, src);
      forall i | 0 <= i < n ensures log[..n][i] == log[i] {}
    }
  }
}
