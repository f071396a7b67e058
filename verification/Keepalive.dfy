/** The reference feed: the worker's five-minute keepalive and the bounded carry that relies on it. */
module Keepalive {
  import opened Common

  const KEEPALIVE: int := 300     // seconds
  const CARRY_LIMIT: int := 900

  datatype Sample = Sample(ts: int, w: real)

  datatype Row = Row(entity: string, ts: int, w: real)

  // ---- the worker's state, one subscription ------------------------------------------------------

  datatype HvacKA = Unset | Asserted(action: string, ts: int)

  /** `hvacTransition`: an empty action clears the assertion, any other replaces it. */
  function HvacTransition(cur: HvacKA, action: string, ts: int): HvacKA {
    if action == "" then Unset else Asserted(action, ts)
  }

  predicate Due(last: int, now: int) {
    now - last >= KEEPALIVE
  }

  /** The stored samples of one entity, in insertion order. */
  function StoredOf(rows: seq<Row>, e: string): seq<Sample> {
    if rows == [] then []
    else
      var r := rows[|rows| - 1];
      StoredOf(rows[..|rows| - 1], e) + (if r.entity == e then [Sample(r.ts, r.w)] else [])
  }

  lemma StoredAppend(rows: seq<Row>, r: Row)
    ensures forall e :: StoredOf(rows + [r], e) == StoredOf(rows, e) + (if r.entity == e then [Sample(r.ts, r.w)] else [])
  {
    assert (rows + [r])[..|rows|] == rows;
  }

  /** What the keepalive knows and what the table holds for one entity. */
  datatype Track = Track(ka: Option<Sample>, stored: seq<Sample>)

  function OnSampleTrack(t: Track, ts: int, w: real, ok: bool): Track {
    Track(Some(Sample(ts, w)), if ok then t.stored + [Sample(ts, w)] else t.stored)
  }

  function OnTickTrack(t: Track, now: int, ok: bool): Track {
    if t.ka.Some? && Due(t.ka.value.ts, now) && ok
    then Track(Some(Sample(now, t.ka.value.w)), t.stored + [Sample(now, t.ka.value.w)])
    else t
  }

  /** A tick does nothing for an entity the keepalive has not heard of. */
  lemma UnknownStays(now: int)
    ensures forall t: Track, ok: bool {:trigger OnTickTrack(t, now, ok)} :: t.ka.None? ==> OnTickTrack(t, now, ok) == t
  {
  }

  /**
   * A sample whose insert failed is made up for by the first tick that finds it five minutes old and goes through,
   * with its own power at the tick's time; until then ticks change nothing.
   */
  lemma LostSampleIsRepaired(t: Track, ts: int, w: real, now: int, ok: bool)
    ensures var lost := OnSampleTrack(t, ts, w, false);
      lost.stored == t.stored && OnSampleTrack(t, ts, w, true).stored == t.stored + [Sample(ts, w)] &&
      OnTickTrack(lost, now, ok) ==
        if now - ts >= 300 && ok then OnSampleTrack(t, now, w, true) else lost
  {
  }

  class Feed {
    var kaLast: map<string, Sample>
    var rows: seq<Row>
    var hvac: HvacKA
    var hvacRows: seq<(int, string)>

    ghost function TrackOf(e: string): Track
      reads this
    {
      Track(if e in kaLast then Some(kaLast[e]) else None, StoredOf(rows, e))
    }

    constructor ()
      ensures forall e :: TrackOf(e) == Track(None, [])
      ensures hvac == Unset && hvacRows == []
    {
      kaLast, rows, hvac, hvacRows := map[], [], Unset, [];
    }

    /** A monitored sample: stored when the insert goes through, remembered by the keepalive either way. */
    method OnSample(e: string, ts: int, w: real, ok: bool)
      modifies this`kaLast, this`rows
      ensures forall f :: TrackOf(f) == if f == e then OnSampleTrack(old(TrackOf(e)), ts, w, ok) else old(TrackOf(f))
    {
      if ok {
        StoredAppend(rows, Row(e, ts, w));
        rows := rows + [Row(e, ts, w)];
      }
      kaLast := kaLast[e := Sample(ts, w)];
    }

    /** An HVAC state change: an empty action is never stored; a real one is remembered only if it was stored. */
    method OnState(action: string, ts: int, ok: bool)
      modifies this`hvac, this`hvacRows
      ensures action == "" ==> hvac == Unset && hvacRows == old(hvacRows)
      ensures action != "" && ok ==> hvac == Asserted(action, ts) && hvacRows == old(hvacRows) + [(ts, action)]
      ensures action != "" && !ok ==> hvac == old(hvac) && hvacRows == old(hvacRows)
    {
      if action == "" {
        hvac := HvacTransition(hvac, "", ts);
        return;
      }
      if ok {
        hvacRows := hvacRows + [(ts, action)];
        hvac := HvacTransition(hvac, action, ts);
      }
    }

    /**
     * One tick: every entity silent for five minutes has its last value re-inserted at `now`; the same
     * for an asserted HVAC action, and nothing at all while none is asserted.
     */
    method Tick(now: int, failing: set<string>, hvacOk: bool)
      modifies this
      ensures forall e :: TrackOf(e) == OnTickTrack(old(TrackOf(e)), now, e !in failing)
      ensures old(hvac).Asserted? && Due(old(hvac).ts, now) && hvacOk
              ==> hvac == Asserted(old(hvac).action, now) && hvacRows == old(hvacRows) + [(now, old(hvac).action)]
      ensures !(old(hvac).Asserted? && Due(old(hvac).ts, now) && hvacOk) ==> hvac == old(hvac) && hvacRows == old(hvacRows)
    {
      TickSamples(now, failing);
      if hvac.Asserted? && now - hvac.ts >= KEEPALIVE {
        if hvacOk {
          hvacRows := hvacRows + [(now, hvac.action)];
          hvac := Asserted(hvac.action, now);
        }
      }
    }

    method TickSamples(now: int, failing: set<string>)
      modifies this`kaLast, this`rows
      ensures forall e :: TrackOf(e) == OnTickTrack(old(TrackOf(e)), now, e !in failing)
    {
      hide OnTickTrack, StoredOf;
      var todo := kaLast.Keys;
      assert forall e :: e !in kaLast ==> old(TrackOf(e)) == OnTickTrack(old(TrackOf(e)), now, e !in failing) by {
        UnknownStays(now);
      }
      while todo != {}
        invariant todo <= kaLast.Keys == old(kaLast).Keys
        invariant forall e :: e in todo || e !in kaLast ==> TrackOf(e) == old(TrackOf(e))
        invariant forall e :: e in kaLast && e !in todo ==> TrackOf(e) == OnTickTrack(old(TrackOf(e)), now, e !in failing)
        decreases todo
      {
        var e :| e in todo;
        TickOne(e, now, e !in failing);
        todo := todo - {e};
      }
    }

    method TickOne(e: string, now: int, ok: bool)
      requires e in kaLast
      modifies this`kaLast, this`rows
      ensures kaLast.Keys == old(kaLast).Keys
      ensures forall f :: TrackOf(f) == if f == e then OnTickTrack(old(TrackOf(e)), now, ok) else old(TrackOf(f))
    {
      var s := kaLast[e];
      if now - s.ts >= KEEPALIVE && ok {
        StoredAppend(rows, Row(e, now, s.w));
        rows := rows + [Row(e, now, s.w)];
        kaLast := kaLast[e := Sample(now, s.w)];
      }
    }
  }

  // ---- a healthy run of one entity ---------------------------------------------------------------

  datatype Event = Reported(ts: int, w: real) | Ticked(ts: int)

  /** Times never go back and every tick falls exactly five minutes after the one before. */
  predicate OnTime(events: seq<Event>, clock: int, nextTick: int)
    decreases |events|
  {
    events == [] ||
    (clock <= events[0].ts <= nextTick &&
     if events[0].Reported? then OnTime(events[1..], events[0].ts, nextTick)
     else events[0].ts == nextTick && OnTime(events[1..], nextTick, nextTick + KEEPALIVE))
  }

  function Replay(t: Track, events: seq<Event>): Track
    decreases |events|
  {
    if events == [] then t
    else
      var next := match events[0]
        case Reported(ts, w) => OnSampleTrack(t, ts, w, true)
        case Ticked(ts) => OnTickTrack(t, ts, true);
      Replay(next, events[1..])
  }

  /** The time of the last event of a run that starts at `clock`. */
  function EndOf(events: seq<Event>, clock: int): int {
    if events == [] then clock else events[|events| - 1].ts
  }

  /** Stored samples ascend and are less than ten minutes apart. */
  ghost predicate Dense(stored: seq<Sample>) {
    forall i {:trigger stored[i]} :: 0 < i < |stored| ==> 0 <= stored[i].ts - stored[i - 1].ts < 2 * KEEPALIVE
  }

  ghost predicate Healthy(t: Track, clock: int, nextTick: int) {
    && clock <= nextTick
    && Dense(t.stored)
    && (t.stored == [] ==> t.ka == None)
    && (t.stored != [] ==>
          && t.ka == Some(t.stored[|t.stored| - 1])
          && nextTick - 2 * KEEPALIVE < t.stored[|t.stored| - 1].ts <= clock)
  }

  lemma DenseAppend(stored: seq<Sample>, s: Sample)
    requires Dense(stored)
    requires stored != [] ==> 0 <= s.ts - stored[|stored| - 1].ts < 2 * KEEPALIVE
    ensures Dense(stored + [s])
  {
    forall i | 0 < i < |stored + [s]|
      ensures 0 <= (stored + [s])[i].ts - (stored + [s])[i - 1].ts < 2 * KEEPALIVE
    {
      assert i < |stored| ==> (stored + [s])[i] == stored[i];
    }
  }

  lemma HealthySample(t: Track, ts: int, w: real, clock: int, nextTick: int)
    requires Healthy(t, clock, nextTick) && clock <= ts <= nextTick && nextTick - KEEPALIVE <= ts
    ensures Healthy(OnSampleTrack(t, ts, w, true), ts, nextTick)
  {
    DenseAppend(t.stored, Sample(ts, w));
  }

  lemma HealthyTick(t: Track, clock: int, nextTick: int)
    requires Healthy(t, clock, nextTick)
    ensures Healthy(OnTickTrack(t, nextTick, true), nextTick, nextTick + KEEPALIVE)
  {
    if t.ka.Some? && Due(t.ka.value.ts, nextTick) {
      DenseAppend(t.stored, Sample(nextTick, t.ka.value.w));
    }
  }

  lemma {:induction false} HealthyRun(t: Track, events: seq<Event>, clock: int, nextTick: int) returns (next: int)
    requires Healthy(t, clock, nextTick) && OnTime(events, clock, nextTick) && nextTick - KEEPALIVE <= clock
    ensures Healthy(Replay(t, events), EndOf(events, clock), next) && next - KEEPALIVE <= EndOf(events, clock)
    decreases |events|
  {
    if events == [] {
      return nextTick;
    }
    var e, rest := events[0], events[1..];
    assert EndOf(events, clock) == EndOf(rest, e.ts);
    match e
    case Reported(ts, w) =>
      HealthySample(t, ts, w, clock, nextTick);
      next := HealthyRun(OnSampleTrack(t, ts, w, true), rest, ts, nextTick);
    case Ticked(ts) =>
      HealthyTick(t, clock, nextTick);
      next := HealthyRun(OnTickTrack(t, ts, true), rest, ts, nextTick + KEEPALIVE);
  }

  /** While ticks are on time and inserts succeed, no ten minutes ever pass without a stored sample. */
  lemma NeverTenMinutesSilent(events: seq<Event>, began: int)
    requires OnTime(events, began, began + KEEPALIVE)
    ensures var stored := Replay(Track(None, []), events).stored;
            && Dense(stored)
            && (stored != [] ==> EndOf(events, began) - stored[|stored| - 1].ts < 2 * KEEPALIVE)
  {
    var next := HealthyRun(Track(None, []), events, began, began + KEEPALIVE);
  }

  /** The bound is tight: a change one second after a tick is next confirmed 599 seconds later. */
  lemma AlmostTenMinutes(w: real)
    ensures var events := [Ticked(300), Reported(301, w), Ticked(600), Ticked(900)];
            OnTime(events, 0, 300) && Replay(Track(None, []), events).stored == [Sample(301, w), Sample(900, w)]
  {
    var events := [Ticked(300), Reported(301, w), Ticked(600), Ticked(900)];
    assert events[1..] == [Reported(301, w), Ticked(600), Ticked(900)];
    assert [Reported(301, w), Ticked(600), Ticked(900)][1..] == [Ticked(600), Ticked(900)];
    assert [Ticked(600), Ticked(900)][1..] == [Ticked(900)] && [Ticked(900)][1..] == [];
    assert OnTime([Ticked(900)], 600, 900) && OnTime([Ticked(600), Ticked(900)], 301, 600);
    assert OnTime([Reported(301, w), Ticked(600), Ticked(900)], 300, 600);
    var t := Track(Some(Sample(301, w)), [Sample(301, w)]);
    assert OnSampleTrack(Track(None, []), 301, w, true) == t && OnTickTrack(t, 600, true) == t;
    assert Replay(t, [Ticked(900)]) == Track(Some(Sample(900, w)), t.stored + [Sample(900, w)]);
    assert Replay(t, [Ticked(600), Ticked(900)]) == Replay(t, [Ticked(900)]);
    assert Replay(Track(None, []), [Reported(301, w), Ticked(600), Ticked(900)]) == Replay(t, [Ticked(600), Ticked(900)]);
  }

  // ---- bounded carry -----------------------------------------------------------------------------

  function Minute(ts: int): int {
    ts - ts % 60
  }

  /** locf and max(ts): the sample with the latest time among those whose minute is at or before `mt`. */
  function Source(stored: seq<Sample>, mt: int): (i: Option<nat>)
    ensures i.Some? ==> i.value < |stored|
  {
    if stored == [] then None
    else
      var n := |stored| - 1;
      var before := Source(stored[..n], mt);
      if Minute(stored[n].ts) <= mt && (before.None? || stored[before.value].ts <= stored[n].ts) then Some(n) else before
  }

  function MinuteSum(stored: seq<Sample>, mt: int): (real, nat) {
    if stored == [] then (0.0, 0)
    else
      var s := stored[|stored| - 1];
      var before := MinuteSum(stored[..|stored| - 1], mt);
      if Minute(s.ts) == mt then (before.0 + s.w, before.1 + 1) else before
  }

  /** `avg(power_w)` of one minute's samples. */
  function MinuteAvg(stored: seq<Sample>, mt: int): real {
    var s := MinuteSum(stored, mt);
    if s.1 == 0 then 0.0 else s.0 / s.1 as real
  }

  /** `per_entity.w` for one minute: the carried average, or NULL past the carry limit. */
  function Carried(stored: seq<Sample>, mt: int): Option<real> {
    match Source(stored, mt)
    case None => None
    case Some(i) =>
      if mt <= stored[i].ts + CARRY_LIMIT then Some(MinuteAvg(stored, Minute(stored[i].ts))) else None
  }

  /** Whatever order the rows were inserted in, the source is the latest in time; of equals, the later row. */
  lemma {:induction false} SourceIsLatest(stored: seq<Sample>, mt: int)
    ensures match Source(stored, mt)
      case None => forall j :: 0 <= j < |stored| ==> mt < Minute(stored[j].ts)
      case Some(i) =>
        Minute(stored[i].ts) <= mt &&
        forall j :: 0 <= j < |stored| && Minute(stored[j].ts) <= mt ==>
          stored[j].ts <= stored[i].ts && (i < j ==> stored[j].ts < stored[i].ts)
  {
    if stored != [] {
      var n := |stored| - 1;
      SourceIsLatest(stored[..n], mt);
      forall j | 0 <= j < n ensures stored[..n][j] == stored[j] {}
    }
  }

  /** Samples under ten minutes apart leave no NULL minute from the first sample's minute to ten minutes past the last. */
  lemma NoNullMinute(stored: seq<Sample>, mt: int)
    requires Dense(stored) && stored != [] && mt % 60 == 0
    requires Minute(stored[0].ts) <= mt < stored[|stored| - 1].ts + 2 * KEEPALIVE
    ensures Carried(stored, mt).Some?
  {
    hide MinuteAvg, Source;
    SourceIsLatest(stored, mt);
    var i := Source(stored, mt).value;
    if i + 1 < |stored| {
      assert 0 <= stored[i + 1].ts - stored[i].ts < 2 * KEEPALIVE;
    }
  }

  /**
   * The keepalive and the carry together: while ticks are on time and inserts succeed, every minute from the
   * entity's first stored sample up to the present has a value.
   */
  lemma HealthyFeedHasNoNullMinute(events: seq<Event>, began: int, mt: int)
    requires OnTime(events, began, began + KEEPALIVE) && mt % 60 == 0
    requires var stored := Replay(Track(None, []), events).stored;
      stored != [] && Minute(stored[0].ts) <= mt <= EndOf(events, began)
    ensures Carried(Replay(Track(None, []), events).stored, mt).Some?
  {
    hide Carried, Source, Replay, OnTime, Dense;
    var stored := Replay(Track(None, []), events).stored;
    NeverTenMinutesSilent(events, began);
    NoNullMinute(stored, mt);
  }

  /** `last` is the time of the latest sample, wherever it stands among the rows. */
  ghost predicate LatestAt(stored: seq<Sample>, last: int) {
    (exists i :: 0 <= i < |stored| && stored[i].ts == last) && forall i :: 0 <= i < |stored| ==> stored[i].ts <= last
  }

  // ---- what is carried -------------------------------------------------------------------------------

  function SumOf(xs: seq<real>): real {
    if xs == [] then 0.0 else SumOf(xs[..|xs| - 1]) + xs[|xs| - 1]
  }

  /** The powers of the samples in the sixty seconds from `from`. */
  function WattsIn(stored: seq<Sample>, from: int): seq<real> {
    if stored == [] then []
    else
      var n := |stored| - 1;
      WattsIn(stored[..n], from) + if from <= stored[n].ts < from + 60 then [stored[n].w] else []
  }

  /** w is the mean: as often as there are values, it is their sum. */
  ghost predicate IsMeanOf(w: real, xs: seq<real>) {
    xs != [] && w * |xs| as real == SumOf(xs)
  }

  lemma MinuteHolds(ts: int, from: int)
    requires from % 60 == 0
    ensures Minute(ts) == from <==> from <= ts < from + 60
    ensures Minute(ts) <= from <==> ts < from + 60
    ensures Minute(ts) % 60 == 0 && Minute(ts) <= ts < Minute(ts) + 60
  {
  }

  lemma {:induction false} MinuteSumIs(stored: seq<Sample>, from: int)
    requires from % 60 == 0
    ensures MinuteSum(stored, from) == (SumOf(WattsIn(stored, from)), |WattsIn(stored, from)|)
  {
    if stored != [] {
      hide Minute;
      var n := |stored| - 1;
      MinuteSumIs(stored[..n], from);
      MinuteHolds(stored[n].ts, from);
      SumLast(WattsIn(stored[..n], from), stored[n].w);
    }
  }

  lemma SumLast(xs: seq<real>, x: real)
    ensures SumOf(xs + [x]) == SumOf(xs) + x && xs + [] == xs
  {
    assert (xs + [x])[..|xs|] == xs;
  }

  lemma MeanTimesCount(sum: real, n: nat, w: real)
    requires n > 0 && w == sum / n as real
    ensures w * n as real == sum
  {
  }

  lemma AverageIsMean(stored: seq<Sample>, from: int)
    requires from % 60 == 0 && WattsIn(stored, from) != []
    ensures IsMeanOf(MinuteAvg(stored, from), WattsIn(stored, from))
  {
    hide MinuteSum;
    MinuteSumIs(stored, from);
    MeanTimesCount(SumOf(WattsIn(stored, from)), |WattsIn(stored, from)|, MinuteAvg(stored, from));
  }

  lemma {:induction false} WattsThere(stored: seq<Sample>, from: int, i: nat)
    requires i < |stored| && from <= stored[i].ts < from + 60
    ensures WattsIn(stored, from) != []
  {
    if i < |stored| - 1 {
      WattsThere(stored[..|stored| - 1], from, i);
    }
  }

  /** `last` is the latest time among the samples up to and including minute mt, in whatever order they are stored. */
  ghost predicate LatestUpTo(stored: seq<Sample>, mt: int, last: int) {
    (exists i :: 0 <= i < |stored| && stored[i].ts == last) && last < mt + 60 &&
    forall i :: 0 <= i < |stored| && stored[i].ts < mt + 60 ==> stored[i].ts <= last
  }

  /**
   * The value of a minute: nothing while there is no sample yet or the latest is more than fifteen minutes old,
   * else the mean of the samples of the latest sample's minute.
   */
  lemma CarriedIsTheMean(stored: seq<Sample>, mt: int, last: int)
    requires mt % 60 == 0 && LatestUpTo(stored, mt, last)
    ensures Carried(stored, mt).Some? <==> mt <= last + 900
    ensures Carried(stored, mt).Some? ==> IsMeanOf(Carried(stored, mt).value, WattsIn(stored, last - last % 60))
  {
    hide MinuteAvg, Source, Minute, IsMeanOf, WattsIn;
    SourceIsLatest(stored, mt);
    forall j | 0 <= j < |stored| ensures Minute(stored[j].ts) <= mt <==> stored[j].ts < mt + 60 {
      MinuteHolds(stored[j].ts, mt);
    }
    var i := Source(stored, mt).value;
    assert stored[i].ts == last;
    assert last - last % 60 == Minute(last) by { MinuteIs(last); }
    MinuteHolds(last, Minute(last)) by { MinuteIs(last); }
    WattsThere(stored, Minute(last), i);
    AverageIsMean(stored, Minute(last));
  }

  lemma MinuteIs(ts: int)
    ensures Minute(ts) == ts - ts % 60 && Minute(ts) % 60 == 0 && Minute(ts) <= ts < Minute(ts) + 60
  {
  }

  lemma NothingToCarry(stored: seq<Sample>, mt: int)
    requires mt % 60 == 0 && forall i :: 0 <= i < |stored| ==> stored[i].ts >= mt + 60
    ensures Carried(stored, mt).None?
  {
    hide MinuteAvg, Source;
    SourceIsLatest(stored, mt);
  }

  lemma {:induction false} SumBetween(xs: seq<real>, lo: real, hi: real)
    requires forall i :: 0 <= i < |xs| ==> lo <= xs[i] <= hi
    ensures lo * |xs| as real <= SumOf(xs) <= hi * |xs| as real
  {
    if xs != [] {
      var n := |xs| - 1;
      SumBetween(xs[..n], lo, hi);
      OneMore(n + 1, lo);
      OneMore(n + 1, hi);
    }
  }

  lemma {:induction false} WattsBetween(stored: seq<Sample>, from: int, lo: real, hi: real)
    requires forall i :: 0 <= i < |stored| && from <= stored[i].ts < from + 60 ==> lo <= stored[i].w <= hi
    ensures forall i :: 0 <= i < |WattsIn(stored, from)| ==> lo <= WattsIn(stored, from)[i] <= hi
  {
    if stored != [] {
      WattsBetween(stored[..|stored| - 1], from, lo, hi);
    }
  }

  lemma MeanOrder(w: real, n: real, sum: real, lo: real, hi: real)
    requires n > 0.0 && sum == w * n && lo * n <= sum <= hi * n
    ensures lo <= w <= hi
  {
    if w < lo {
      LessTimes(w, lo, n);
    }
    if hi < w {
      LessTimes(hi, w, n);
    }
  }

  lemma LessTimes(a: real, b: real, n: real)
    requires a < b && n > 0.0
    ensures a * n < b * n
  {
  }

  /** The mean lies between any bounds of the minute's samples: a constant feed is carried as itself. */
  lemma MeanIsBetween(stored: seq<Sample>, from: int, w: real, lo: real, hi: real)
    requires IsMeanOf(w, WattsIn(stored, from))
    requires forall i :: 0 <= i < |stored| && from <= stored[i].ts < from + 60 ==> lo <= stored[i].w <= hi
    ensures lo <= w <= hi
  {
    hide WattsIn, SumOf;
    var xs := WattsIn(stored, from);
    WattsBetween(stored, from, lo, hi);
    SumBetween(xs, lo, hi);
    MeanOrder(w, |xs| as real, SumOf(xs), lo, hi);
  }

  /** Once the feed dies, exactly the next fifteen minute buckets are credited, with the mean of the last minute. */
  lemma DeadFeedIsCreditedFifteenMinutes(stored: seq<Sample>, last: int, w: real, k: nat)
    requires LatestAt(stored, last) && IsMeanOf(w, WattsIn(stored, last - last % 60)) && k >= 1
    ensures Carried(stored, last - last % 60 + 60 * k) == if k <= 15 then Some(w) else None
  {
    hide WattsIn, SumOf, Carried;
    CarriedIsTheMean(stored, last - last % 60 + 60 * k, last);
    if k <= 15 {
      MeanIsUnique(Carried(stored, last - last % 60 + 60 * k).value, w, WattsIn(stored, last - last % 60));
    }
  }

  lemma MeanIsUnique(v: real, w: real, xs: seq<real>)
    requires IsMeanOf(v, xs) && IsMeanOf(w, xs)
    ensures v == w
  {
    if v < w {
      LessTimes(v, w, |xs| as real);
    } else if w < v {
      LessTimes(w, v, |xs| as real);
    }
  }

  /** Watt-minutes to kWh over `n` minutes from `from`, NULL minutes counting as zero. */
  function Energy(stored: seq<Sample>, from: int, n: nat): real {
    if n == 0 then 0.0
    else
      Energy(stored, from, n - 1)
      + (match Carried(stored, from + 60 * (n - 1)) case Some(w) => w case None => 0.0) / 60.0 / 1000.0
  }

  /** An outage of any length fabricates at most a quarter of an hour at the mean of the last minute. */
  lemma {:induction false} OutageEnergy(stored: seq<Sample>, last: int, w: real, n: nat)
    requires LatestAt(stored, last) && IsMeanOf(w, WattsIn(stored, last - last % 60))
    ensures Energy(stored, last - last % 60 + 60, n) == Min(n, 15) as real * (w / 60.0 / 1000.0)
  {
    hide LatestAt, Carried, IsMeanOf, WattsIn;
    var c := w / 60.0 / 1000.0;
    if n > 0 {
      OutageEnergy(stored, last, w, n - 1);
      DeadFeedIsCreditedFifteenMinutes(stored, last, w, n);
      OneMoreOfFifteen(n, c);
    }
  }

  lemma OneMoreOfFifteen(n: nat, c: real)
    requires n > 0
    ensures Min(n, 15) as real * c == Min(n - 1, 15) as real * c + if n <= 15 then c else 0.0
  {
    if n <= 15 {
      OneMore(n, c);
    }
  }

  // ---- statistics backfill -----------------------------------------------------------------------

  /** An hourly mean written as twelve samples, five minutes apart. */
  function HourSamples(start: int, w: real): seq<Sample> {
    seq(12, k => Sample(start + 300 * k, w))
  }

  lemma {:induction false} OnlyOneInMinute(start: int, w: real, n: nat, k: nat)
    requires start % 60 == 0 && k < n <= 12
    ensures MinuteSum(HourSamples(start, w)[..n], start + 300 * k) == (w, 1)
  {
    var s := HourSamples(start, w)[..n];
    assert s[..n - 1] == HourSamples(start, w)[..n - 1];
    if k + 1 < n {
      OnlyOneInMinute(start, w, n - 1, k);
    } else {
      NoneInMinute(start, w, n - 1, start + 300 * k);
    }
  }

  lemma {:induction false} NoneInMinute(start: int, w: real, n: nat, mt: int)
    requires start % 60 == 0 && n <= 12 && mt >= start + 300 * n
    ensures MinuteSum(HourSamples(start, w)[..n], mt) == (0.0, 0)
  {
    if n > 0 {
      assert HourSamples(start, w)[..n][..n - 1] == HourSamples(start, w)[..n - 1];
      NoneInMinute(start, w, n - 1, mt);
    }
  }

  lemma {:induction false} HourCarried(start: int, w: real, m: nat)
    requires start % 60 == 0 && m < 60
    ensures Carried(HourSamples(start, w), start + 60 * m) == Some(w)
  {
    hide MinuteSum, MinuteAvg, Source, Minute;
    var stored := HourSamples(start, w);
    HourSource(start, w, m);
    assert stored[..12] == stored;
    OnlyOneInMinute(start, w, 12, m / 5);
    AverageOfOne(stored, start + 300 * (m / 5), w);
  }

  lemma AverageOfOne(stored: seq<Sample>, mt: int, w: real)
    requires MinuteSum(stored, mt) == (w, 1)
    ensures MinuteAvg(stored, mt) == w
  {
  }

  /** Minute m of the hour carries its sample number m / 5, which stands at a whole minute. */
  lemma HourSource(start: int, w: real, m: nat)
    requires start % 60 == 0 && m < 60
    ensures Source(HourSamples(start, w), start + 60 * m) == Some(m / 5)
    ensures var ts := HourSamples(start, w)[m / 5].ts; Minute(ts) == ts == start + 300 * (m / 5)
  {
    hide Source;
    var stored := HourSamples(start, w);
    SourceIsLatest(stored, start + 60 * m);
    assert Minute(stored[m / 5].ts) == stored[m / 5].ts;
    var i := Source(stored, start + 60 * m).value;
    assert stored[i].ts == start + 300 * i;
  }

  lemma OneMore(n: nat, c: real)
    requires n > 0
    ensures n as real * c == (n - 1) as real * c + c
  {
  }

  lemma {:induction false} HourEnergy(start: int, w: real, n: nat)
    requires start % 60 == 0 && n <= 60
    ensures Energy(HourSamples(start, w), start, n) == n as real * (w / 60.0 / 1000.0)
  {
    hide Carried, HourSamples;
    if n > 0 {
      HourEnergy(start, w, n - 1);
      HourCarried(start, w, n - 1);
      OneMore(n, w / 60.0 / 1000.0);
    }
  }

  /** The five-minute density makes the bounded gap-fill integrate an hourly mean exactly: w watts for one hour. */
  lemma HourIsIntegratedExactly(start: int, w: real)
    requires start % 60 == 0
    ensures Energy(HourSamples(start, w), start, 60) == w / 1000.0
  {
    HourEnergy(start, w, 60);
  }
}
