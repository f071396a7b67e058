/**
 * The one-off materialisation of the hourly aggregate over stored history: seven-day ranges behind a
 * watermark that survives restarts, with every database call free to fail.
 */
module CaggBackfill {
  import opened Common

  const HOUR := 3600
  const STEP := 7 * 24 * HOUR
  const LAG := 48 * HOUR

  /** Truncation to the hour. */
  function HourOf(t: int): int {
    t - t % HOUR
  }

  /** What one turn of the loop meets: which calls fail, the clock, and the oldest reading if there is one. */
  datatype Turn = Turn(readFails: bool, oldest: Option<int>, now: int, refreshFails: bool, writeFails: bool)

  function Target(now: int): int {
    HourOf(now - LAG)
  }

  datatype Exit =
    | Cancelled
    | FreshInstall
    | CaughtUp(from: int, target: int)

  predicate Inside(ranges: seq<Range>, t: int) {
    exists i | 0 <= i < |ranges| :: ranges[i].lo <= t < ranges[i].hi
  }

  ghost predicate Covers(ranges: seq<Range>, lo: int, hi: int) {
    forall t :: lo <= t < hi ==> Inside(ranges, t)
  }

  lemma InsideGrows(ranges: seq<Range>, s: Range, t: int)
    ensures Inside(ranges + [s], t) <==> Inside(ranges, t) || s.lo <= t < s.hi
  {
    assert (ranges + [s])[|ranges|] == s;
    if i :| 0 <= i < |ranges| && ranges[i].lo <= t < ranges[i].hi {
      assert (ranges + [s])[i] == ranges[i];
    }
  }

  lemma CoversNext(ranges: seq<Range>, lo: int, from: int, to: int)
    requires Covers(ranges, lo, from)
    ensures Covers(ranges + [Range(from, to)], lo, to)
  {
    forall t | lo <= t < to ensures Inside(ranges + [Range(from, to)], t) {
      InsideGrows(ranges, Range(from, to), t);
    }
  }

  lemma CoversLess(ranges: seq<Range>, lo: int, less: int, hi: int)
    requires Covers(ranges, lo, hi) && less <= hi
    ensures Covers(ranges, lo, less)
  {
  }

  lemma CoversStays(ranges: seq<Range>, s: Range, lo: int, hi: int)
    requires Covers(ranges, lo, hi)
    ensures Covers(ranges + [s], lo, hi)
  {
    forall t | lo <= t < hi ensures Inside(ranges + [s], t) {
      InsideGrows(ranges, s, t);
    }
  }

  /** Ranges the loop may ask for: not empty, at most a step long, and nothing the refresh policy still owns. */
  ghost predicate Allowed(s: Range, turns: seq<Turn>) {
    s.lo < s.hi <= s.lo + STEP && exists i | 0 <= i < |turns| :: s.hi <= Target(turns[i].now)
  }

  class Worker {
    /** The stored setting, if it is there and parses. */
    var mark: Option<int>
    /** The ranges whose refresh succeeded. */
    var refreshed: seq<Range>
    /** Where the watermark started. */
    ghost var origin: int

    constructor ()
      ensures Valid() && mark.None? && refreshed == []
    {
      mark, refreshed, origin := None, [], 0;
    }

    /** Everything between the start and the watermark has been materialised. */
    ghost predicate Valid()
      reads this
    {
      mark.Some? ==> origin <= mark.value && Covers(refreshed, origin, mark.value)
    }

    /** Where the next range starts: the watermark, or the hour of the oldest reading. */
    function From(turn: Turn): Option<int>
      reads this
    {
      if mark.Some? then mark else if turn.oldest.Some? then Some(HourOf(turn.oldest.value)) else None
    }

    /** One turn; an exit of None goes round again. */
    method Once(turn: Turn) returns (exit: Option<Exit>)
      requires Valid()
      modifies this
      ensures Valid()
      ensures old(mark).Some? ==> origin == old(origin) && mark.Some? && old(mark).value <= mark.value
      ensures refreshed == old(refreshed) || (exists s :: refreshed == old(refreshed) + [s] && Allowed(s, [turn]))
      ensures old(mark).None? && mark.Some? ==> origin == if turn.oldest.Some? then HourOf(turn.oldest.value) else turn.now
      ensures turn.readFails || turn.refreshFails || turn.writeFails || old(From(turn)).None? || exit.Some? ||
        mark == Some(Min(old(From(turn)).value + STEP, Target(turn.now)))
      ensures exit != Some(Cancelled)
      ensures exit == Some(FreshInstall) <==> !turn.readFails && old(mark).None? && turn.oldest.None?
      ensures exit.Some? && exit.value.CaughtUp? ==>
        mark == old(mark) && old(From(turn)) == Some(exit.value.from) && exit.value.target == Target(turn.now) <= exit.value.from
      ensures exit.None? && !turn.readFails ==> old(From(turn)).value < Target(turn.now)
    {
      if turn.readFails {
        return None;
      }
      var from: int;
      if mark.Some? {
        from := mark.value;
      } else if turn.oldest.None? {
        if !turn.writeFails {
          mark, origin := Some(turn.now), turn.now;
        }
        return Some(FreshInstall);
      } else {
        from := HourOf(turn.oldest.value);
      }
      var target := Target(turn.now);
      if from >= target {
        return Some(CaughtUp(from, target));
      }
      var to := from + STEP;
      if to > target {
        to := target;
      }
      if turn.refreshFails {
        return None;
      }
      ghost var start := if mark.Some? then origin else from;
      assert Covers(refreshed, start, from);
      CoversNext(refreshed, start, from, to);
      if mark.Some? {
        CoversStays(refreshed, Range(from, to), origin, mark.value);
      }
      assert Allowed(Range(from, to), [turn]) by { assert [turn][0] == turn; }
      refreshed := refreshed + [Range(from, to)];
      if !turn.writeFails {
        mark, origin := Some(to), start;
      }
      exit := None;
    }

    /**
     * The loop, over whatever turns it gets before it is cancelled. The watermark never moves back and never
     * passes what has been materialised; the loop ends by itself only once history is covered up to the
     * part the refresh policy owns, or there is none. While nothing fails and the policy's boundary stands
     * still, the watermark is as many steps on as there were turns, or at the boundary.
     */
    method CaggBackfillLoop(turns: seq<Turn>) returns (exit: Exit)
      requires Valid()
      modifies this
      ensures Valid()
      ensures old(mark).Some? ==> origin == old(origin) && mark.Some? && old(mark).value <= mark.value
      ensures old(refreshed) <= refreshed
      ensures forall i :: |old(refreshed)| <= i < |refreshed| ==> Allowed(refreshed[i], turns)
      ensures exit.CaughtUp? && mark.Some? ==> exit.target <= mark.value && Covers(refreshed, origin, exit.target)
      ensures forall from, target :: WalksFrom(old(if turns == [] then None else From(turns[0])), from, target, turns) ==>
        mark == Some(Advanced(from, target, |turns|))
      ensures exit.CaughtUp? && mark.None? ==>
        exists i | 0 <= i < |turns| ::
          turns[i].oldest.Some? && exit.target == Target(turns[i].now) <= HourOf(turns[i].oldest.value)
    {
      hide Advanced, Covers, Allowed, Target;
      ghost var start := if turns == [] then None else From(turns[0]);
      for n := 0 to |turns|
        invariant Valid()
        invariant old(mark).Some? ==> origin == old(origin) && mark.Some? && old(mark).value <= mark.value
        invariant old(refreshed) <= refreshed
        invariant forall i :: |old(refreshed)| <= i < |refreshed| ==> Allowed(refreshed[i], turns)
        invariant n == 0 ==> mark == old(mark)
        invariant forall from, target :: WalksFrom(start, from, target, turns) && n > 0 ==>
          mark == Some(Advanced(from, target, n))
      {
        ghost var before := refreshed;
        ghost var reached := From(turns[n]);
        var out := Once(turns[n]);
        forall from, target | WalksFrom(start, from, target, turns)
          ensures mark == Some(Advanced(from, target, n + 1))
          ensures out.Some? ==> mark == Some(Advanced(from, target, |turns|))
        {
          AdvancedIs(from, target, 0);
          WalkStep(from, target, n, |turns|, reached, mark, out.Some?);
        }
        if refreshed != before {
          OneMoreAllowed(before, refreshed, turns, n);
        }
        if out.Some? {
          if out.value.CaughtUp? && mark.Some? {
            CoversLess(refreshed, origin, out.value.target, mark.value);
          }
          return out.value;
        }
      }
      exit := Cancelled;
    }
  }

  lemma OneMoreAllowed(before: seq<Range>, after: seq<Range>, turns: seq<Turn>, n: nat)
    requires n < |turns| && exists s :: after == before + [s] && Allowed(s, [turns[n]])
    ensures before <= after && |after| == |before| + 1 && Allowed(after[|before|], turns)
  {
  }

  /** The first range starts at `from`, before a boundary that stands still, and no call fails. */
  ghost predicate WalksFrom(start: Option<int>, from: int, target: int, turns: seq<Turn>) {
    start == Some(from) && from < target && turns != [] &&
    forall i :: 0 <= i < |turns| ==>
      !turns[i].readFails && !turns[i].refreshFails && !turns[i].writeFails && Target(turns[i].now) == target
  }

  // ---- how long it takes -----------------------------------------------------------------------------

  /** The watermark after n turns in which nothing fails, with the policy's boundary at `target`. */
  function Advanced(from: int, target: int, n: nat): int
    decreases n
  {
    if n == 0 || from >= target then from else Advanced(Min(from + STEP, target), target, n - 1)
  }

  /** It walks in whole steps and stops exactly at the boundary. */
  lemma {:induction false} AdvancedIs(from: int, target: int, n: nat)
    requires from <= target
    ensures Advanced(from, target, n) == Min(from + n * STEP, target)
    decreases n
  {
    if n > 0 && from < target {
      AdvancedIs(Min(from + STEP, target), target, n - 1);
    }
  }

  /** So n turns suffice exactly when n steps span the history. */
  lemma CatchesUpIff(from: int, target: int, n: nat)
    requires from <= target
    ensures Advanced(from, target, n) == target <==> target - from <= n * STEP
  {
    AdvancedIs(from, target, n);
  }

  /** One undisturbed turn moves the watermark on as Advanced says, or finds it at the boundary for good. */
  lemma WalkStep(from: int, target: int, n: nat, turns: nat, reached: Option<int>, mark: Option<int>, caughtUp: bool)
    requires from < target && n < turns && reached == Some(Advanced(from, target, n))
    requires if caughtUp then target <= reached.value && mark == reached
      else mark == Some(Min(reached.value + STEP, target)) && reached.value < target
    ensures mark == Some(Advanced(from, target, n + 1))
    ensures caughtUp ==> mark == Some(Advanced(from, target, turns))
  {
    hide Advanced;
    AdvancedIs(from, target, n);
    AdvancedIs(from, target, n + 1);
    AdvancedIs(from, target, turns);
  }

  /** The boundary is a whole hour, at least two days behind the clock and less than an hour more; a step is a week. */
  lemma BoundaryBehindTheClock(now: int)
    ensures Target(now) % 3600 == 0 && Target(now) <= now - 172800 < Target(now) + 3600
    ensures STEP == 604800
  {
  }

  /** A backfill without a watermark starts at the hour of the oldest reading. */
  lemma HourHolds(t: int)
    ensures HourOf(t) % 3600 == 0 && HourOf(t) <= t < HourOf(t) + 3600
  {
  }
}
