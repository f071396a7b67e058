/** The auto-window detector of the worker and the window table it writes. */
module AutoWindow {
  import opened Common

  const AUTO_MAX: int := 900        // seconds
  const AUTO_MIN: int := 180
  const AUTO_COOLDOWN: int := 300
  const BASELINE_A: real := 0.02
  const DEV_A: real := 0.05
  const DEFAULT_DELTA: real := 400.0
  const ZERO_TIME: int := -62_135_596_800   // Go's zero time, in Unix seconds

  datatype Auto = Auto(
    inited: bool, baseline: real, dev: real, open: bool, openID: int, openedAt: int, lastClosedAt: int)

  datatype Action = Nothing | Open | Close | Discard

  function Initial(): Auto {
    Auto(false, 0.0, 0.0, false, 0, ZERO_TIME, ZERO_TIME)
  }

  function Delta(openDelta: real): real {
    if openDelta <= 0.0 then DEFAULT_DELTA else openDelta
  }

  /** Baseline and noise move only while no window is open. */
  function Track(aw: Auto, power: real): Auto {
    if aw.open then aw
    else aw.(dev := aw.dev * (1.0 - DEV_A) + AbsR(power - aw.baseline) * DEV_A,
             baseline := aw.baseline * (1.0 - BASELINE_A) + power * BASELINE_A)
  }

  /** The verdict on one sample, from the state after tracking it. */
  function Decide(aw: Auto, power: real, openDelta: real, now: int): Action {
    if !aw.open then
      if power >= aw.baseline + MaxR(Delta(openDelta), 3.0 * aw.dev) && now - aw.lastClosedAt >= AUTO_COOLDOWN
      then Open else Nothing
    else if power < aw.baseline + MaxR(Delta(openDelta) * 0.5, 1.5 * aw.dev) || now - aw.openedAt >= AUTO_MAX then
      if now - aw.openedAt < AUTO_MIN then Discard else Close
    else Nothing
  }

  // ---- the window table ---------------------------------------------------------------------------

  datatype Window = Window(start: int, end: Option<int>, auto: bool)

  /** Rows by id; `next` is the id the next insert gets. */
  datatype Table = Table(rows: map<int, Window>, next: int)

  predicate IsOpenAuto(t: Table, id: int) {
    id in t.rows && t.rows[id].auto && t.rows[id].end.None?
  }

  function Stopped(t: Table, id: int, end: int): Table {
    if id in t.rows && t.rows[id].end.None? then t.(rows := t.rows[id := t.rows[id].(end := Some(end))]) else t
  }

  /** One summed-power sample as the callback sees it. `createOk`: the insert of a new window goes through. */
  datatype Sample = Sample(now: int, power: real, openDelta: real, on: bool, createOk: bool)

  datatype World = World(aw: Auto, table: Table)

  /** First call: adopt the newest open auto window, if any, and take the power as baseline. */
  function Adopted(w: World, power: real, found: Option<int>): Auto
    requires found.Some? ==> found.value in w.table.rows
  {
    if w.aw.inited then w.aw
    else
      var aw := w.aw.(inited := true, baseline := power);
      if found.Some? then aw.(open := true, openID := found.value, openedAt := w.table.rows[found.value].start) else aw
  }

  /** `OpenWindow("auto")`: the open auto window with the latest start. */
  ghost predicate IsFound(t: Table, found: Option<int>) {
    match found
    case None => forall id :: !IsOpenAuto(t, id)
    case Some(f) => IsOpenAuto(t, f) && forall id :: IsOpenAuto(t, id) ==> t.rows[id].start <= t.rows[f].start
  }

  /** What the query may answer: a window it reports is right, but "none" may be a failed query. */
  ghost predicate MayAnswer(t: Table, found: Option<int>) {
    found.Some? ==> IsFound(t, found)
  }

  function Act(w: World, s: Sample, action: Action): World {
    match action
    case Nothing => w
    case Open =>
      if !s.createOk then w
      else World(w.aw.(open := true, openID := w.table.next, openedAt := s.now),
                 Table(w.table.rows[w.table.next := Window(s.now, None, true)], w.table.next + 1))
    case Close => World(w.aw.(open := false, lastClosedAt := s.now), Stopped(w.table, w.aw.openID, s.now))
    case Discard =>
      World(w.aw.(open := false, lastClosedAt := s.now), w.table.(rows := w.table.rows - {w.aw.openID}))
  }

  function Step(w: World, s: Sample, found: Option<int>): World
    requires found.Some? ==> found.value in w.table.rows
  {
    var v := World(Adopted(w, s.power, found), w.table);
    if !s.on then
      if v.aw.open then Act(v, s, Close) else v
    else
      var tracked := Track(v.aw, s.power);
      Act(World(tracked, v.table), s, Decide(tracked, s.power, s.openDelta, s.now))
  }

  class Detector {
    var aw: Auto
    var table: Table

    ghost function View(): World
      reads this
    {
      World(aw, table)
    }

    constructor (table: Table)
      ensures View() == World(Initial(), table)
    {
      aw := Initial();
      this.table := table;
    }

    /** Advance the detector by one sample and say what should be done; the table is not touched. */
    method AutoDecide(power: real, openDelta: real, now: int) returns (action: Action)
      modifies this`aw
      ensures aw == Track(old(aw), power) && action == Decide(aw, power, openDelta, now)
      ensures old(aw).open ==> aw == old(aw)
    {
      var delta := openDelta;
      if delta <= 0.0 {
        delta := 400.0;
      }
      if !aw.open {
        aw := aw.(dev := aw.dev * (1.0 - DEV_A) + AbsR(power - aw.baseline) * DEV_A);
        aw := aw.(baseline := aw.baseline * (1.0 - BASELINE_A) + power * BASELINE_A);
        if power >= aw.baseline + MaxR(delta, 3.0 * aw.dev) && now - aw.lastClosedAt >= AUTO_COOLDOWN {
          return Open;
        }
        return Nothing;
      }
      if power < aw.baseline + MaxR(delta * 0.5, 1.5 * aw.dev) || now - aw.openedAt >= AUTO_MAX {
        if now - aw.openedAt < AUTO_MIN {
          return Discard;
        }
        return Close;
      }
      return Nothing;
    }

    method StopTest(id: int, end: int)
      modifies this`table
      ensures table == Stopped(old(table), id, end)
    {
      if id in table.rows && table.rows[id].end.None? {
        table := table.(rows := table.rows[id := table.rows[id].(end := Some(end))]);
      }
    }

    /** `autoWindow`: one callback, with `found` the answer of the open-window query. */
    method AutoWindow(s: Sample, found: Option<int>)
      requires found.Some? ==> found.value in table.rows
      modifies this
      ensures View() == Step(old(View()), s, found)
      ensures s.on && Adopted(old(View()), s.power, found).open && s.now - Adopted(old(View()), s.power, found).openedAt >= AUTO_MAX
              ==> !aw.open
    {
      if !aw.inited {
        if found.Some? {
          aw := aw.(open := true, openID := found.value, openedAt := table.rows[found.value].start);
        }
        aw := aw.(baseline := s.power, inited := true);
      }
      if !s.on {
        if aw.open {
          StopTest(aw.openID, s.now);
          aw := aw.(open := false, lastClosedAt := s.now);
        }
        return;
      }
      var action := AutoDecide(s.power, s.openDelta, s.now);
      match action
      case Open =>
        if s.createOk {
          var id := table.next;
          table := Table(table.rows[id := Window(s.now, None, true)], id + 1);
          aw := aw.(open := true, openID := id, openedAt := s.now);
        }
      case Close =>
        StopTest(aw.openID, s.now);
        aw := aw.(open := false, lastClosedAt := s.now);
      case Discard =>
        table := table.(rows := table.rows - {aw.openID});
        aw := aw.(open := false, lastClosedAt := s.now);
      case Nothing =>
    }
  }

  // ---- whole runs ---------------------------------------------------------------------------------

  /**
   * A run with its history: the windows it governed (the one it adopted and all it opened), and those that
   * switching the feature off ended (only the detector's own closes promise a minimum length).
   */
  datatype Run = Run(w: World, clock: int, mine: set<int>, switchedOff: set<int>)

  predicate OpensNow(r: Run, s: Sample, found: Option<int>)
    requires found.Some? ==> found.value in r.w.table.rows
  {
    Step(r.w, s, found).table.next > r.w.table.next
  }

  /** The window this sample makes the detector take over, if it is the first and one was left open. */
  function AdoptedNow(r: Run, found: Option<int>): set<int> {
    if !r.w.aw.inited && found.Some? then {found.value} else {}
  }

  function Advance(r: Run, s: Sample, found: Option<int>): Run
    requires found.Some? ==> found.value in r.w.table.rows
  {
    var aw := Adopted(r.w, s.power, found);
    var mine := r.mine + AdoptedNow(r, found);
    Run(Step(r.w, s, found), s.now,
        if OpensNow(r, s, found) then mine + {r.w.table.next} else mine,
        if !s.on && aw.open then r.switchedOff + {aw.openID} else r.switchedOff)
  }

  /** What the detector relies on when it starts: at most one auto window was left open, and ids are fresh. */
  ghost predicate GoodTable(t: Table, clock: int) {
    && (forall id :: id in t.rows ==> id < t.next && t.rows[id].start <= clock)
    && (forall id, jd :: IsOpenAuto(t, id) && IsOpenAuto(t, jd) ==> id == jd)
  }

  ghost predicate OpenAgrees(aw: Auto, t: Table) {
    if aw.open then IsOpenAuto(t, aw.openID) && t.rows[aw.openID].start == aw.openedAt
    else forall id :: !IsOpenAuto(t, id)
  }

  /** Windows the run governed: detector-closed ones are long enough, and any two are a cooldown apart. */
  ghost predicate Spaced(r: Run) {
    var t := r.w.table;
    && (forall id :: id in r.mine && id in t.rows ==>
          && t.rows[id].auto
          && (t.rows[id].end.Some? ==> t.rows[id].end.value <= r.w.aw.lastClosedAt
                                       && (id !in r.switchedOff ==> t.rows[id].end.value - t.rows[id].start >= AUTO_MIN)))
    && (forall id, jd :: id in r.mine && jd in r.mine && id in t.rows && jd in t.rows && id < jd ==>
          t.rows[id].end.Some? && t.rows[jd].start - t.rows[id].end.value >= AUTO_COOLDOWN)
  }

  ghost predicate Inv(r: Run) {
    && r.clock >= 0
    && r.w.aw.lastClosedAt <= r.clock
    && GoodTable(r.w.table, r.clock)
    && (r.w.aw.inited ==> OpenAgrees(r.w.aw, r.w.table))
    && (!r.w.aw.inited ==> !r.w.aw.open && r.mine == {})
    && (forall id :: id in r.mine ==> id < r.w.table.next)
    && Spaced(r)
  }

  function Begin(t: Table, clock: int): Run {
    Run(World(Initial(), t), clock, {}, {})
  }

  /** The answer counts on the first sample only; there it must be right. */
  ghost predicate RightAnswer(r: Run, found: Option<int>) {
    MayAnswer(r.w.table, found) && (r.w.aw.inited || IsFound(r.w.table, found))
  }

  lemma AdoptKeeps(r: Run, s: Sample, found: Option<int>)
    requires Inv(r) && RightAnswer(r, found)
    ensures var aw := Adopted(r.w, s.power, found);
            aw.inited && OpenAgrees(aw, r.w.table) && aw.lastClosedAt == r.w.aw.lastClosedAt
  {
  }

  lemma OpenKeeps(r: Run, s: Sample)
    requires Inv(r) && r.w.aw.inited && !r.w.aw.open && s.now >= r.clock && s.createOk
    requires s.now - r.w.aw.lastClosedAt >= AUTO_COOLDOWN
    ensures Inv(Run(Act(r.w, s, Open), s.now, r.mine + {r.w.table.next}, r.switchedOff))
  {
    var t := r.w.table;
    assert t.next !in t.rows;
    var u := Act(r.w, s, Open).table;
    forall id | id in r.mine && id in t.rows
      ensures t.rows[id].end.Some?
    {
      assert !IsOpenAuto(t, id);
    }
    forall id | IsOpenAuto(u, id)
      ensures id == t.next
    {
      assert !IsOpenAuto(t, id);
    }
  }

  lemma EndKeeps(r: Run, s: Sample, action: Action)
    requires Inv(r) && r.w.aw.inited && r.w.aw.open && s.now >= r.clock
    requires action.Discard? || (action.Close? && (s.now - r.w.aw.openedAt >= AUTO_MIN || r.w.aw.openID in r.switchedOff))
    ensures Inv(Run(Act(r.w, s, action), s.now, r.mine, r.switchedOff))
  {
    var t, u := r.w.table, Act(r.w, s, action).table;
    assert IsOpenAuto(t, r.w.aw.openID);
    forall id
      ensures !IsOpenAuto(u, id)
    {
      if id != r.w.aw.openID {
        assert id in u.rows ==> id in t.rows && u.rows[id] == t.rows[id];
        assert !IsOpenAuto(t, id);
      }
    }
  }

  lemma TrackKeeps(r: Run, power: real)
    requires Inv(r)
    ensures Inv(r.(w := World(Track(r.w.aw, power), r.w.table)))
  {
  }

  /** The run once a first sample has adopted what was open, before anything is decided. */
  function AfterAdopting(r: Run, s: Sample, found: Option<int>): Run
    requires found.Some? ==> found.value in r.w.table.rows
  {
    r.(w := World(Adopted(r.w, s.power, found), r.w.table), clock := s.now, mine := r.mine + AdoptedNow(r, found))
  }

  lemma AdoptingKeepsInv(r: Run, s: Sample, found: Option<int>)
    requires Inv(r) && s.now >= r.clock && RightAnswer(r, found)
    ensures Inv(AfterAdopting(r, s, found)) && AfterAdopting(r, s, found).w.aw.inited
  {
    AdoptKeeps(r, s, found);
  }

  /** With the feature off an open window is ended, whatever its age. */
  lemma OffKeeps(r: Run, s: Sample)
    requires Inv(r) && r.w.aw.inited && r.w.aw.open && s.now >= r.clock
    ensures Inv(Run(Act(r.w, s, Close), s.now, r.mine, r.switchedOff + {r.w.aw.openID}))
  {
    EndKeeps(r.(switchedOff := r.switchedOff + {r.w.aw.openID}), s, Close);
  }

  /** With it on, the detector's verdict is carried out. */
  lemma OnKeeps(r: Run, s: Sample)
    requires Inv(r) && r.w.aw.inited && s.now == r.clock
    ensures var tracked := World(Track(r.w.aw, s.power), r.w.table);
      var action := Decide(tracked.aw, s.power, s.openDelta, s.now);
      Inv(Run(Act(tracked, s, action), s.now, if action.Open? && s.createOk then r.mine + {r.w.table.next} else r.mine, r.switchedOff))
  {
    TrackKeeps(r, s.power);
    var r2 := r.(w := World(Track(r.w.aw, s.power), r.w.table));
    var action := Decide(r2.w.aw, s.power, s.openDelta, s.now);
    match action
    case Open =>
      if s.createOk {
        OpenKeeps(r2, s);
      }
    case Nothing =>
    case _ =>
      EndKeeps(r2, s, action);
  }

  lemma InvStep(r: Run, s: Sample, found: Option<int>)
    requires Inv(r) && s.now >= r.clock && RightAnswer(r, found)
    ensures Inv(Advance(r, s, found))
  {
    hide Inv, Adopted, Track, Decide;
    AdoptingKeepsInv(r, s, found);
    var r1 := AfterAdopting(r, s, found);
    if s.on {
      OnKeeps(r1, s);
    } else if r1.w.aw.open {
      OffKeeps(r1, s);
    }
  }

  /** Times never go back; the open-window query answers from the table as it is at each sample, or fails. */
  ghost predicate IsRun(r: Run, samples: seq<Sample>, found: seq<Option<int>>)
    decreases |samples|
  {
    |found| == |samples|
    && (samples == [] ||
        (samples[0].now >= r.clock && MayAnswer(r.w.table, found[0])
         && IsRun(Advance(r, samples[0], found[0]), samples[1..], found[1..])))
  }

  ghost function After(r: Run, samples: seq<Sample>, found: seq<Option<int>>): Run
    requires IsRun(r, samples, found)
    decreases |samples|
  {
    if samples == [] then r else After(Advance(r, samples[0], found[0]), samples[1..], found[1..])
  }

  /** The first answer is right: it reports the window that was left open, if one was. */
  ghost predicate StartsRight(r: Run, found: seq<Option<int>>) {
    found != [] ==> RightAnswer(r, found[0])
  }

  lemma {:induction false} InvRun(r: Run, samples: seq<Sample>, found: seq<Option<int>>)
    requires Inv(r) && IsRun(r, samples, found) && StartsRight(r, found)
    ensures Inv(After(r, samples, found))
    decreases |samples|
  {
    if samples != [] {
      hide Inv, Advance;
      InvStep(r, samples[0], found[0]);
      StaysRight(r, samples, found);
      InvRun(Advance(r, samples[0], found[0]), samples[1..], found[1..]);
    }
  }

  lemma StaysRight(r: Run, samples: seq<Sample>, found: seq<Option<int>>)
    requires samples != [] && IsRun(r, samples, found)
    ensures StartsRight(Advance(r, samples[0], found[0]), found[1..])
  {
    Inited(r, samples[0], found[0]);
  }

  lemma Inited(r: Run, s: Sample, found: Option<int>)
    requires MayAnswer(r.w.table, found)
    ensures Advance(r, s, found).w.aw.inited
  {
  }

  ghost predicate AtMostOneOpen(t: Table) {
    forall id, jd :: IsOpenAuto(t, id) && IsOpenAuto(t, jd) ==> id == jd
  }

  /**
   * Over every run whose first query did not fail (feature toggled, thresholds changed, window creation and
   * every later query failing at will): at most one
   * auto window is open; one ended by the detector (adopted or opened) lasted at least three minutes and
   * shorter ones left no row; and any two it governed are at least the five-minute cooldown apart.
   */
  lemma WindowsAreSound(t: Table, clock: int, samples: seq<Sample>, found: seq<Option<int>>)
    requires clock >= 0 && GoodTable(t, clock) && IsRun(Begin(t, clock), samples, found)
    requires found != [] ==> IsFound(t, found[0])
    ensures var r := After(Begin(t, clock), samples, found); var rows := r.w.table.rows;
            && AtMostOneOpen(r.w.table)
            && (forall id :: id in r.mine && id in rows && rows[id].end.Some? && id !in r.switchedOff
                  ==> rows[id].end.value - rows[id].start >= AUTO_MIN)
            && (forall id, jd :: id in r.mine && jd in r.mine && id in rows && jd in rows && id < jd
                  ==> rows[id].end.Some? && rows[jd].start >= rows[id].end.value + AUTO_COOLDOWN)
  {
    InvRun(Begin(t, clock), samples, found);
  }

  /** A first query that fails orphans the window left open: a rise after it opens a second one. */
  lemma FailedQueryOrphans(t: Table, clock: int, left: int) returns (samples: seq<Sample>, found: seq<Option<int>>)
    requires clock >= 0 && GoodTable(t, clock) && IsOpenAuto(t, left)
    ensures found == [None, None] && IsRun(Begin(t, clock), samples, found)
    ensures IsOpenAuto(After(Begin(t, clock), samples, found).w.table, left)
    ensures IsOpenAuto(After(Begin(t, clock), samples, found).w.table, t.next) && left != t.next
  {
    samples, found := [Sample(clock, 0.0, 0.0, true, true), Sample(clock, 1000.0, 0.0, true, true)], [None, None];
    var r0 := Begin(t, clock);
    var r1 := Advance(r0, samples[0], None);
    assert r1.w == World(Auto(true, 0.0, 0.0, false, 0, ZERO_TIME, ZERO_TIME), t);
    var r2 := Advance(r1, samples[1], None);
    assert r2.w.table == Table(t.rows[t.next := Window(clock, None, true)], t.next + 1);
    TwoSteps(r0, samples, found);
  }

  lemma TwoSteps(r: Run, samples: seq<Sample>, found: seq<Option<int>>)
    requires |samples| == 2 && found == [None, None] && r.clock <= samples[0].now <= samples[1].now
    ensures IsRun(r, samples, found)
    ensures After(r, samples, found) == Advance(Advance(r, samples[0], None), samples[1], None)
  {
    hide Step, OpensNow;
    var r1 := Advance(r, samples[0], None);
    assert samples[1..] == [samples[1]] && found[1..] == [None];
    assert samples[1..][1..] == [] && found[1..][1..] == [];
    var r2 := Advance(r1, samples[1], None);
    assert IsRun(r2, [], []);
    assert IsRun(r1, [samples[1]], [None]);
    assert After(r1, [samples[1]], [None]) == After(r2, samples[1..][1..], found[1..][1..]) == r2;
    assert After(r, samples, found) == After(r1, samples[1..], found[1..]);
  }

  /**
   * At most one auto window is open over every run that continues a given first answer exactly if that answer
   * reports what was left open: the detector takes a failed query for "none" and never asks again.
   */
  lemma AtMostOneOpenIff(t: Table, clock: int, first: Option<int>)
    requires clock >= 0 && GoodTable(t, clock) && MayAnswer(t, first)
    ensures (forall samples, found :: IsRun(Begin(t, clock), samples, found) && found != [] && found[0] == first ==>
        AtMostOneOpen(After(Begin(t, clock), samples, found).w.table))
      <==> IsFound(t, first)
  {
    hide Inv, GoodTable, IsRun, After;
    if IsFound(t, first) {
      forall samples, found | IsRun(Begin(t, clock), samples, found) && found != [] && found[0] == first
        ensures AtMostOneOpen(After(Begin(t, clock), samples, found).w.table)
      {
        WindowsAreSound(t, clock, samples, found);
      }
    } else {
      var left :| IsOpenAuto(t, left);
      var samples, found := FailedQueryOrphans(t, clock, left);
      assert !AtMostOneOpen(After(Begin(t, clock), samples, found).w.table);
    }
  }

  /** No window outlives the cap while the feature is on: the first enabled sample 15 minutes in ends it. */
  lemma CapEndsTheWindow(r: Run, s: Sample, found: Option<int>)
    requires Inv(r) && RightAnswer(r, found) && s.on && s.now >= r.clock
    requires Adopted(r.w, s.power, found).open && s.now - Adopted(r.w, s.power, found).openedAt >= AUTO_MAX
    ensures var aw := Adopted(r.w, s.power, found); var t := Advance(r, s, found).w.table;
            && (forall id :: !IsOpenAuto(t, id))
            && aw.openID in t.rows && t.rows[aw.openID].end == Some(s.now)
  {
    AdoptKeeps(r, s, found);
    InvStep(r, s, found);
  }

  /** A window opens only while the feature is on, a cooldown after the last end (a discarded blip's included). */
  lemma OpensOnlyAfterCooldown(r: Run, s: Sample, found: Option<int>)
    requires Inv(r) && RightAnswer(r, found) && OpensNow(r, s, found)
    ensures s.on && s.createOk && s.now - r.w.aw.lastClosedAt >= AUTO_COOLDOWN
    ensures forall id :: !IsOpenAuto(r.w.table, id)
    ensures Advance(r, s, found).w.table.rows == r.w.table.rows[r.w.table.next := Window(s.now, None, true)]
  {
    AdoptKeeps(r, s, found);
  }

  // ---- what can open a window ----------------------------------------------------------------------

  /** A closed detector whose baseline lies in [lo, hi] and whose noise estimate is at most the range. */
  ghost predicate Calm(aw: Auto, lo: real, hi: real) {
    aw.inited && !aw.open && lo <= aw.baseline <= hi && 0.0 <= aw.dev <= hi - lo
  }

  lemma TrackingStaysInRange(aw: Auto, power: real, lo: real, hi: real)
    requires Calm(aw, lo, hi) && lo <= power <= hi
    ensures Calm(Track(aw, power), lo, hi)
  {
  }

  /** Baseline and noise, open or closed, within the range; a detector that has seen nothing has no noise. */
  ghost predicate Settled(aw: Auto, lo: real, hi: real) {
    if aw.inited then lo <= aw.baseline <= hi && 0.0 <= aw.dev <= hi - lo else aw.dev == 0.0
  }

  /** The first sample, and every sample the detector tracks, lies in a range narrower than the threshold. */
  ghost predicate Confined(r: Run, samples: seq<Sample>, found: seq<Option<int>>, lo: real, hi: real)
    requires IsRun(r, samples, found)
    decreases |samples|
  {
    samples == [] ||
    (var s := samples[0];
     && (!r.w.aw.inited ==> lo <= s.power <= hi)
     && (s.on && !Adopted(r.w, s.power, found[0]).open ==> lo <= s.power <= hi && hi - lo < Delta(s.openDelta))
     && Confined(Advance(r, s, found[0]), samples[1..], found[1..], lo, hi))
  }

  lemma ConfinedStep(r: Run, s: Sample, found: Option<int>, lo: real, hi: real)
    requires Settled(r.w.aw, lo, hi) && MayAnswer(r.w.table, found)
    requires !r.w.aw.inited ==> lo <= s.power <= hi
    requires s.on && !Adopted(r.w, s.power, found).open ==> lo <= s.power <= hi && hi - lo < Delta(s.openDelta)
    ensures Settled(Advance(r, s, found).w.aw, lo, hi)
    ensures !OpensNow(r, s, found) && Advance(r, s, found).w.table.next == r.w.table.next
  {
    var aw := Adopted(r.w, s.power, found);
    assert Settled(aw, lo, hi);
    if s.on && !aw.open {
      TrackingStaysInRange(aw, s.power, lo, hi);
    }
  }

  lemma {:induction false} ConfinedRun(r: Run, samples: seq<Sample>, found: seq<Option<int>>, lo: real, hi: real)
    requires IsRun(r, samples, found) && Confined(r, samples, found, lo, hi) && Settled(r.w.aw, lo, hi)
    ensures Settled(After(r, samples, found).w.aw, lo, hi)
    ensures After(r, samples, found).w.table.next == r.w.table.next
    decreases |samples|
  {
    if samples != [] {
      hide Advance, Settled, Adopted, OpensNow;
      ConfinedStep(r, samples[0], found[0], lo, hi);
      ConfinedRun(Advance(r, samples[0], found[0]), samples[1..], found[1..], lo, hi);
    }
  }

  /**
   * Over every run from the start (feature toggled, a window adopted and closed, any power while one is open):
   * if the first sample and all those seen while closed stay in a range narrower than the threshold, no
   * window is ever opened, and baseline and noise stay within the range.
   */
  lemma JitterNeverOpens(t: Table, clock: int, samples: seq<Sample>, found: seq<Option<int>>, lo: real, hi: real)
    requires IsRun(Begin(t, clock), samples, found) && Confined(Begin(t, clock), samples, found, lo, hi)
    ensures After(Begin(t, clock), samples, found).w.table.next == t.next
    ensures Settled(After(Begin(t, clock), samples, found).w.aw, lo, hi)
  {
    ConfinedRun(Begin(t, clock), samples, found, lo, hi);
  }

  /** From a flat baseline and past the cooldown, a step of S watts opens exactly when 98% of it reaches the threshold. */
  lemma StepOpensIff(aw: Auto, step: real, openDelta: real, now: int)
    requires !aw.open && aw.dev == 0.0 && step > 0.0 && now - aw.lastClosedAt >= AUTO_COOLDOWN
    ensures Decide(Track(aw, aw.baseline + step), aw.baseline + step, openDelta, now) == Open
            <==> 0.98 * step >= Delta(openDelta)
  {
  }

  /** Hysteresis: with an unchanged threshold, a level that just opened a window does not close it. */
  lemma OpeningLevelHolds(aw: Auto, power: real, openDelta: real, start: int, now: int)
    requires !aw.open && aw.dev >= 0.0 && Decide(aw, power, openDelta, start) == Open
    requires start <= now < start + AUTO_MAX
    ensures Decide(aw.(open := true, openedAt := start), power, openDelta, now) == Nothing
  {
  }

  // ---- one sample, in watts and seconds ---------------------------------------------------------------

  /** The threshold in force: the configured one, or 400 W. */
  lemma ThresholdInForce(openDelta: real)
    ensures Delta(openDelta) > 0.0
    ensures openDelta > 0.0 ==> Delta(openDelta) == openDelta
    ensures openDelta <= 0.0 ==> Delta(openDelta) == 400.0
  {
  }

  /** The first sample takes over the window that was found, from its own start, and the power as baseline. */
  lemma FirstSample(w: World, power: real, found: Option<int>)
    requires !w.aw.inited && !w.aw.open && (found.Some? ==> found.value in w.table.rows)
    ensures var aw := Adopted(w, power, found);
      aw.inited && aw.baseline == power && aw.dev == w.aw.dev && aw.lastClosedAt == w.aw.lastClosedAt &&
      (aw.open <==> found.Some?) &&
      (found.Some? ==> aw.openID == found.value && aw.openedAt == w.table.rows[found.value].start)
  {
  }

  /** What ends a window leaves: its row ended now when it is three minutes old, no row when it is younger. */
  ghost predicate Ended(before: World, after: World, now: int) {
    var id := before.aw.openID;
    && id in before.table.rows
    && !after.aw.open && after.aw.lastClosedAt == now
    && after.aw.baseline == before.aw.baseline && after.aw.dev == before.aw.dev
    && after.table.next == before.table.next
    && (forall k :: k != id ==> (k in after.table.rows <==> k in before.table.rows))
    && (forall k :: k != id && k in before.table.rows ==> after.table.rows[k] == before.table.rows[k])
    && (if now - before.aw.openedAt >= 180
        then id in after.table.rows && after.table.rows[id] == before.table.rows[id].(end := Some(now))
        else id !in after.table.rows)
  }

  /**
   * Before the cap an enabled sample ends the open window exactly when the power has fallen below the baseline
   * plus half the threshold, or plus one and a half times the noise if that is more; else it changes nothing.
   */
  lemma EndsIff(w: World, s: Sample, found: Option<int>)
    requires w.aw.inited && w.aw.open && IsOpenAuto(w.table, w.aw.openID) && s.on && s.now - w.aw.openedAt < 900
    requires found.Some? ==> found.value in w.table.rows
    ensures var margin := MaxR(Delta(s.openDelta) / 2.0, 1.5 * w.aw.dev);
      if s.power < w.aw.baseline + margin then Ended(w, Step(w, s, found), s.now) else Step(w, s, found) == w
  {
  }

  /** At the cap it ends at any power, with its row kept. */
  lemma EndsAtTheCap(w: World, s: Sample, found: Option<int>)
    requires w.aw.inited && w.aw.open && IsOpenAuto(w.table, w.aw.openID) && s.on && s.now - w.aw.openedAt >= 900
    requires found.Some? ==> found.value in w.table.rows
    ensures Ended(w, Step(w, s, found), s.now)
  {
  }

  /** So power back at the baseline, or under it, always ends the window. */
  lemma BackAtTheBaseline(w: World, s: Sample, found: Option<int>)
    requires w.aw.inited && w.aw.open && IsOpenAuto(w.table, w.aw.openID) && s.on && s.power <= w.aw.baseline
    requires found.Some? ==> found.value in w.table.rows
    ensures Ended(w, Step(w, s, found), s.now)
  {
    hide Ended, Step;
    ThresholdInForce(s.openDelta);
    if s.now - w.aw.openedAt < 900 {
      EndsIff(w, s, found);
    } else {
      EndsAtTheCap(w, s, found);
    }
  }

  /** Switching the feature off ends an open window whatever its age, with its row kept, and else changes nothing. */
  lemma OffEnds(w: World, s: Sample, found: Option<int>)
    requires w.aw.inited && !s.on && (w.aw.open ==> IsOpenAuto(w.table, w.aw.openID))
    requires found.Some? ==> found.value in w.table.rows
    ensures if w.aw.open
      then Step(w, s, found) == World(w.aw.(open := false, lastClosedAt := s.now),
        Table(w.table.rows[w.aw.openID := w.table.rows[w.aw.openID].(end := Some(s.now))], w.table.next))
      else Step(w, s, found) == w
  {
  }

  /** Baseline and noise after a sample seen while closed: 2% of the power and 5% of its distance are taken in. */
  predicate TrackedTo(aw: Auto, power: real, baseline: real, dev: real) {
    100.0 * (baseline - aw.baseline) == 2.0 * (power - aw.baseline) &&
    100.0 * (dev - aw.dev) == 5.0 * ((if power >= aw.baseline then power - aw.baseline else aw.baseline - power) - aw.dev)
  }

  /**
   * A closed detector opens a window exactly when, five minutes after the last end, the power reaches the new
   * baseline plus the threshold, or plus three times the new noise if that is more, and the row can be made.
   * Opening or not, it keeps the new baseline and noise.
   */
  lemma OpensIff(w: World, s: Sample, found: Option<int>, baseline: real, dev: real)
    requires w.aw.inited && !w.aw.open && s.on && TrackedTo(w.aw, s.power, baseline, dev)
    requires found.Some? ==> found.value in w.table.rows
    ensures var tracked := w.aw.(baseline := baseline, dev := dev);
      Step(w, s, found) ==
        if s.createOk && s.now - w.aw.lastClosedAt >= 300 && s.power >= baseline + MaxR(Delta(s.openDelta), 3.0 * dev)
        then World(tracked.(open := true, openID := w.table.next, openedAt := s.now),
                   Table(w.table.rows[w.table.next := Window(s.now, None, true)], w.table.next + 1))
        else World(tracked, w.table)
  {
    TrackedIsTrack(w.aw, s.power, baseline, dev);
    hide Track;
  }

  lemma TrackedIsTrack(aw: Auto, power: real, baseline: real, dev: real)
    requires !aw.open && TrackedTo(aw, power, baseline, dev)
    ensures Track(aw, power) == aw.(baseline := baseline, dev := dev)
  {
  }
}
