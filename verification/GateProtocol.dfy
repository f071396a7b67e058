/**
 * Every interleaving of capture supervisors and bus enumerations around one governor, as a step
 * system with a clock. A label is one atomic action of one goroutine (or of its environment);
 * what subprocesses, cancellation and the clock do is left to the choice of labels.
 */
module GateProtocol {
  import opened UsbGate

  type Pid = nat

  datatype Job = Capture | Enumerate

  /** Where a goroutine goes once it has given the window back. */
  datatype Then = ToTop | ToVerdict(ready: bool, began: int)

  datatype Pc =
    | Top                             // head of the loop
    | Peek                            // begin: about to read nextOK
    | Sleeping(until: int)            // begin: waiting out the backoff
    | Queued                          // begin: at the channel send
    | Checking                        // begin: token taken, nextOK re-check pending
    | Open(start: int)                // admitted: the device is being opened
    | StartFailed                     // rtl_tcp did not start; fail() comes before end()
    | Closing(andThen: Then)          // about to call end()
    | Verdict(ready: bool, began: int)// window released, pipeline not judged yet
    | Running(since: int)             // rtlamr ingesting
    | Done

  datatype Proc = Proc(job: Job, pc: Pc, cancelled: bool, acquired: nat, released: nat, admittedAt: int)

  datatype State = State(clock: int, gate: Gate, procs: map<Pid, Proc>)

  datatype Label =
    | Tick(to: int)
    | Spawn(p: Pid, job: Job)
    | Cancel(p: Pid)
    | Leave(p: Pid)
    | Begin(p: Pid)
    | ReadGate(p: Pid)
    | Wake(p: Pid)
    | GiveUp(p: Pid)
    | Take(p: Pid)
    | Recheck(p: Pid)
    | StartError(p: Pid)
    | FailInside(p: Pid)
    | Listened(p: Pid, ready: bool)
    | Found(p: Pid)
    | Release(p: Pid)
    | FailOutside(p: Pid)
    | RunStart(p: Pid)
    | Quit(p: Pid)
    | Dead(p: Pid)
    | Judge(p: Pid)

  function Init(): State {
    State(0, Gate(false, 0, 0), map[])
  }

  /** Between the channel send and `end`. */
  predicate Holds(pc: Pc) {
    pc.Checking? || pc.Open? || pc.StartFailed? || pc.Closing?
  }

  predicate Enabled(s: State, l: Label) {
    match l
    case Tick(to) => to >= s.clock
    case Spawn(p, _) => p !in s.procs
    case _ =>
      l.p in s.procs &&
      var x := s.procs[l.p];
      match l
      case Cancel(_) => true
      case Leave(_) => x.pc.Top? && (x.cancelled || x.job.Enumerate?)
      case Begin(_) => x.pc.Top? && (!x.cancelled || x.job.Enumerate?)
      case ReadGate(_) => x.pc.Peek?
      case Wake(_) => x.pc.Sleeping? && s.clock >= x.pc.until
      case GiveUp(_) => (x.pc.Sleeping? || x.pc.Queued?) && x.cancelled
      case Take(_) => x.pc.Queued? && !s.gate.full
      case Recheck(_) => x.pc.Checking?
      case StartError(_) => x.pc.Open? && x.job.Capture?
      case FailInside(_) => x.pc.StartFailed? || (x.pc.Open? && x.job.Enumerate?)
      case Listened(_, _) => x.pc.Open? && x.job.Capture?
      case Found(_) => x.pc.Open? && x.job.Enumerate?
      case Release(_) => x.pc.Closing?
      case FailOutside(_) => x.pc.Verdict? && (x.pc.ready || !x.cancelled)
      case RunStart(_) => x.pc.Verdict? && x.pc.ready
      case Quit(_) => x.cancelled && (x.pc.Running? || (x.pc.Verdict? && !x.pc.ready))
      case Dead(_) => x.pc.Running? && !x.cancelled
      case Judge(_) => x.pc.Running? && !x.cancelled
  }

  /** `bus.ok()` is called by this step. */
  predicate CallsOk(s: State, l: Label)
    requires Enabled(s, l)
  {
    l.Judge? && s.clock - s.procs[l.p].pc.since >= GATE_HEALTHY
  }

  /** `bus.fail()` is called by this step. */
  predicate CallsFail(s: State, l: Label)
    requires Enabled(s, l)
  {
    l.FailInside? || l.FailOutside? || (l.Judge? && !CallsOk(s, l))
  }

  /** The re-check of `begin` passes in this step. */
  predicate Admits(s: State, l: Label)
    requires Enabled(s, l)
  {
    l.Recheck? && s.clock >= s.gate.nextOK
  }

  function GateAfter(s: State, l: Label): Gate
    requires Enabled(s, l)
  {
    if l.Take? then s.gate.(full := true)
    else if l.Release? || (l.Recheck? && !Admits(s, l)) then s.gate.(full := false)
    else if CallsOk(s, l) then AfterOk(s.gate, s.clock)
    else if CallsFail(s, l) then AfterFail(s.gate, s.clock)
    else s.gate
  }

  function ProcAfter(s: State, l: Label): Proc
    requires Enabled(s, l) && !l.Tick?
  {
    if l.Spawn? then Proc(l.job, Top, false, 0, 0, 0) else
    var x := s.procs[l.p];
    match l
    case Cancel(_) => x.(cancelled := true)
    case Leave(_) => x.(pc := Done)
    case Begin(_) => x.(pc := Peek)
    case ReadGate(_) => x.(pc := if s.gate.nextOK > s.clock then Sleeping(s.gate.nextOK) else Queued)
    case Wake(_) => x.(pc := Queued)
    case GiveUp(_) => x.(pc := Done)
    case Take(_) => x.(pc := Checking, acquired := x.acquired + 1)
    case Recheck(_) =>
      if Admits(s, l) then x.(pc := Open(s.clock), admittedAt := s.clock)
      else x.(pc := Peek, released := x.released + 1)
    case StartError(_) => x.(pc := StartFailed)
    case FailInside(_) => x.(pc := Closing(ToTop))
    case Listened(_, ready) => x.(pc := Closing(ToVerdict(ready, x.pc.start)))
    case Found(_) => x.(pc := Closing(ToTop))
    case Release(_) =>
      x.(released := x.released + 1,
         pc := if x.pc.andThen.ToTop? then Top else Verdict(x.pc.andThen.ready, x.pc.andThen.began))
    case FailOutside(_) => x.(pc := Top)
    case RunStart(_) => x.(pc := Running(x.pc.began))
    case Quit(_) => x.(pc := Done)
    case Dead(_) => x.(pc := Done)
    case Judge(_) => x.(pc := Top)
  }

  function Apply(s: State, l: Label): State
    requires Enabled(s, l)
  {
    if l.Tick? then s.(clock := l.to)
    else State(s.clock, GateAfter(s, l), s.procs[l.p := ProcAfter(s, l)])
  }

  predicate IsRun(s: State, ls: seq<Label>)
    decreases |ls|
  {
    ls == [] || (Enabled(s, ls[0]) && IsRun(Apply(s, ls[0]), ls[1..]))
  }

  function End(s: State, ls: seq<Label>): State
    requires IsRun(s, ls)
    decreases |ls|
  {
    if ls == [] then s else End(Apply(s, ls[0]), ls[1..])
  }

  /** No step of the run clears the penalty. */
  predicate NoOk(s: State, ls: seq<Label>)
    requires IsRun(s, ls)
    decreases |ls|
  {
    ls == [] || (!CallsOk(s, ls[0]) && NoOk(Apply(s, ls[0]), ls[1..]))
  }

  ghost predicate ProcInv(x: Proc, clock: int) {
    && x.acquired == x.released + (if Holds(x.pc) then 1 else 0)
    && x.admittedAt <= clock
    && (x.pc.Open? ==> x.pc.start == x.admittedAt)
    && (x.pc.Closing? && x.pc.andThen.ToVerdict? ==> x.job.Capture? && x.pc.andThen.began == x.admittedAt)
    && (x.pc.Verdict? ==> x.job.Capture? && x.pc.began == x.admittedAt)
    && (x.pc.Running? ==> x.job.Capture? && x.pc.since == x.admittedAt)
    && (x.pc.StartFailed? ==> x.job.Capture?)
  }

  ghost predicate Inv(s: State) {
    && s.clock >= 0
    && s.gate.nextOK <= s.clock + Horizon(s.gate.fails)
    && (forall p :: p in s.procs ==> ProcInv(s.procs[p], s.clock))
    && (forall p, q :: p in s.procs && q in s.procs && Holds(s.procs[p].pc) && Holds(s.procs[q].pc) ==> p == q)
    && (s.gate.full <==> exists p :: p in s.procs && Holds(s.procs[p].pc))
  }

  /** What one step does to the governor's record, with the penalty it sets. */
  lemma GateStep(s: State, l: Label)
    requires Enabled(s, l)
    ensures var g, h := s.gate, Apply(s, l).gate;
      if CallsOk(s, l) then h.fails == 0 && h.nextOK == s.clock
      else if CallsFail(s, l) then h.fails == g.fails + 1 && h.nextOK == s.clock + Backoff(g.fails + 1)
      else h.fails == g.fails && h.nextOK == g.nextOK
    ensures Apply(s, l).clock >= s.clock && (CallsOk(s, l) || CallsFail(s, l) ==> Apply(s, l).clock == s.clock)
  {
    hide Backoff;
  }

  /** A backoff is no shorter than the horizon of one failure fewer, and never negative. */
  lemma HorizonGrows(fails: nat)
    ensures 0 <= Horizon(fails) <= Backoff(fails + 1)
  {
    hide Backoff;
    BackoffMonotone(fails + 1, fails + 1);
    if fails > 0 {
      BackoffMonotone(fails, fails + 1);
    }
  }

  lemma NextOkStep(s: State, l: Label)
    requires Inv(s) && Enabled(s, l)
    ensures Apply(s, l).gate.nextOK <= Apply(s, l).clock + Horizon(Apply(s, l).gate.fails)
    ensures !CallsOk(s, l) ==> Apply(s, l).gate.nextOK >= s.gate.nextOK
    ensures !CallsFail(s, l) && !CallsOk(s, l) ==> Apply(s, l).gate.nextOK == s.gate.nextOK
  {
    hide Apply, Enabled, CallsOk, CallsFail, Backoff;
    GateStep(s, l);
    HorizonGrows(s.gate.fails);
  }

  /** What one step of a goroutine does to its own hold on the window and to the channel. */
  lemma HoldStep(s: State, l: Label)
    requires Enabled(s, l) && !l.Tick?
    ensures var t := Apply(s, l);
      var held := l.p in s.procs && Holds(s.procs[l.p].pc);
      l.p in t.procs && t.procs.Keys == s.procs.Keys + {l.p} &&
      (l.Take? ==> !held && !s.gate.full && Holds(t.procs[l.p].pc) && t.gate.full) &&
      (!l.Take? && Holds(t.procs[l.p].pc) ==> held && t.gate.full == s.gate.full) &&
      (!l.Take? && !Holds(t.procs[l.p].pc) ==> t.gate.full == if held then false else s.gate.full)
  {
    hide Backoff;
  }

  lemma OthersStay(s: State, l: Label, q: Pid)
    requires Enabled(s, l) && !l.Tick? && q != l.p
    ensures q in Apply(s, l).procs <==> q in s.procs
    ensures q in s.procs ==> Apply(s, l).procs[q] == s.procs[q]
  {
    hide ProcAfter, GateAfter;
  }

  lemma HolderStep(s: State, l: Label)
    requires Inv(s) && Enabled(s, l) && !l.Tick?
    ensures var t := Apply(s, l);
            && (forall p, q :: p in t.procs && q in t.procs && Holds(t.procs[p].pc) && Holds(t.procs[q].pc) ==> p == q)
            && (t.gate.full <==> exists p :: p in t.procs && Holds(t.procs[p].pc))
  {
    hide Apply, Enabled, Holds, ProcInv, Horizon;
    var t := Apply(s, l);
    HoldStep(s, l);
    forall q | q != l.p
      ensures (q in t.procs <==> q in s.procs) && (q in s.procs ==> t.procs[q] == s.procs[q])
    {
      OthersStay(s, l, q);
    }
  }

  lemma InvStep(s: State, l: Label)
    requires Inv(s) && Enabled(s, l)
    ensures Inv(Apply(s, l))
  {
    NextOkStep(s, l);
    var t := Apply(s, l);
    if !l.Tick? {
      HolderStep(s, l);
    }
    forall p | p in t.procs
      ensures ProcInv(t.procs[p], t.clock)
    {
      if l.Tick? || p != l.p {
        assert t.procs[p] == s.procs[p];
      }
    }
  }

  lemma {:induction false} InvRun(s: State, ls: seq<Label>)
    requires Inv(s) && IsRun(s, ls)
    ensures Inv(End(s, ls))
    decreases |ls|
  {
    if ls != [] {
      InvStep(s, ls[0]);
      InvRun(Apply(s, ls[0]), ls[1..]);
    }
  }

  ghost predicate Reachable(s: State) {
    exists ls :: IsRun(Init(), ls) && End(Init(), ls) == s
  }

  lemma ReachableInv(s: State)
    requires Reachable(s)
    ensures Inv(s)
  {
    var ls :| IsRun(Init(), ls) && End(Init(), ls) == s;
    InvRun(Init(), ls);
  }

  /** At most one goroutine is ever between begin and end, and the channel is full exactly then. */
  lemma MutualExclusion(s: State)
    requires Reachable(s)
    ensures forall p, q :: p in s.procs && q in s.procs && Holds(s.procs[p].pc) && Holds(s.procs[q].pc) ==> p == q
    ensures s.gate.full <==> exists p :: p in s.procs && Holds(s.procs[p].pc)
  {
    ReachableInv(s);
  }

  /**
   * The window is released exactly as often as it was taken on every path: whoever is asleep, queued,
   * judging a run, back at the loop head or gone holds nothing, and a holder is one release behind.
   */
  lemma ReleasedExactlyOnce(s: State, p: Pid)
    requires Reachable(s) && p in s.procs
    ensures var x := s.procs[p];
            && (Holds(x.pc) ==> x.acquired == x.released + 1 && s.gate.full)
            && (x.pc.Sleeping? || x.pc.Queued? || x.pc.Top? || x.pc.Verdict? || x.pc.Running? || x.pc.Done?
                ==> x.acquired == x.released)
  {
    ReachableInv(s);
  }

  lemma {:induction false} NextOkNeverEarlier(s: State, ls: seq<Label>)
    requires Inv(s) && IsRun(s, ls) && NoOk(s, ls)
    ensures End(s, ls).gate.nextOK >= s.gate.nextOK
    decreases |ls|
  {
    if ls != [] {
      NextOkStep(s, ls[0]);
      InvStep(s, ls[0]);
      NextOkNeverEarlier(Apply(s, ls[0]), ls[1..]);
    }
  }

  lemma FailSetsBackoff(s: State, l: Label)
    requires Enabled(s, l) && CallsFail(s, l)
    ensures Apply(s, l).gate.nextOK == s.clock + Penalty(s.gate.fails)
  {
    hide Apply, Enabled, CallsOk, Backoff, Pow2;
    GateStep(s, l);
    FailIsNotOk(s, l);
    PenaltyAfter(s.gate.fails);
  }

  lemma FailIsNotOk(s: State, l: Label)
    requires Enabled(s, l) && CallsFail(s, l)
    ensures !CallsOk(s, l)
  {
  }

  /**
   * After a fail, as long as nobody calls ok, no re-check of begin passes before the whole penalty
   * is over: the exact capped power of two, whatever else ran in between.
   */
  lemma BackoffRespected(s: State, failing: Label, between: seq<Label>, entering: Label)
    requires Reachable(s) && Enabled(s, failing)
    requires Apply(s, failing).gate.fails > s.gate.fails
    requires IsRun(Apply(s, failing), between) && FailsNeverDrop(Apply(s, failing), between)
    requires Enabled(End(Apply(s, failing), between), entering)
    requires entering.Recheck? && Apply(End(Apply(s, failing), between), entering).procs[entering.p].pc.Open?
    ensures End(Apply(s, failing), between).clock >= s.clock + Penalty(s.gate.fails)
  {
    hide Backoff;
    ReachableInv(s);
    InvStep(s, failing);
    MoreFailsMeansFail(s, failing);
    NoDropNoOk(Apply(s, failing), between);
    NextOkNeverEarlier(Apply(s, failing), between);
    FailSetsBackoff(s, failing);
    OpenedMeansAdmitted(End(Apply(s, failing), between), entering);
  }

  /** Along the run the count of failures never goes back to zero from above. */
  predicate FailsNeverDrop(s: State, ls: seq<Label>)
    requires IsRun(s, ls)
    decreases |ls|
  {
    ls == [] ||
    (Apply(s, ls[0]).gate.fails >= s.gate.fails && Apply(s, ls[0]).gate.fails > 0 && FailsNeverDrop(Apply(s, ls[0]), ls[1..]))
  }

  lemma MoreFailsMeansFail(s: State, l: Label)
    requires Enabled(s, l) && Apply(s, l).gate.fails > s.gate.fails
    ensures CallsFail(s, l)
  {
    hide Backoff;
  }

  lemma OkMeansNoFails(s: State, l: Label)
    requires Enabled(s, l) && CallsOk(s, l)
    ensures Apply(s, l).gate.fails == 0
  {
  }

  lemma {:induction false} NoDropNoOk(s: State, ls: seq<Label>)
    requires IsRun(s, ls) && FailsNeverDrop(s, ls)
    ensures NoOk(s, ls)
    decreases |ls|
  {
    if ls != [] {
      hide Apply, Enabled, CallsOk;
      if CallsOk(s, ls[0]) {
        OkMeansNoFails(s, ls[0]);
      }
      NoDropNoOk(Apply(s, ls[0]), ls[1..]);
    }
  }

  lemma OpenedMeansAdmitted(s: State, l: Label)
    requires Enabled(s, l) && l.Recheck? && Apply(s, l).procs[l.p].pc.Open?
    ensures s.clock >= s.gate.nextOK
  {
    hide Backoff;
  }

  /**
   * The verdict on a run, said in seconds and not through the steps that reach it: judged sixty seconds or more
   * after its own admission it clears the penalty, judged earlier it counts as one more failure.
   */
  lemma VerdictOnARun(s: State, p: Pid)
    requires Reachable(s) && Enabled(s, Judge(p))
    ensures var g, h := s.gate, Apply(s, Judge(p)).gate;
      if s.clock - s.procs[p].admittedAt >= 60 * SECOND then h == g.(fails := 0, nextOK := s.clock)
      else h == g.(fails := g.fails + 1, nextOK := s.clock + Penalty(g.fails))
  {
    ReachableInv(s);
    hide Backoff;
    PenaltyAfter(s.gate.fails);
  }

  const SECOND: int := 1_000_000_000

  /** The rest after `fails` earlier failures: half a minute, doubled each time, five minutes from the fifth on. */
  function Penalty(fails: nat): int {
    match fails
    case 0 => 30 * SECOND
    case 1 => 60 * SECOND
    case 2 => 120 * SECOND
    case 3 => 240 * SECOND
    case _ => 300 * SECOND
  }

  lemma PenaltyAfter(fails: nat)
    ensures Backoff(fails + 1) == Penalty(fails)
  {
    hide Backoff, Pow2;
    BackoffExact(fails + 1);
    Pow2Values();
    Pow2Small();
    if fails >= 4 {
      Pow2Monotone(4, fails);
    }
  }

  /** What every other step does to the governor's record, label by label. */
  lemma GateByLabel(s: State, l: Label)
    requires Enabled(s, l) && !l.Judge?
    ensures var g, h := s.gate, Apply(s, l).gate;
      match l
      case FailInside(_) => h == g.(fails := g.fails + 1, nextOK := s.clock + Penalty(g.fails))
      case FailOutside(_) => h == g.(fails := g.fails + 1, nextOK := s.clock + Penalty(g.fails))
      case Take(_) => h == g.(full := true)
      case Release(_) => h == g.(full := false)
      case Recheck(_) => h == if s.clock >= g.nextOK then g else g.(full := false)
      case _ => h == g
  {
    hide Backoff;
    PenaltyAfter(s.gate.fails);
  }

  /** Only an uncancelled capture run that has lasted a full minute since its own admission clears the penalty. */
  lemma OkIsEarned(s: State, l: Label)
    requires Reachable(s) && Enabled(s, l) && Apply(s, l).gate.fails < s.gate.fails
    ensures l.Judge?
    ensures var x := s.procs[l.p];
            x.job.Capture? && !x.cancelled && x.acquired == x.released && s.clock - x.admittedAt >= 60 * SECOND
  {
    ReachableInv(s);
  }

  lemma OneStep(s: State, l: Label, ls: seq<Label>)
    requires Enabled(s, l) && IsRun(Apply(s, l), ls)
    ensures IsRun(s, [l] + ls) && End(s, [l] + ls) == End(Apply(s, l), ls)
  {
    assert ([l] + ls)[0] == l && ([l] + ls)[1..] == ls;
  }

  /** How many of its own actions separate a goroutine from having released the window. */
  function Rank(pc: Pc): nat {
    if pc.Checking? then 3 else if pc.Open? || pc.StartFailed? then 2 else if pc.Closing? then 1 else 0
  }

  /** The holder's own next action brings it nearer to having released the window. */
  lemma HolderActs(s: State, p: Pid) returns (l: Label)
    requires Inv(s) && p in s.procs && Holds(s.procs[p].pc)
    ensures Enabled(s, l) && !l.Tick? && l.p == p && p in Apply(s, l).procs
    ensures Rank(Apply(s, l).procs[p].pc) < Rank(s.procs[p].pc)
    ensures !Holds(Apply(s, l).procs[p].pc) ==> !Apply(s, l).gate.full
  {
    hide Backoff, Horizon;
    var x := s.procs[p];
    l :=
      if x.pc.Checking? then Recheck(p)
      else if x.pc.Open? then (if x.job.Capture? then Listened(p, true) else Found(p))
      else if x.pc.StartFailed? then FailInside(p)
      else Release(p);
  }

  /** Whoever holds the window can always finish with it on its own, without the clock moving. */
  lemma WindowCanBeGivenBack(s: State, p: Pid) returns (rest: seq<Label>)
    requires Inv(s) && p in s.procs && Holds(s.procs[p].pc)
    ensures |rest| <= Rank(s.procs[p].pc) && (forall i :: 0 <= i < |rest| ==> !rest[i].Tick? && rest[i].p == p)
    ensures IsRun(s, rest) && !End(s, rest).gate.full
    decreases Rank(s.procs[p].pc)
  {
    hide Apply, Enabled, Inv, Holds, Rank;
    var l := HolderActs(s, p);
    var t := Apply(s, l);
    InvStep(s, l);
    var more := [];
    if Holds(t.procs[p].pc) {
      more := WindowCanBeGivenBack(t, p);
    }
    OneStep(s, l, more);
    rest := [l] + more;
  }

  // ---- the ways through the loop ---------------------------------------------------------------------

  lemma TwoSteps(s: State, a: Label, b: Label)
    requires Enabled(s, a) && Enabled(Apply(s, a), b)
    ensures IsRun(s, [a, b]) && End(s, [a, b]) == Apply(Apply(s, a), b)
  {
    hide Enabled, Apply;
    var t := Apply(s, a);
    assert IsRun(Apply(t, b), []) && End(Apply(t, b), []) == Apply(t, b);
    OneStep(t, b, []);
    assert [b] + [] == [b];
    OneStep(s, a, [b]);
    assert [a] + [b] == [a, b];
  }

  lemma ThreeSteps(s: State, a: Label, b: Label, c: Label)
    requires Enabled(s, a) && Enabled(Apply(s, a), b) && Enabled(Apply(Apply(s, a), b), c)
    ensures IsRun(s, [a, b, c]) && End(s, [a, b, c]) == Apply(Apply(Apply(s, a), b), c)
  {
    hide Enabled, Apply;
    TwoSteps(Apply(s, a), b, c);
    OneStep(s, a, [b, c]);
    assert [a] + [b, c] == [a, b, c];
  }

  /** The state with goroutine p and the governor's record replaced. */
  function With(s: State, p: Pid, x: Proc, g: Gate): State {
    State(s.clock, g, s.procs[p := x])
  }

  lemma BeginStep(s: State, p: Pid)
    requires p in s.procs && s.procs[p].pc.Top? && !s.procs[p].cancelled
    ensures Enabled(s, Begin(p)) && Apply(s, Begin(p)) == With(s, p, s.procs[p].(pc := Peek), s.gate)
  {
    hide Backoff;
  }

  lemma ReadStep(s: State, p: Pid)
    requires p in s.procs && s.procs[p].pc.Peek?
    ensures Enabled(s, ReadGate(p))
    ensures Apply(s, ReadGate(p)) ==
      With(s, p, s.procs[p].(pc := if s.gate.nextOK > s.clock then Sleeping(s.gate.nextOK) else Queued), s.gate)
  {
    hide Backoff;
  }

  lemma TakeStep(s: State, p: Pid)
    requires p in s.procs && s.procs[p].pc.Queued? && !s.gate.full
    ensures Enabled(s, Take(p))
    ensures Apply(s, Take(p)) ==
      With(s, p, s.procs[p].(pc := Checking, acquired := s.procs[p].acquired + 1), s.gate.(full := true))
  {
    hide Backoff;
  }

  lemma RecheckStep(s: State, p: Pid)
    requires p in s.procs && s.procs[p].pc.Checking?
    ensures Enabled(s, Recheck(p)) && Apply(s, Recheck(p)) ==
      if s.clock >= s.gate.nextOK then With(s, p, s.procs[p].(pc := Open(s.clock), admittedAt := s.clock), s.gate)
      else With(s, p, s.procs[p].(pc := Peek, released := s.procs[p].released + 1), s.gate.(full := false))
  {
    hide Backoff;
  }

  lemma StartErrorStep(s: State, p: Pid)
    requires p in s.procs && s.procs[p].pc.Open? && s.procs[p].job.Capture?
    ensures Enabled(s, StartError(p))
    ensures Apply(s, StartError(p)) ==
      With(s, p, s.procs[p].(pc := StartFailed), s.gate)
  {
    hide Backoff;
  }

  lemma FailInsideStep(s: State, p: Pid)
    requires p in s.procs && (s.procs[p].pc.StartFailed? || (s.procs[p].pc.Open? && s.procs[p].job.Enumerate?))
    ensures Enabled(s, FailInside(p))
    ensures Apply(s, FailInside(p)) ==
      With(s, p, s.procs[p].(pc := Closing(ToTop)),
           s.gate.(fails := s.gate.fails + 1, nextOK := s.clock + Penalty(s.gate.fails)))
  {
    hide Backoff;
    PenaltyAfter(s.gate.fails);
  }

  lemma FoundStep(s: State, p: Pid)
    requires p in s.procs && s.procs[p].pc.Open? && s.procs[p].job.Enumerate?
    ensures Enabled(s, Found(p)) && Apply(s, Found(p)) == With(s, p, s.procs[p].(pc := Closing(ToTop)), s.gate)
  {
    hide Backoff;
  }

  lemma ListenedStep(s: State, p: Pid, ready: bool)
    requires p in s.procs && s.procs[p].pc.Open? && s.procs[p].job.Capture?
    ensures Enabled(s, Listened(p, ready))
    ensures Apply(s, Listened(p, ready)) ==
      With(s, p, s.procs[p].(pc := Closing(ToVerdict(ready, s.procs[p].pc.start))), s.gate)
  {
    hide Backoff;
  }

  lemma ReleaseStep(s: State, p: Pid)
    requires p in s.procs && s.procs[p].pc.Closing?
    ensures Enabled(s, Release(p)) && Apply(s, Release(p)) == With(s, p,
      s.procs[p].(released := s.procs[p].released + 1,
                  pc := match s.procs[p].pc.andThen case ToTop => Top case ToVerdict(ready, began) => Verdict(ready, began)),
      s.gate.(full := false))
  {
    hide Backoff;
  }

  lemma FailOutsideStep(s: State, p: Pid)
    requires p in s.procs && s.procs[p].pc.Verdict? && (s.procs[p].pc.ready || !s.procs[p].cancelled)
    ensures Enabled(s, FailOutside(p))
    ensures Apply(s, FailOutside(p)) ==
      With(s, p, s.procs[p].(pc := Top),
           s.gate.(fails := s.gate.fails + 1, nextOK := s.clock + Penalty(s.gate.fails)))
  {
    hide Backoff;
    PenaltyAfter(s.gate.fails);
  }

  lemma RunStartStep(s: State, p: Pid)
    requires p in s.procs && s.procs[p].pc.Verdict? && s.procs[p].pc.ready
    ensures Enabled(s, RunStart(p))
    ensures Apply(s, RunStart(p)) ==
      With(s, p, s.procs[p].(pc := Running(s.procs[p].pc.began)), s.gate)
  {
    hide Backoff;
  }

  lemma QuitStep(s: State, p: Pid)
    requires p in s.procs && s.procs[p].cancelled && s.procs[p].pc.Verdict? && !s.procs[p].pc.ready
    ensures Enabled(s, Quit(p)) && Apply(s, Quit(p)) == With(s, p, s.procs[p].(pc := Done), s.gate)
  {
    hide Backoff;
  }

  /** The state with goroutine p at `pc` after one more release, and the governor's record as given. */
  function Back(s: State, p: Pid, pc: Pc, fails: nat, nextOK: int): State
    requires p in s.procs
  {
    State(s.clock, Gate(false, fails, nextOK), s.procs[p := s.procs[p].(pc := pc, released := s.procs[p].released + 1)])
  }

  /** rtl_tcp does not start: one failure, then the window is given back, then the loop's head. */
  lemma StartFails(s: State, p: Pid)
    requires p in s.procs && s.procs[p].pc.Open? && s.procs[p].job.Capture?
    ensures var run := [StartError(p), FailInside(p), Release(p)];
      IsRun(s, run) && End(s, run) == Back(s, p, Top, s.gate.fails + 1, s.clock + Penalty(s.gate.fails))
  {
    hide Enabled, Apply, Penalty;
    StartErrorStep(s, p);
    var t := Apply(s, StartError(p));
    FailInsideStep(t, p);
    ReleaseStep(Apply(t, FailInside(p)), p);
    ThreeSteps(s, StartError(p), FailInside(p), Release(p));
  }

  /** rtl_tcp never listens: the window is given back first, then one failure, unless the supervisor was cancelled. */
  lemma NeverListens(s: State, p: Pid)
    requires p in s.procs && s.procs[p].pc.Open? && s.procs[p].job.Capture? && !s.procs[p].cancelled
    ensures var run := [Listened(p, false), Release(p), FailOutside(p)];
      IsRun(s, run) && End(s, run) == Back(s, p, Top, s.gate.fails + 1, s.clock + Penalty(s.gate.fails))
  {
    hide Enabled, Apply, Penalty;
    ListenedStep(s, p, false);
    var t := Apply(s, Listened(p, false));
    ReleaseStep(t, p);
    FailOutsideStep(Apply(t, Release(p)), p);
    ThreeSteps(s, Listened(p, false), Release(p), FailOutside(p));
  }

  lemma CancelledWhileListening(s: State, p: Pid)
    requires p in s.procs && s.procs[p].pc.Open? && s.procs[p].job.Capture? && s.procs[p].cancelled
    ensures var run := [Listened(p, false), Release(p), Quit(p)];
      IsRun(s, run) && End(s, run) == Back(s, p, Done, s.gate.fails, s.gate.nextOK)
  {
    hide Enabled, Apply, Penalty;
    ListenedStep(s, p, false);
    var t := Apply(s, Listened(p, false));
    ReleaseStep(t, p);
    QuitStep(Apply(t, Release(p)), p);
    ThreeSteps(s, Listened(p, false), Release(p), Quit(p));
  }

  /** rtl_tcp listens and rtlamr starts: the window is given back, nothing is counted yet, the run dates from the admission. */
  lemma Listens(s: State, p: Pid)
    requires p in s.procs && s.procs[p].pc.Open? && s.procs[p].job.Capture?
    ensures var run := [Listened(p, true), Release(p), RunStart(p)];
      IsRun(s, run) && End(s, run) == Back(s, p, Running(s.procs[p].pc.start), s.gate.fails, s.gate.nextOK)
  {
    hide Enabled, Apply, Penalty;
    ListenedStep(s, p, true);
    var t := Apply(s, Listened(p, true));
    ReleaseStep(t, p);
    RunStartStep(Apply(t, Release(p)), p);
    ThreeSteps(s, Listened(p, true), Release(p), RunStart(p));
  }

  /** An enumeration that finds a device counts nothing; one that finds none, or cannot run, is one failure. */
  lemma Enumerates(s: State, p: Pid)
    requires p in s.procs && s.procs[p].pc.Open? && s.procs[p].job.Enumerate?
    ensures var found, none := [Found(p), Release(p)], [FailInside(p), Release(p)];
      IsRun(s, found) && End(s, found) == Back(s, p, Top, s.gate.fails, s.gate.nextOK) &&
      IsRun(s, none) && End(s, none) == Back(s, p, Top, s.gate.fails + 1, s.clock + Penalty(s.gate.fails))
  {
    hide Enabled, Apply, Penalty;
    FoundStep(s, p);
    ReleaseStep(Apply(s, Found(p)), p);
    TwoSteps(s, Found(p), Release(p));
    FailInsideStep(s, p);
    ReleaseStep(Apply(s, FailInside(p)), p);
    TwoSteps(s, FailInside(p), Release(p));
  }

  /** Taking the window: admitted now when the backoff is over, else back to waiting with the token returned. */
  lemma TakesTheWindow(s: State, p: Pid)
    requires p in s.procs && s.procs[p].pc.Queued? && !s.gate.full
    ensures var run := [Take(p), Recheck(p)];
      var x := s.procs[p].(acquired := s.procs[p].acquired + 1);
      IsRun(s, run) && End(s, run) ==
        if s.clock >= s.gate.nextOK
        then State(s.clock, s.gate.(full := true), s.procs[p := x.(pc := Open(s.clock), admittedAt := s.clock)])
        else State(s.clock, s.gate, s.procs[p := x.(pc := Peek, released := x.released + 1)])
  {
    hide Enabled, Apply, Penalty;
    TakeStep(s, p);
    RecheckStep(Apply(s, Take(p)), p);
    TwoSteps(s, Take(p), Recheck(p));
  }

  /** Waiting: a goroutine that finds the backoff unfinished sleeps until its end and no shorter, holding nothing. */
  lemma SleepsOutTheBackoff(s: State, p: Pid)
    requires p in s.procs && s.procs[p].pc.Top? && !s.procs[p].cancelled
    ensures var run := [Begin(p), ReadGate(p)];
      IsRun(s, run) && End(s, run) == With(s, p, s.procs[p].(pc :=
        if s.gate.nextOK > s.clock then Sleeping(s.gate.nextOK) else Queued), s.gate)
  {
    hide Enabled, Apply;
    BeginStep(s, p);
    ReadStep(Apply(s, Begin(p)), p);
    TwoSteps(s, Begin(p), ReadGate(p));
  }

  /** And it wakes up exactly from then on. */
  lemma WakesAtTheEnd(s: State, p: Pid)
    requires p in s.procs && s.procs[p].pc.Sleeping?
    ensures Enabled(s, Wake(p)) <==> s.clock >= s.procs[p].pc.until
    ensures s.clock >= s.procs[p].pc.until ==> Apply(s, Wake(p)) == With(s, p, s.procs[p].(pc := Queued), s.gate)
  {
    hide Backoff;
  }

  lemma {:induction false} RunConcat(s: State, a: seq<Label>, b: seq<Label>)
    requires IsRun(s, a) && IsRun(End(s, a), b)
    ensures IsRun(s, a + b) && End(s, a + b) == End(End(s, a), b)
    decreases |a|
  {
    hide Enabled, Apply;
    if a == [] {
      assert a + b == b;
    } else {
      assert (a + b)[1..] == a[1..] + b;
      RunConcat(Apply(s, a[0]), a[1..], b);
    }
  }

  /** The first goroutine to ask is admitted at once: the governor starts free and owes no rest. */
  lemma FirstToAsk(p: Pid, job: Job)
    ensures var run := [Spawn(p, job), Begin(p), ReadGate(p), Take(p), Recheck(p)];
      IsRun(Init(), run) && End(Init(), run) == State(0, Gate(true, 0, 0), map[p := Proc(job, Open(0), false, 1, 0, 0)])
  {
    var s := Apply(Init(), Spawn(p, job));
    hide Backoff, Penalty, Enabled, Apply, IsRun, End;
    SleepsOutTheBackoff(s, p);
    var waiting, taking := [Begin(p), ReadGate(p)], [Take(p), Recheck(p)];
    var t := End(s, waiting);
    TakesTheWindow(t, p);
    RunConcat(s, waiting, taking);
    var run := [Spawn(p, job), Begin(p), ReadGate(p), Take(p), Recheck(p)];
    assert waiting + taking == run[1..];
  }

  /** A capture supervisor, which may be cancelled at any time, leaves its loop exactly then: at its head, waiting, or after a run. */
  lemma LeavesWhenCancelled(s: State, p: Pid)
    requires p in s.procs && s.procs[p].job.Capture?
    ensures Enabled(s, Cancel(p)) && Apply(s, Cancel(p)) == With(s, p, s.procs[p].(cancelled := true), s.gate)
    ensures s.procs[p].pc.Top? ==>
      (Enabled(s, Leave(p)) <==> s.procs[p].cancelled) && (Enabled(s, Begin(p)) <==> !s.procs[p].cancelled)
    ensures s.procs[p].pc.Running? ==>
      (Enabled(s, Quit(p)) <==> s.procs[p].cancelled) && (Enabled(s, Judge(p)) <==> !s.procs[p].cancelled)
    ensures Enabled(s, GiveUp(p)) <==> s.procs[p].cancelled && (s.procs[p].pc.Sleeping? || s.procs[p].pc.Queued?)
    ensures forall l :: l in {Leave(p), Quit(p), GiveUp(p)} && Enabled(s, l) ==>
      Apply(s, l) == With(s, p, s.procs[p].(pc := Done), s.gate)
  {
    hide Backoff;
  }
}
