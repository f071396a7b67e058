/** The capture manager: desired device set, reconciliation, health rescans and dead-run escalation. */
module Manager {
  import opened Common

  type Source = string

  datatype ScanParams = ScanParams(devIndex: int, freq: string, gain: string, ppm: string, msgtype: string, filt: string)

  datatype Device = Device(index: int, source: Source)

  datatype DeviceConfig = DeviceConfig(enabled: Option<bool>, freq: string, gain: string, ppm: string, msgtype: string, filt: string)

  datatype CaptureConfig = CaptureConfig(devices: map<Source, DeviceConfig>, defaults: DeviceConfig)

  datatype RunningDev = RunningDev(params: ScanParams, downStreak: nat)

  const RESCAN_SPACING: int := 300   // seconds

  function Override(cfg: CaptureConfig, source: Source): DeviceConfig {
    if source in cfg.devices then cfg.devices[source] else DeviceConfig(None, "", "", "", "", "")
  }

  function Pick(override: string, default: string): string {
    if override != "" then override else default
  }

  predicate Enabled(cfg: CaptureConfig, source: Source) {
    var o := Override(cfg, source).enabled;
    o.Some? ==> o.value
  }

  function Params(cfg: CaptureConfig, dev: Device): ScanParams {
    var o := Override(cfg, dev.source);
    ScanParams(dev.index, Pick(o.freq, cfg.defaults.freq), Pick(o.gain, cfg.defaults.gain), Pick(o.ppm, cfg.defaults.ppm),
               Pick(o.msgtype, cfg.defaults.msgtype), Pick(o.filt, cfg.defaults.filt))
  }

  /** A device that the configuration does not mention, or mentions without a switch, is captured. */
  lemma EnabledByDefault(cfg: CaptureConfig, source: Source)
    ensures source !in cfg.devices ==> Enabled(cfg, source)
    ensures source in cfg.devices ==>
      (Enabled(cfg, source) <==> cfg.devices[source].enabled.None? || cfg.devices[source].enabled == Some(true))
  {
  }

  /** Each parameter is the device's own when it is given and the common one when not; the index is the device's. */
  lemma ParametersOf(cfg: CaptureConfig, dev: Device)
    ensures Params(cfg, dev).devIndex == dev.index
    ensures dev.source !in cfg.devices ==> Params(cfg, dev) == ScanParams(dev.index, cfg.defaults.freq, cfg.defaults.gain,
      cfg.defaults.ppm, cfg.defaults.msgtype, cfg.defaults.filt)
    ensures dev.source in cfg.devices ==>
      var own, p := cfg.devices[dev.source], Params(cfg, dev);
      (own.freq == "" ==> p.freq == cfg.defaults.freq) && (own.freq != "" ==> p.freq == own.freq) &&
      (own.gain == "" ==> p.gain == cfg.defaults.gain) && (own.gain != "" ==> p.gain == own.gain) &&
      (own.ppm == "" ==> p.ppm == cfg.defaults.ppm) && (own.ppm != "" ==> p.ppm == own.ppm) &&
      (own.msgtype == "" ==> p.msgtype == cfg.defaults.msgtype) && (own.msgtype != "" ==> p.msgtype == own.msgtype) &&
      (own.filt == "" ==> p.filt == cfg.defaults.filt) && (own.filt != "" ==> p.filt == own.filt)
  {
  }

  /** What should be running: every enabled device of the inventory; a repeated source keeps its last entry. */
  ghost predicate IsDesired(desired: map<Source, ScanParams>, inventory: seq<Device>, cfg: CaptureConfig) {
    && (forall src :: src in desired <==> Enabled(cfg, src) && exists i :: 0 <= i < |inventory| && inventory[i].source == src)
    && (forall i :: 0 <= i < |inventory| && Enabled(cfg, inventory[i].source)
                    && (forall j :: i < j < |inventory| ==> inventory[j].source != inventory[i].source)
                    ==> inventory[i].source in desired && desired[inventory[i].source] == Params(cfg, inventory[i]))
  }

  /** The running set is the desired set, device by device and parameter by parameter. */
  ghost predicate Matches(running: map<Source, RunningDev>, desired: map<Source, ScanParams>) {
    running.Keys == desired.Keys && forall src :: src in desired ==> running[src].params == desired[src]
  }

  /** A running device whose parameters are exactly the ones still wanted. */
  predicate Kept(running: map<Source, RunningDev>, desired: map<Source, ScanParams>, src: Source)
    requires src in running
  {
    src in desired && desired[src] == running[src].params
  }

  /** What happens to supervisors: started, told to stop, and seen to have stopped. */
  datatype Life = Started(source: Source, params: ScanParams) | Cancelled(source: Source) | Awaited(source: Source)

  /** Supervisors of a source started and not yet seen to have stopped. */
  function Live(log: seq<Life>, source: Source): int {
    if log == [] then 0
    else
      var e := log[|log| - 1];
      Live(log[..|log| - 1], source)
      + (if e.source != source then 0 else if e.Started? then 1 else if e.Awaited? then -1 else 0)
  }

  /** At no point did a source have two live supervisors. */
  ghost predicate NeverTwo(log: seq<Life>) {
    forall k, src :: 0 <= k <= |log| ==> 0 <= Live(log[..k], src) <= 1
  }

  predicate Untouched(log: seq<Life>, from: nat, source: Source)
    requires from <= |log|
  {
    forall k :: from <= k < |log| ==> log[k].source != source
  }

  lemma Appended(log: seq<Life>, e: Life)
    requires NeverTwo(log)
    requires e.Started? ==> Live(log, e.source) == 0
    requires e.Awaited? ==> Live(log, e.source) == 1
    ensures NeverTwo(log + [e])
    ensures forall src {:trigger Live(log + [e], src)} ::
              Live(log + [e], src) == Live(log, src)
                                      + (if e.source != src then 0 else if e.Started? then 1 else if e.Awaited? then -1 else 0)
  {
    var next := log + [e];
    assert next[..|log|] == log;
    forall k, src | 0 <= k <= |next|
      ensures 0 <= Live(next[..k], src) <= 1
    {
      assert log[..|log|] == log;
      if k <= |log| {
        assert next[..k] == log[..k];
      } else {
        assert next[..k] == next;
        assert 0 <= Live(log[..|log|], src) <= 1;
      }
    }
  }

  class Manager {
    var running: map<Source, RunningDev>
    var inventory: seq<Device>
    var lastRescan: int
    ghost var log: seq<Life>

    /** The running map is exactly the set of live supervisors, and no source ever had two. */
    ghost predicate Valid()
      reads this
    {
      NeverTwo(log) && forall src :: Live(log, src) == if src in running then 1 else 0
    }

    constructor ()
      ensures Valid() && running == map[] && inventory == [] && log == []
    {
      running, inventory, lastRescan, log := map[], [], -62_135_596_800, [];
    }

    method Stop(src: Source)
      requires Valid() && src in running
      modifies this`running, this`log
      ensures Valid() && running == old(running) - {src}
      ensures log == old(log) + [Cancelled(src), Awaited(src)]
    {
      Appended(log, Cancelled(src));
      log := log + [Cancelled(src)];
      Appended(log, Awaited(src));
      log := log + [Awaited(src)];
      running := running - {src};
    }

    method Start(src: Source, params: ScanParams)
      requires Valid() && src !in running
      modifies this`running, this`log
      ensures Valid() && running == old(running)[src := RunningDev(params, 0)]
      ensures log == old(log) + [Started(src, params)]
    {
      Appended(log, Started(src, params));
      log := log + [Started(src, params)];
      running := running[src := RunningDev(params, 0)];
    }

    /** Every supervisor is cancelled and awaited; nothing is left running. */
    method StopAll()
      requires Valid()
      modifies this`running, this`log
      ensures Valid() && running == map[] && old(log) <= log
    {
      hide NeverTwo, Live;
      var todo := running.Keys;
      while todo != {}
        invariant Valid() && running.Keys == todo && old(log) <= log
        decreases todo
      {
        var src :| src in todo;
        Stop(src);
        todo := todo - {src};
      }
      assert running.Keys == {};
    }

    /** Stop devices that vanished, got disabled, or whose parameters changed. */
    method StopStale(desired: map<Source, ScanParams>)
      requires Valid()
      modifies this`running, this`log
      ensures Valid() && old(log) <= log
      ensures forall src :: src in running <==> src in old(running) && Kept(old(running), desired, src)
      ensures forall src :: src in running ==> running[src] == old(running)[src] && Untouched(log, |old(log)|, src)
      ensures running == old(running) ==> log == old(log)
    {
      hide NeverTwo, Live;
      var todo := running.Keys;
      while todo != {}
        invariant Valid() && old(log) <= log
        invariant todo <= running.Keys
        invariant forall src :: src in running <==> src in old(running) && (src in todo || Kept(old(running), desired, src))
        invariant forall src :: src in running ==> running[src] == old(running)[src] && Untouched(log, |old(log)|, src)
        invariant running.Keys == old(running).Keys ==> log == old(log)
        decreases todo
      {
        var src :| src in todo;
        if src !in desired || desired[src] != running[src].params {
          Stop(src);
        }
        todo := todo - {src};
      }
    }

    /** Start what should be running but is not. */
    method StartMissing(desired: map<Source, ScanParams>)
      requires Valid() && running.Keys <= desired.Keys
      modifies this`running, this`log
      ensures Valid() && old(log) <= log && running.Keys == desired.Keys
      ensures forall src :: src in old(running) ==> running[src] == old(running)[src] && Untouched(log, |old(log)|, src)
      ensures forall src :: src in running && src !in old(running) ==> running[src] == RunningDev(desired[src], 0)
      ensures running == old(running) ==> log == old(log)
    {
      hide NeverTwo, Live;
      var todo := desired.Keys;
      while todo != {}
        invariant Valid() && old(log) <= log
        invariant running.Keys <= desired.Keys <= running.Keys + todo
        invariant forall src :: src in old(running) ==>
                    src in running && running[src] == old(running)[src] && Untouched(log, |old(log)|, src)
        invariant forall src :: src in running && src !in old(running) ==> running[src] == RunningDev(desired[src], 0)
        invariant running.Keys == old(running).Keys ==> log == old(log)
        decreases todo
      {
        var src :| src in todo;
        if src !in running {
          Start(src, desired[src]);
        }
        todo := todo - {src};
      }
    }

    /**
     * Afterwards the running set is the desired set; a device whose parameters did not change is not
     * touched at all; a replaced one was awaited before its successor started (Valid: never two live
     * supervisors of one source); and converging again to the same set does nothing.
     */
    method Converge(desired: map<Source, ScanParams>)
      requires Valid()
      modifies this`running, this`log
      ensures Valid() && Matches(running, desired)
      ensures old(log) <= log
      ensures forall src :: src in old(running) && Kept(old(running), desired, src)
                            ==> running[src] == old(running)[src] && Untouched(log, |old(log)|, src)
      ensures Matches(old(running), desired) ==> running == old(running) && log == old(log)
    {
      StopStale(desired);
      StartMissing(desired);
    }

    /** The health check: a device not up this time extends its streak, one that is up clears it. */
    method RescanNeeded(up: set<Source>) returns (bad: bool)
      requires Valid()
      modifies this`running
      ensures Valid() && running.Keys == old(running).Keys
      ensures forall src :: src in running ==>
                running[src] == RunningDev(old(running)[src].params, StreakAfter(old(running)[src].downStreak, src in up))
      ensures bad <==> exists src :: src in running && running[src].downStreak >= 2 && src !in up
    {
      bad := false;
      var todo := running.Keys;
      while todo != {}
        invariant running.Keys == old(running).Keys && todo <= running.Keys
        invariant forall src :: src in todo ==> running[src] == old(running)[src]
        invariant forall src :: src in running && src !in todo ==>
                    running[src] == RunningDev(old(running)[src].params, StreakAfter(old(running)[src].downStreak, src in up))
        invariant bad <==> exists src :: src in running && src !in todo && running[src].downStreak >= 2 && src !in up
        decreases todo
      {
        var src :| src in todo;
        var rd := running[src];
        if src in up {
          running := running[src := rd.(downStreak := 0)];
        } else {
          running := running[src := rd.(downStreak := rd.downStreak + 1)];
          if rd.downStreak + 1 >= 2 {
            bad := true;
          }
        }
        todo := todo - {src};
      }
    }

    method Desired(cfg: CaptureConfig) returns (desired: map<Source, ScanParams>)
      ensures IsDesired(desired, inventory, cfg)
    {
      desired := map[];
      for i := 0 to |inventory|
        invariant IsDesired(desired, inventory[..i], cfg)
      {
        var dev := inventory[i];
        assert inventory[..i + 1] == inventory[..i] + [dev];
        ghost var before := desired;
        if Enabled(cfg, dev.source) {
          desired := desired[dev.source := Params(cfg, dev)];
        }
        DesiredStep(before, inventory[..i], dev, cfg);
      }
      assert inventory[..|inventory|] == inventory;
    }

    /**
     * One reconciliation. `enumerated` is what the bus probe finds if it is made, `loaded` the
     * configuration or None when it cannot be read.
     */
    method Reconcile(mayRescan: bool, up: set<Source>, now: int, enumerated: seq<Device>, loaded: Option<CaptureConfig>)
      returns (rescanned: bool, ghost desired: map<Source, ScanParams>)
      requires Valid()
      modifies this
      ensures Valid() && old(log) <= log
      ensures rescanned <==> mayRescan && now - old(lastRescan) > 300
                             && exists src :: src in old(running) && src !in up && old(running)[src].downStreak >= 1
      ensures lastRescan == if rescanned then now else old(lastRescan)
      ensures inventory == if rescanned || old(inventory) == [] then enumerated else old(inventory)
      ensures loaded.Some? ==> IsDesired(desired, inventory, loaded.value) && Matches(running, desired)
      ensures loaded.None? && rescanned ==> running == map[]
      ensures loaded.None? && !rescanned ==> log == old(log) && running.Keys == old(running).Keys
      ensures loaded.Some? && !rescanned && Matches(old(running), desired) ==> log == old(log)
      ensures forall src :: loaded.Some? && !rescanned && src in old(running) && Kept(old(running), desired, src)
                            ==> Untouched(log, |old(log)|, src)
    {
      rescanned, desired := false, map[];
      if mayRescan {
        var bad := RescanNeeded(up);
        if bad && now - lastRescan > RESCAN_SPACING {
          rescanned := true;
          StopAll();
          inventory := [];
          lastRescan := now;
        }
      }
      if |inventory| == 0 {
        inventory := enumerated;
      }
      if loaded.None? {
        return;
      }
      var want := Desired(loaded.value);
      desired := want;
      Converge(want);
    }
  }

  lemma DesiredStep(desired: map<Source, ScanParams>, inventory: seq<Device>, dev: Device, cfg: CaptureConfig)
    requires IsDesired(desired, inventory, cfg)
    ensures IsDesired(if Enabled(cfg, dev.source) then desired[dev.source := Params(cfg, dev)] else desired,
                      inventory + [dev], cfg)
  {
    var longer := inventory + [dev];
    var next := if Enabled(cfg, dev.source) then desired[dev.source := Params(cfg, dev)] else desired;
    forall src
      ensures src in next <==> Enabled(cfg, src) && exists i :: 0 <= i < |longer| && longer[i].source == src
    {
      if src == dev.source {
        assert longer[|inventory|].source == src;
      } else if exists i :: 0 <= i < |inventory| && inventory[i].source == src {
        var i :| 0 <= i < |inventory| && inventory[i].source == src;
        assert longer[i].source == src;
      }
    }
    forall i | 0 <= i < |longer| && Enabled(cfg, longer[i].source)
               && (forall j :: i < j < |longer| ==> longer[j].source != longer[i].source)
      ensures longer[i].source in next && next[longer[i].source] == Params(cfg, longer[i])
    {
      if i < |inventory| {
        assert longer[|inventory|].source != longer[i].source;
        assert forall j :: i < j < |inventory| ==> longer[j] == inventory[j];
      }
    }
  }

  function StreakAfter(streak: nat, up: bool): nat {
    if up then 0 else streak + 1
  }

  function StreakOf(observed: seq<bool>): nat {
    if observed == [] then 0 else StreakAfter(StreakOf(observed[..|observed| - 1]), observed[|observed| - 1])
  }

  /** A rescan is asked for exactly after two consecutive health checks that found the device down. */
  lemma TwoDownChecks(observed: seq<bool>)
    ensures StreakOf(observed) >= 2
            <==> |observed| >= 2 && !observed[|observed| - 1] && !observed[|observed| - 2]
  {
    if |observed| >= 2 {
      var shorter := observed[..|observed| - 1];
      assert StreakOf(shorter) == StreakAfter(StreakOf(shorter[..|shorter| - 1]), shorter[|shorter| - 1]);
    }
  }

  // ---- dead runs -------------------------------------------------------------------------------

  const MAX_DEAD_RUNS: nat := 3

  datatype RunOutcome = RunOutcome(source: Source, stalled: bool, pkts: nat)

  predicate IsDead(r: RunOutcome) {
    r.stalled && r.pkts == 0
  }

  /** Dead runs of a source since its last run that was not dead, whatever other sources did meanwhile. */
  function DeadStreak(history: seq<RunOutcome>, source: Source): nat {
    if history == [] then 0
    else
      var r := history[|history| - 1];
      var before := DeadStreak(history[..|history| - 1], source);
      if r.source != source then before else if IsDead(r) then before + 1 else 0
  }

  /** The process-wide tally: it outlives every supervisor, so a rescan cannot reset it. */
  class DeadRuns {
    var m: map<Source, nat>
    ghost var history: seq<RunOutcome>

    ghost predicate Valid()
      reads this
    {
      forall src :: if src in m then m[src] == DeadStreak(history, src) && m[src] > 0 else DeadStreak(history, src) == 0
    }

    constructor ()
      ensures Valid() && history == []
    {
      m, history := map[], [];
    }

    method Note(r: RunOutcome) returns (dead: bool)
      requires Valid()
      modifies this
      ensures Valid() && history == old(history) + [r]
      ensures dead <==> DeadStreak(history, r.source) >= 3
    {
      history := history + [r];
      assert history[..|history| - 1] == old(history);
      if r.stalled && r.pkts == 0 {
        m := m[r.source := (if r.source in m then m[r.source] else 0) + 1];
        return m[r.source] >= MAX_DEAD_RUNS;
      }
      m := m - {r.source};
      return false;
    }
  }

  /** Three in a row: the escalation fires exactly when the source's own last three runs were all dead. */
  lemma {:induction false} DeadStreakMeaning(history: seq<RunOutcome>, source: Source, own: seq<RunOutcome>)
    requires own == RunsOf(history, source)
    ensures DeadStreak(history, source) <= |own|
    ensures forall k :: |own| - DeadStreak(history, source) <= k < |own| ==> own[k].stalled && own[k].pkts == 0
    ensures DeadStreak(history, source) < |own| ==>
      var r := own[|own| - 1 - DeadStreak(history, source)]; !r.stalled || r.pkts > 0
  {
    if history != [] {
      var shorter := history[..|history| - 1];
      DeadStreakMeaning(shorter, source, RunsOf(shorter, source));
    }
  }

  function RunsOf(history: seq<RunOutcome>, source: Source): seq<RunOutcome> {
    if history == [] then []
    else
      var r := history[|history| - 1];
      RunsOf(history[..|history| - 1], source) + (if r.source == source then [r] else [])
  }
}
