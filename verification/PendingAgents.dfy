/**
 * The waiting list of agents that connected but are not yet approved: a map that holds at most 32 keys,
 * forgets those not heard from for ten minutes, and makes room by dropping the one silent the longest.
 */
module PendingAgents {
  import opened Common

  const TTL := 600
  const MAX := 32

  /** A base64 public key; never empty. */
  type Key = string

  datatype Agent = Agent(name: string, addr: string, firstSeen: int, lastSeen: int)

  type Table = map<Key, Agent>

  function Gc(m: Table, now: int): Table {
    map k | k in m && now - m[k].lastSeen <= TTL :: m[k]
  }

  predicate IsOldest(m: Table, k: Key) {
    k in m && forall j :: j in m ==> m[k].lastSeen <= m[j].lastSeen
  }

  function Refreshed(e: Agent, name: string, addr: string, now: int): Agent {
    Agent(if name != "" then name else e.name, addr, e.firstSeen, now)
  }

  /** One call of add: the new table is any that dropping some longest-silent key can give. */
  ghost predicate AddStep(m: Table, key: Key, name: string, addr: string, now: int, after: Table, added: bool) {
    if key in m then !added && after == m[key := Refreshed(m[key], name, addr, now)]
    else added && exists room :: MakesRoom(Gc(m, now), room) && after == room[key := Agent(name, addr, now, now)]
  }

  ghost predicate MakesRoom(m: Table, room: Table) {
    if |m| >= MAX then exists k :: IsOldest(m, k) && room == m - {k} else room == m
  }

  class Pending {
    var m: Table

    constructor ()
      ensures m == map[]
    {
      m := map[];
    }

    /** Records or refreshes an attempt; true only for a key that was not in the table. */
    method Add(key: Key, name: string, addr: string, now: int) returns (added: bool)
      modifies this
      ensures AddStep(old(m), key, name, addr, now, m, added)
      ensures added <==> key !in old(m)
    {
      if key in m {
        m := m[key := Refreshed(m[key], name, addr, now)];
        return false;
      }
      GcLocked(now);
      ghost var kept := m;
      if |m| >= MAX {
        var oldest := Oldest();
        m := m - {oldest};
      }
      assert MakesRoom(kept, m);
      m := m[key := Agent(name, addr, now, now)];
      added := true;
    }

    method Oldest() returns (oldest: Key)
      requires |m| > 0
      ensures IsOldest(m, oldest)
    {
      var todo := m.Keys;
      var found: Option<Key> := None;
      while |todo| > 0
        invariant todo <= m.Keys
        invariant found.None? ==> todo == m.Keys
        invariant found.Some? ==> found.value in m && forall j :: j in m && j !in todo ==> m[found.value].lastSeen <= m[j].lastSeen
        decreases |todo|
      {
        var k :| k in todo;
        if found.None? || m[k].lastSeen < m[found.value].lastSeen {
          found := Some(k);
        }
        todo := todo - {k};
      }
      oldest := found.value;
    }

    method Remove(key: Key)
      modifies this
      ensures m == old(m) - {key}
    {
      m := m - {key};
    }

    /** The entries still fresh, each once; the others are forgotten. */
    method List(now: int) returns (out: seq<Agent>)
      modifies this
      ensures m == Gc(old(m), now)
      ensures |out| == |m|
      ensures forall k :: k in m ==> m[k] in out
      ensures forall e :: e in out ==> now - e.lastSeen <= TTL && exists k :: k in m && m[k] == e
    {
      GcLocked(now);
      out := [];
      var todo := m.Keys;
      while |todo| > 0
        invariant todo <= m.Keys && |out| + |todo| == |m|
        invariant forall k :: k in m && k !in todo ==> m[k] in out
        invariant forall e :: e in out ==> now - e.lastSeen <= TTL && exists k :: k in m && m[k] == e
        decreases |todo|
      {
        var k :| k in todo;
        out := out + [m[k]];
        todo := todo - {k};
      }
    }

    method GcLocked(now: int)
      modifies this
      ensures m == Gc(old(m), now)
    {
      var todo := m.Keys;
      while |todo| > 0
        invariant todo <= m.Keys <= old(m).Keys
        invariant forall k :: k in m ==> m[k] == old(m)[k]
        invariant forall k :: k in old(m) && k !in todo ==> (k in m <==> now - old(m)[k].lastSeen <= TTL)
        decreases |todo|
      {
        var k :| k in todo;
        todo := todo - {k};
        if now - m[k].lastSeen > TTL {
          m := m - {k};
        }
      }
    }
  }

  // ---- runs ------------------------------------------------------------------------------------------

  datatype Op =
    | Add(key: Key, name: string, addr: string, now: int)
    | Remove(key: Key)
    | List(now: int)

  ghost predicate Step(m: Table, op: Op, after: Table) {
    match op
    case Add(key, name, addr, now) => AddStep(m, key, name, addr, now, after, key !in m)
    case Remove(key) => after == m - {key}
    case List(now) => after == Gc(m, now)
  }

  /** A run from the empty table, with the table before and after every call. */
  ghost predicate IsRun(ops: seq<Op>, tables: seq<Table>) {
    |tables| == |ops| + 1 && tables[0] == map[] && forall i :: 0 <= i < |ops| ==> Step(tables[i], ops[i], tables[i + 1])
  }

  predicate Timed(op: Op) {
    !op.Remove?
  }

  /** The clock is read under the lock, so its readings never go back; here no two are equal. */
  ghost predicate ClockAdvances(ops: seq<Op>) {
    forall i, j :: 0 <= i < j < |ops| && Timed(ops[i]) && Timed(ops[j]) ==> ops[i].now < ops[j].now
  }

  lemma GcSmaller(m: Table, now: int)
    ensures |Gc(m, now)| <= |m|
  {
    KeysInclude(Gc(m, now), m);
  }

  lemma KeysInclude(a: Table, b: Table)
    requires a.Keys <= b.Keys
    ensures |a| <= |b|
  {
    SubsetCard(a.Keys, b.Keys);
  }

  lemma SubsetCard<T>(a: set<T>, b: set<T>)
    requires a <= b
    ensures |a| <= |b|
  {
    assert b == a + (b - a);
  }

  lemma StepKeepsSize(m: Table, op: Op, after: Table)
    requires Step(m, op, after) && |m| <= MAX
    ensures |after| <= MAX
  {
    if op.List? {
      GcSmaller(m, op.now);
    } else if op.Remove? {
      KeysInclude(m - {op.key}, m);
    } else if op.key !in m {
      GcSmaller(m, op.now);
      AddedFits(Gc(m, op.now), op, after);
    } else {
      assert after.Keys == m.Keys;
    }
  }

  lemma AddedFits(g: Table, op: Op, after: Table)
    requires op.Add? && |g| <= MAX
    requires exists room :: MakesRoom(g, room) && after == room[op.key := Agent(op.name, op.addr, op.now, op.now)]
    ensures |after| <= MAX
  {
    var room :| MakesRoom(g, room) && after == room[op.key := Agent(op.name, op.addr, op.now, op.now)];
    if |g| >= MAX {
      var k :| IsOldest(g, k) && room == g - {k};
      assert room.Keys == g.Keys - {k};
    }
    assert after.Keys == room.Keys + {op.key};
  }

  /** Whatever the calls and their times, the table never holds more than 32 keys. */
  lemma {:induction false} NeverMoreThanMax(ops: seq<Op>, tables: seq<Table>, n: nat)
    requires IsRun(ops, tables) && n <= |ops|
    ensures |tables[n]| <= 32
  {
    if n > 0 {
      NeverMoreThanMax(ops, tables, n - 1);
      StepKeepsSize(tables[n - 1], ops[n - 1], tables[n]);
    }
  }

  /** What a step can do to an entry: leave it, forget it, or stamp the added key with the time of the call. */
  lemma EntryAfter(m: Table, op: Op, after: Table, j: Key)
    requires Step(m, op, after) && j in after
    ensures if op.Add? && op.key == j then after[j].lastSeen == op.now else j in m && after[j] == m[j]
  {
  }

  lemma RunStep(ops: seq<Op>, tables: seq<Table>, i: nat)
    requires IsRun(ops, tables) && i < |ops|
    ensures |tables| == |ops| + 1 && Step(tables[i], ops[i], tables[i + 1])
  {
  }

  /** No entry is stamped later than the latest call. */
  lemma {:induction false} StampsArePast(ops: seq<Op>, tables: seq<Table>, n: nat, i: nat, j: Key)
    requires IsRun(ops, tables) && ClockAdvances(ops) && n <= i < |ops| && Timed(ops[i]) && j in tables[n]
    ensures tables[n][j].lastSeen < ops[i].now
  {
    if n > 0 {
      EntryAfter(tables[n - 1], ops[n - 1], tables[n], j);
      if j in tables[n - 1] && tables[n][j] == tables[n - 1][j] {
        StampsArePast(ops, tables, n - 1, i, j);
      }
    }
  }

  /** The keys other than `key` that calls from..to-1 added or refreshed. */
  function Others(ops: seq<Op>, from: nat, to: nat, key: Key): set<Key>
    requires from <= to <= |ops|
  {
    if from == to then {}
    else
      Others(ops, from, to - 1, key) +
      if ops[to - 1].Add? && ops[to - 1].key != key then {ops[to - 1].key} else {}
  }

  /** Nothing between takes the key out: no removal of it, and no call after its time to live. */
  ghost predicate Undisturbed(ops: seq<Op>, i: nat, n: nat, key: Key)
    requires i < n <= |ops| && ops[i] .Add?
  {
    forall k :: i < k < n ==> (ops[k].Remove? ==> ops[k].key != key) && (Timed(ops[k]) ==> ops[k].now - ops[i].now <= 600)
  }

  /** A call that looks for stale entries and may evict: a listing, or the arrival of an unknown key. */
  predicate Sweeps(op: Op, m: Table) {
    op.List? || (op.Add? && op.key !in m)
  }

  /** Nothing between takes the key out: no removal of it, and no sweep after its time to live. */
  ghost predicate Unswept(ops: seq<Op>, tables: seq<Table>, i: nat, n: nat, key: Key)
    requires i < n <= |ops| && ops[i].Add? && |tables| == |ops| + 1
  {
    forall k :: i < k < n ==>
      (ops[k].Remove? ==> ops[k].key != key) && (Sweeps(ops[k], tables[k]) ==> ops[k].now - ops[i].now <= 600)
  }

  /** The key is in the table, and every entry at least as fresh as call i was stamped after it. */
  ghost predicate HeldSince(ops: seq<Op>, m: Table, i: nat, n: nat, key: Key)
    requires i < n <= |ops| && ops[i].Add?
  {
    key in m && m[key].lastSeen >= ops[i].now &&
    forall j :: j in m && j != key && m[j].lastSeen >= ops[i].now ==> j in Others(ops, i + 1, n, key)
  }

  lemma HeldAtFirst(ops: seq<Op>, tables: seq<Table>, i: nat, key: Key)
    requires IsRun(ops, tables) && ClockAdvances(ops) && i < |ops| && ops[i].Add? && ops[i].key == key
    ensures HeldSince(ops, tables[i + 1], i, i + 1, key)
  {
    assert Step(tables[i], ops[i], tables[i + 1]);
    var after := tables[i + 1];
    forall j | j in after && j != key ensures after[j].lastSeen < ops[i].now {
      EntryAfter(tables[i], ops[i], after, j);
      StampsArePast(ops, tables, i, i, j);
    }
  }

  /** An eviction that hits the key means that 31 others, and the newcomer, came after it. */
  lemma EvictionNeedsThirtyTwo(ops: seq<Op>, m: Table, i: nat, n: nat, key: Key, g: Table)
    requires i < n < |ops| && ops[i].Add? && ops[n].Add? && ops[n].key != key
    requires HeldSince(ops, m, i, n, key) && ops[n].key !in m
    requires g.Keys <= m.Keys && (forall j :: j in g ==> g[j] == m[j]) && |g| >= MAX && IsOldest(g, key)
    ensures |Others(ops, i + 1, n + 1, key)| >= MAX
  {
    var others := g.Keys - {key} + {ops[n].key};
    assert |g.Keys - {key}| >= MAX - 1;
    assert others <= Others(ops, i + 1, n + 1, key);
    SubsetCard(others, Others(ops, i + 1, n + 1, key));
  }

  lemma HeldStep(ops: seq<Op>, m: Table, after: Table, i: nat, n: nat, key: Key)
    requires i < n < |ops| && ops[i].Add? && Step(m, ops[n], after) && HeldSince(ops, m, i, n, key)
    requires ops[n].Remove? ==> ops[n].key != key
    requires Timed(ops[n]) ==> 0 < ops[n].now - ops[i].now
    requires Sweeps(ops[n], m) ==> ops[n].now - ops[i].now <= TTL
    requires |Others(ops, i + 1, n + 1, key)| < MAX
    ensures HeldSince(ops, after, i, n + 1, key)
  {
    if ops[n].Add? && ops[n].key !in m && |Gc(m, ops[n].now)| >= MAX && IsOldest(Gc(m, ops[n].now), key) {
      EvictionNeedsThirtyTwo(ops, m, i, n, key, Gc(m, ops[n].now));
    }
    KeyStays(m, ops[n], after, key);
    forall j | j in after && j != key && after[j].lastSeen >= ops[i].now ensures j in Others(ops, i + 1, n + 1, key) {
      EntryAfter(m, ops[n], after, j);
    }
  }

  /** A fresh key that is neither removed nor the one evicted is still there, stamped no earlier. */
  lemma KeyStays(m: Table, op: Op, after: Table, key: Key)
    requires Step(m, op, after) && key in m
    requires op.Remove? ==> op.key != key
    requires Sweeps(op, m) ==> op.now - m[key].lastSeen <= TTL
    requires op.Add? && op.key !in m && |Gc(m, op.now)| >= MAX ==> !IsOldest(Gc(m, op.now), key)
    ensures key in after
  {
  }

  lemma FewerOthers(ops: seq<Op>, from: nat, n: nat, key: Key)
    requires from < n <= |ops|
    ensures Others(ops, from, n - 1, key) <= Others(ops, from, n, key)
    ensures |Others(ops, from, n - 1, key)| <= |Others(ops, from, n, key)|
  {
    SubsetCard(Others(ops, from, n - 1, key), Others(ops, from, n, key));
  }

  lemma CallAfter(ops: seq<Op>, tables: seq<Table>, i: nat, n: nat, key: Key)
    requires i + 1 < n <= |ops| && |tables| == |ops| + 1 && ops[i].Add?
    requires Unswept(ops, tables, i, n, key) && ClockAdvances(ops)
    ensures Unswept(ops, tables, i, n - 1, key)
    ensures ops[n - 1].Remove? ==> ops[n - 1].key != key
    ensures Timed(ops[n - 1]) ==> 0 < ops[n - 1].now - ops[i].now
    ensures Sweeps(ops[n - 1], tables[n - 1]) ==> ops[n - 1].now - ops[i].now <= TTL
  {
  }

  /** Until it is removed, swept after its time to live, or followed by 32 distinct others, a key is kept. */
  lemma {:induction false} RetainedUntilSwept(ops: seq<Op>, tables: seq<Table>, i: nat, n: nat, key: Key)
    requires IsRun(ops, tables) && ClockAdvances(ops) && i < n <= |ops|
    requires ops[i].Add? && ops[i].key == key && Unswept(ops, tables, i, n, key)
    requires |Others(ops, i + 1, n, key)| < 32
    ensures HeldSince(ops, tables[n], i, n, key)
  {
    hide HeldSince, Step, Unswept, ClockAdvances, Others, IsRun, Sweeps;
    RunStep(ops, tables, n - 1);
    if n == i + 1 {
      HeldAtFirst(ops, tables, i, key);
    } else {
      FewerOthers(ops, i + 1, n, key);
      CallAfter(ops, tables, i, n, key);
      RetainedUntilSwept(ops, tables, i, n - 1, key);
      HeldStep(ops, tables[n - 1], tables[n], i, n - 1, key);
    }
  }

  /**
   * In particular a key heard within its time to live, not removed since, and followed by fewer than 32
   * distinct other keys is still in the table, whatever else happened.
   */
  lemma Retained(ops: seq<Op>, tables: seq<Table>, i: nat, n: nat, key: Key)
    requires IsRun(ops, tables) && ClockAdvances(ops) && i < n <= |ops|
    requires ops[i].Add? && ops[i].key == key && Undisturbed(ops, i, n, key)
    requires |Others(ops, i + 1, n, key)| < 32
    ensures key in tables[n]
  {
    assert Unswept(ops, tables, i, n, key);
    RetainedUntilSwept(ops, tables, i, n, key);
  }

  // ---- the bound is exact ----------------------------------------------------------------------------

  /** No call between i and n removes any key, and none is made after the time to live. */
  ghost predicate Quiet(ops: seq<Op>, i: nat, n: nat)
    requires i < n <= |ops| && ops[i].Add?
  {
    forall k :: i < k < n ==> Timed(ops[k]) && ops[k].now - ops[i].now <= 600
  }

  ghost predicate NotAddedAgain(ops: seq<Op>, i: nat, n: nat, key: Key)
    requires n <= |ops|
  {
    forall k :: i < k < n && ops[k].Add? ==> ops[k].key != key
  }

  /** The latest call that added a key of Others. */
  lemma {:induction false} LatestAdd(ops: seq<Op>, from: nat, n: nat, key: Key, other: Key) returns (j: nat)
    requires from <= n <= |ops| && other in Others(ops, from, n, key)
    ensures from <= j < n && ops[j].Add? && ops[j].key == other != key && NotAddedAgain(ops, j, n, other)
  {
    KeyIsNoOther(ops, from, n, key);
    if ops[n - 1].Add? && ops[n - 1].key == other {
      j := n - 1;
    } else {
      j := LatestAdd(ops, from, n - 1, key, other);
    }
  }

  lemma {:induction false} LaterOthers(ops: seq<Op>, from: nat, later: nat, n: nat, key: Key, other: Key)
    requires from <= later <= n <= |ops|
    requires forall k :: later <= k < n && ops[k].Add? ==> ops[k].key != key && ops[k].key != other
    ensures Others(ops, later, n, other) <= Others(ops, from, n, key) - {other}
  {
    if later < n {
      LaterOthers(ops, from, later, n - 1, key, other);
    }
  }

  /** With at most 32 others after the key, every one of them is in the table. */
  lemma OtherIsHeld(ops: seq<Op>, tables: seq<Table>, i: nat, n: nat, key: Key, other: Key)
    requires IsRun(ops, tables) && ClockAdvances(ops) && i < n <= |ops| && ops[i].Add? && ops[i].key == key
    requires Quiet(ops, i, n) && NotAddedAgain(ops, i, n, key)
    requires other in Others(ops, i + 1, n, key) && |Others(ops, i + 1, n, key)| <= MAX
    ensures other in tables[n]
  {
    var j := LatestAdd(ops, i + 1, n, key, other);
    LaterOthers(ops, i + 1, j + 1, n, key, other);
    SubsetCard(Others(ops, j + 1, n, other), Others(ops, i + 1, n, key) - {other});
    assert ops[i].now < ops[j].now;
    assert Undisturbed(ops, j, n, other);
    Retained(ops, tables, j, n, other);
  }

  lemma ExactlyFull(ops: seq<Op>, tables: seq<Table>, i: nat, n: nat, key: Key)
    requires IsRun(ops, tables) && ClockAdvances(ops) && i < n <= |ops| && ops[i].Add? && ops[i].key == key
    requires Quiet(ops, i, n) && NotAddedAgain(ops, i, n, key) && |Others(ops, i + 1, n, key)| == MAX
    ensures key !in tables[n]
  {
    hide Others, Step, ClockAdvances, Quiet, NotAddedAgain;
    var others := Others(ops, i + 1, n, key);
    forall other | other in others ensures other in tables[n] {
      OtherIsHeld(ops, tables, i, n, key, other);
    }
    KeyIsNoOther(ops, i + 1, n, key);
    NeverMoreThanMax(ops, tables, n);
    OverFull(tables[n], others, key);
  }

  lemma OverFull(m: Table, others: set<Key>, key: Key)
    requires others <= m.Keys && |others| == MAX && key !in others && |m| <= MAX
    ensures key !in m
  {
    if key in m {
      SubsetCard(others + {key}, m.Keys);
    }
  }

  lemma {:induction false} KeyIsNoOther(ops: seq<Op>, from: nat, n: nat, key: Key)
    requires from <= n <= |ops|
    ensures key !in Others(ops, from, n, key)
  {
    if from < n {
      KeyIsNoOther(ops, from, n - 1, key);
    }
  }

  /** Thirty-two others in a row push the key out, and nothing but a new attempt brings it back. */
  lemma {:induction false} PushedOut(ops: seq<Op>, tables: seq<Table>, i: nat, n: nat, key: Key)
    requires IsRun(ops, tables) && ClockAdvances(ops) && i < n <= |ops| && ops[i].Add? && ops[i].key == key
    requires Quiet(ops, i, n) && NotAddedAgain(ops, i, n, key) && |Others(ops, i + 1, n, key)| >= MAX
    ensures key !in tables[n]
  {
    hide Others, Step;
    NoOthersYet(ops, i + 1, key);
    assert n > i + 1;
    OneMoreOther(ops, i + 1, n, key);
    if |Others(ops, i + 1, n - 1, key)| >= MAX {
      PushedOut(ops, tables, i, n - 1, key);
      StaysOut(tables[n - 1], ops[n - 1], tables[n], key);
    } else {
      ExactlyFull(ops, tables, i, n, key);
    }
  }

  lemma NoOthersYet(ops: seq<Op>, from: nat, key: Key)
    requires from <= |ops|
    ensures Others(ops, from, from, key) == {}
  {
  }

  lemma OneMoreOther(ops: seq<Op>, from: nat, n: nat, key: Key)
    requires from < n <= |ops|
    ensures |Others(ops, from, n, key)| <= |Others(ops, from, n - 1, key)| + 1
  {
    var before, op := Others(ops, from, n - 1, key), ops[n - 1];
    var more := if op.Add? && op.key != key then {op.key} else {};
    assert Others(ops, from, n, key) == before + more;
    assert |more| <= 1;
  }

  lemma StaysOut(m: Table, op: Op, after: Table, key: Key)
    requires Step(m, op, after) && key !in m && (op.Add? ==> op.key != key)
    ensures key !in after
  {
    if key in after {
      EntryAfter(m, op, after, key);
    }
  }

  /**
   * So, within the time to live and without removals, a key that has gone quiet is still listed exactly
   * while fewer than 32 distinct other keys have come after it.
   */
  lemma PresentIffFewerThanMaxOthers(ops: seq<Op>, tables: seq<Table>, i: nat, n: nat, key: Key)
    requires IsRun(ops, tables) && ClockAdvances(ops) && i < n <= |ops| && ops[i].Add? && ops[i].key == key
    requires Quiet(ops, i, n) && NotAddedAgain(ops, i, n, key)
    ensures key in tables[n] <==> |Others(ops, i + 1, n, key)| < 32
  {
    if |Others(ops, i + 1, n, key)| < MAX {
      assert Undisturbed(ops, i, n, key);
      Retained(ops, tables, i, n, key);
    } else {
      PushedOut(ops, tables, i, n, key);
    }
  }

  // ---- what an entry tells -----------------------------------------------------------------------------

  lemma EntryIs(m: Table, op: Op, after: Table, j: Key)
    requires Step(m, op, after) && j in after
    ensures if op.Add? && op.key == j
      then after[j] == Agent(if j in m && op.name == "" then m[j].name else op.name, op.addr,
                             if j in m then m[j].firstSeen else op.now, op.now)
      else j in m && after[j] == m[j]
  {
  }

  ghost predicate AddOf(op: Op, key: Key) {
    op.Add? && op.key == key
  }

  /** The entry of a key that came in with call `first` and was last heard at call `last`. */
  ghost predicate Tells(e: Agent, ops: seq<Op>, first: nat, last: nat, n: nat, key: Key)
    requires n <= |ops|
  {
    && first <= last < n && AddOf(ops[first], key) && AddOf(ops[last], key)
    && (forall k :: last < k < n ==> !AddOf(ops[k], key))
    && e.firstSeen == ops[first].now && e.lastSeen == ops[last].now && e.addr == ops[last].addr
    && (e.name == "" ==> forall k :: first <= k < n && AddOf(ops[k], key) ==> ops[k].name == "")
    && (e.name != "" ==> exists k :: first <= k < n && AddOf(ops[k], key) && ops[k].name == e.name &&
                           forall j :: k < j < n && AddOf(ops[j], key) ==> ops[j].name == "")
  }

  /**
   * An entry dates from the announcement of its key, without a break since, and shows the time and the address
   * of the latest attempt and the latest name that was not empty.
   */
  lemma {:induction false} EntryTells(ops: seq<Op>, tables: seq<Table>, n: nat, key: Key) returns (first: nat, last: nat)
    requires IsRun(ops, tables) && n <= |ops| && key in tables[n]
    ensures Tells(tables[n][key], ops, first, last, n, key)
    ensures key !in tables[first] && forall k :: first < k <= n ==> key in tables[k]
  {
    hide Step;
    assert tables[0] == map[];
    RunStep(ops, tables, n - 1);
    var m, op := tables[n - 1], ops[n - 1];
    EntryIs(m, op, tables[n], key);
    if key in m {
      first, last := EntryTells(ops, tables, n - 1, key);
      TellsOn(m[key], tables[n][key], ops, first, last, n, key);
      last := if AddOf(op, key) then n - 1 else last;
    } else {
      first, last := n - 1, n - 1;
    }
  }

  lemma TellsOn(e: Agent, after: Agent, ops: seq<Op>, first: nat, last: nat, n: nat, key: Key)
    requires 0 < n <= |ops| && Tells(e, ops, first, last, n - 1, key)
    requires var op := ops[n - 1];
      after == if AddOf(op, key) then Agent(if op.name == "" then e.name else op.name, op.addr, e.firstSeen, op.now) else e
    ensures Tells(after, ops, first, if AddOf(ops[n - 1], key) then n - 1 else last, n, key)
  {
    var op := ops[n - 1];
    if e.name != "" {
      var k :| first <= k < n - 1 && AddOf(ops[k], key) && ops[k].name == e.name &&
        forall j :: k < j < n - 1 && AddOf(ops[j], key) ==> ops[j].name == "";
      if AddOf(op, key) && op.name != "" {
        assert ops[n - 1].name == after.name;
      } else {
        assert forall j :: k < j < n && AddOf(ops[j], key) ==> ops[j].name == "";
      }
    }
  }

  // ---- coming back -----------------------------------------------------------------------------------

  /** Call k sweeps the table after the time to live of the attempt made at i. */
  predicate SweptAt(ops: seq<Op>, tables: seq<Table>, i: nat, k: nat)
    requires i < k < |ops| && |tables| == |ops| + 1 && ops[i].Add?
  {
    Sweeps(ops[k], tables[k]) && ops[k].now - ops[i].now > 600
  }

  /** Without another attempt, the key's entry keeps the stamp of the last one. */
  lemma {:induction false} StampStays(ops: seq<Op>, tables: seq<Table>, i: nat, n: nat, key: Key)
    requires IsRun(ops, tables) && i < n <= |ops| && ops[i].Add? && ops[i].key == key
    requires NotAddedAgain(ops, i, n, key) && key in tables[n]
    ensures tables[n][key].lastSeen == ops[i].now
  {
    EntryAfter(tables[n - 1], ops[n - 1], tables[n], key);
    if i + 1 < n {
      StampStays(ops, tables, i, n - 1, key);
    }
  }

  lemma SweepDropsStale(m: Table, op: Op, after: Table, key: Key)
    requires Step(m, op, after) && Sweeps(op, m) && (op.Add? ==> op.key != key)
    requires key in m ==> op.now - m[key].lastSeen > TTL
    ensures key !in after
  {
    if op.Add? {
      var room :| MakesRoom(Gc(m, op.now), room) && after == room[op.key := Agent(op.name, op.addr, op.now, op.now)];
      assert key !in room;
    }
  }

  /** Once out, the key stays out until its next attempt. */
  lemma {:induction false} OutUntilAdded(ops: seq<Op>, tables: seq<Table>, i: nat, k: nat, n: nat, key: Key)
    requires IsRun(ops, tables) && i < k <= n <= |ops| && NotAddedAgain(ops, i, n, key) && key !in tables[k]
    ensures key !in tables[n]
  {
    if k < n {
      OutUntilAdded(ops, tables, i, k, n - 1, key);
      StaysOut(tables[n - 1], ops[n - 1], tables[n], key);
    }
  }

  lemma SweptIsOut(ops: seq<Op>, tables: seq<Table>, i: nat, k: nat, n: nat, key: Key)
    requires IsRun(ops, tables) && i < k < n <= |ops| && ops[i].Add? && ops[i].key == key
    requires NotAddedAgain(ops, i, n, key) && SweptAt(ops, tables, i, k)
    ensures key !in tables[n]
  {
    if key in tables[k] {
      StampStays(ops, tables, i, k, key);
    }
    RunStep(ops, tables, k);
    SweepDropsStale(tables[k], ops[k], tables[k + 1], key);
    OutUntilAdded(ops, tables, i, k + 1, n, key);
  }

  /**
   * An existing entry is refreshed before stale ones are dropped, so a key that comes back is announced as
   * new exactly if, after its time to live had run out, a listing or the arrival of an unknown key swept the
   * table: for its last attempt at i and the next at n, not removed and followed by fewer than 32 others.
   */
  lemma StaleKeyIsAnnouncedIff(ops: seq<Op>, tables: seq<Table>, i: nat, n: nat, key: Key)
    requires IsRun(ops, tables) && ClockAdvances(ops) && i < n < |ops|
    requires ops[i].Add? && ops[i].key == key && ops[n].Add? && ops[n].key == key && NotAddedAgain(ops, i, n, key)
    requires forall k :: i < k < n && ops[k].Remove? ==> ops[k].key != key
    requires |Others(ops, i + 1, n, key)| < 32
    ensures AddStep(tables[n], key, ops[n].name, ops[n].addr, ops[n].now, tables[n + 1], true)
      <==> exists k :: i < k < n && SweptAt(ops, tables, i, k)
  {
    hide HeldSince, Others, SweptAt;
    RunStep(ops, tables, n);
    if k :| i < k < n && SweptAt(ops, tables, i, k) {
      SweptIsOut(ops, tables, i, k, n, key);
    } else {
      NeverSwept(ops, tables, i, n, key);
      RetainedUntilSwept(ops, tables, i, n, key);
      HeldIsPresent(ops, tables[n], i, n, key);
    }
  }

  lemma NeverSwept(ops: seq<Op>, tables: seq<Table>, i: nat, n: nat, key: Key)
    requires i < n <= |ops| && ops[i].Add? && |tables| == |ops| + 1
    requires forall k :: i < k < n && ops[k].Remove? ==> ops[k].key != key
    requires forall k :: i < k < n ==> !SweptAt(ops, tables, i, k)
    ensures Unswept(ops, tables, i, n, key)
  {
    forall k | i < k < n ensures Sweeps(ops[k], tables[k]) ==> ops[k].now - ops[i].now <= TTL {
      assert !SweptAt(ops, tables, i, k);
    }
  }

  lemma HeldIsPresent(ops: seq<Op>, m: Table, i: nat, n: nat, key: Key)
    requires i < n <= |ops| && ops[i].Add? && HeldSince(ops, m, i, n, key)
    ensures key in m
  {
  }

  /** An agent silent for longer than its time to live does come back unannounced. */
  lemma SilentReturn(key: Key, gap: int) returns (ops: seq<Op>, tables: seq<Table>)
    requires gap > 600
    ensures IsRun(ops, tables) && ClockAdvances(ops)
    ensures ops == [Add(key, "a", "b", 0), Add(key, "a", "b", gap)] && key in tables[1]
    ensures AddStep(tables[1], key, "a", "b", gap, tables[2], false)
  {
    var first, last: Table := map[key := Agent("a", "b", 0, 0)], map[key := Agent("a", "b", 0, gap)];
    var none: Table := map[];
    ops, tables := [Add(key, "a", "b", 0), Add(key, "a", "b", gap)], [none, first, last];
    assert Gc(none, 0) == none;
    assert MakesRoom(none, none);
    assert Step(none, ops[0], first);
    assert last == first[key := Refreshed(first[key], "a", "b", gap)];
    assert Step(first, ops[1], last);
  }
}
