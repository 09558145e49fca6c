/** Capacity and eviction: when a full job table can refuse a submission, what the capacity
    report says, and what a slot does not bound (backend/app/sandbox_broker.py). */
module BrokerCapacity {
  import opened Contracts
  import opened BrokerModel
  import opened BrokerProofs
  import opened BrokerSafety
  import opened Sets
  import opened Wrappers

  // ----- The eviction order -----

  lemma {:induction false} LexTotal(a: string, b: string)
    ensures LexLe(a, b) || LexLe(b, a)
    ensures LexLe(a, b) && LexLe(b, a) ==> a == b
    decreases |a|
  {
    if a != [] && b != [] {
      LexTotal(a[1..], b[1..]);
      assert a == [a[0]] + a[1..] && b == [b[0]] + b[1..];
    }
  }

  lemma {:induction false} LexTransitive(a: string, b: string, c: string)
    requires LexLe(a, b) && LexLe(b, c)
    ensures LexLe(a, c)
    decreases |a|
  {
    if a != [] && a[0] == b[0] == c[0] {
      LexTransitive(a[1..], b[1..], c[1..]);
    }
  }

  /** At most one identifier is the oldest, so the choice made when evicting is forced. */
  lemma OldestIsUnique(b: Broker, id: string, o: string)
    requires InRange(b) && IsOldest(b, id) && IsOldest(b, o)
    ensures id == o
  {
    LexTotal(id, o);
  }

  lemma {:induction false} OldestAmong(b: Broker, ids: set<string>) returns (id: string)
    requires InRange(b) && ids != {} && forall i <- ids :: TerminalId(b, i)
    ensures id in ids && TerminalId(b, id)
    ensures forall o <- ids :: TerminalId(b, o) && OlderOrEqual(b.jobs[b.table[id]].updatedAt, id, b.jobs[b.table[o]].updatedAt, o)
  {
    id :| id in ids;
    LexTotal(id, id);
    if ids != {id} {
      var o := OldestAmong(b, ids - {id});
      LexTotal(id, o);
      var t, t' := b.jobs[b.table[id]].updatedAt, b.jobs[b.table[o]].updatedAt;
      var first := id;
      if OlderOrEqual(t, id, t', o) {
        forall p | p in ids ensures OlderOrEqual(t, id, b.jobs[b.table[p]].updatedAt, p) {
          if p != id && LexLe(id, o) && LexLe(o, p) {
            LexTransitive(id, o, p);
          }
        }
      } else {
        id := o;
      }
    }
  }

  /** Room is missing only when the table is full of live jobs. */
  lemma NoRoomMeansAllLive(b: Broker)
    requires InRange(b)
    ensures !MakeRoom(b).1 <==> |b.table| >= b.maxTracked && forall id <- b.table :: !TerminalId(b, id)
  {
    var terminal := set id | id in b.table && TerminalId(b, id);
    if terminal == {} {
      forall id | id in b.table ensures !TerminalId(b, id) {
        assert id !in terminal;
      }
    } else {
      var id := OldestAmong(b, terminal);
      assert IsOldest(b, id);
    }
  }

  /** Popping the first entry of the sorted list of terminal jobs is what making room means. */
  lemma EvictionMakesRoom(b: Broker, evicted: bool, c: Broker)
    requires InRange(b) && |b.table| >= b.maxTracked
    requires evicted <==> exists id :: IsOldest(b, id)
    requires evicted ==> forall id | IsOldest(b, id) :: c == Forget(b, id)
    requires !evicted ==> c == b
    ensures (c, evicted) == MakeRoom(b)
  {
  }

  // ----- Live jobs against slots -----

  lemma {:induction false} ImageSize(ids: set<string>, table: map<string, nat>, back: map<nat, string>)
    requires ids <= table.Keys && forall id <- ids :: table[id] in back && back[table[id]] == id
    ensures |set id | id in ids :: table[id]| == |ids|
  {
    if ids != {} {
      var id :| id in ids;
      ImageSize(ids - {id}, table, back);
      assert (set i | i in ids :: table[i]) == (set i | i in ids - {id} :: table[i]) + {table[id]};
    }
  }

  lemma ActiveJobsHoldSlots(b: Broker)
    requires Inv(b)
    ensures |ActiveIds(b)| <= Unreleased(b.jobs) <= b.maxConcurrent
  {
    var ids := ActiveIds(b);
    var back := map h: nat | h < |b.jobs| :: b.jobs[h].id;
    ImageSize(ids, b.table, back);
    var held := set h: nat | h < |b.jobs| && !b.jobs[h].released;
    UnreleasedCounts(b.jobs);
    forall id | id in ids ensures b.table[id] in held {
      assert JobInv(b.jobs[b.table[id]]);
    }
    SubsetSize(set id | id in ids :: b.table[id], held);
  }

  /** The capacity report: what is not available is held by execute calls and unreleased jobs, the active
      jobs are among those, and the clamps at zero never apply. */
  lemma CapacityReportIsHonest(b: Broker)
    requires Reachable(b)
    ensures InRange(b)
    ensures var r := CapacityReport(b);
      && r.available + r.inUse == b.maxConcurrent
      && r.inUse == b.slots.Held() + Unreleased(b.jobs)
      && r.activeJobs <= r.inUse
      && r.activeJobs <= r.trackedJobs <= b.maxTracked
  {
    ReachableInv(b);
    ActiveJobsHoldSlots(b);
    SubsetSize(ActiveIds(b), b.table.Keys);
  }

  // ----- Reaching a state step by step -----

  ghost predicate Step(b: Broker, a: Action, c: Broker) {
    Enabled(b, a) && Apply(b, a) == c
  }

  lemma {:induction false} RunAppend(b: Broker, actions: seq<Action>, a: Action)
    requires Legal(b, actions) && Enabled(Run(b, actions), a)
    ensures Legal(b, actions + [a]) && Run(b, actions + [a]) == Apply(Run(b, actions), a)
    decreases |actions|
  {
    var all := actions + [a];
    if actions == [] {
      assert all == [a] && all[1..] == [];
    } else {
      assert all[1..] == actions[1..] + [a];
      RunAppend(Apply(b, actions[0]), actions[1..], a);
    }
  }

  lemma ReachableStep(b: Broker, a: Action, c: Broker)
    requires Reachable(b) && Step(b, a, c)
    requires c.maxConcurrent == b.maxConcurrent && c.maxTracked == b.maxTracked && c.retention == b.retention
    ensures Reachable(c)
  {
    var actions :| ReachedBy(b, actions);
    RunAppend(Init(b.maxConcurrent, b.maxTracked, b.retention), actions, a);
    assert ReachedBy(c, actions + [a]);
  }

  lemma InitReachable(maxConcurrent: nat, maxTracked: nat, retention: int)
    ensures Reachable(Init(maxConcurrent, maxTracked, retention))
  {
    assert ReachedBy(Init(maxConcurrent, maxTracked, retention), []);
  }

  // ----- When is "Too many tracked jobs" reachable? -----

  lemma RefusalNeedsManySlots(b: Broker, id: string, now: int)
    requires Reachable(b) && InRange(b) && Submit(b, id, now).1 == TooManyTracked
    ensures b.maxTracked <= b.maxConcurrent
  {
    var c := Reap(b, now);
    assert Inv(c) by {
      ReachableInv(b);
      ReapInv(b, now);
    }
    assert !MakeRoom(c).1;
    NoRoomMeansAllLive(c);
    assert ActiveIds(c) == c.table.Keys;
    ActiveJobsHoldSlots(c);
  }

  function Name(n: nat): (s: string)
    ensures |s| == n
  {
    if n == 0 then "" else Name(n - 1) + "x"
  }

  function FilledJobs(n: nat): (jobs: seq<Job>)
    ensures |jobs| == n && forall h | 0 <= h < n :: jobs[h].state == Pending
  {
    if n == 0 then [] else FilledJobs(n - 1) + [NewJob(Name(n - 1), 0)]
  }

  function FilledTable(n: nat): (table: map<string, nat>)
    ensures |table| == n && forall id <- table :: table[id] == |id| < n
  {
    if n == 0 then map[] else FilledTable(n - 1)[Name(n - 1) := n - 1]
  }

  /** `n` jobs were submitted and none has run yet. */
  function Filled(maxConcurrent: nat, maxTracked: nat, retention: int, n: nat): Broker
    requires n <= maxConcurrent
  {
    Broker(maxConcurrent, maxTracked, retention, Slots(maxConcurrent - n, 0, 0, 0),
           FilledJobs(n), FilledTable(n), multiset{}, None)
  }

  lemma FilledReapsNothing(b: Broker, n: nat)
    requires b.jobs == FilledJobs(n) && b.table == FilledTable(n) && b.cancels == multiset{} && b.sweep == None
    ensures InRange(b) && Reap(b, 0) == b && Name(n) !in b.table && forall id <- b.table :: !TerminalId(b, id)
  {
    assert Reap(b, 0).table == b.table;
  }

  lemma FilledGrows(maxConcurrent: nat, maxTracked: nat, retention: int, n: nat)
    requires n < maxConcurrent && n < maxTracked
    ensures Step(Filled(maxConcurrent, maxTracked, retention, n), DoSubmit(Name(n), 0),
                 Filled(maxConcurrent, maxTracked, retention, n + 1))
  {
    var b := Filled(maxConcurrent, maxTracked, retention, n);
    FilledReapsNothing(b, n);
    assert MakeRoom(b) == (b, true);
    assert Submit(b, Name(n), 0).0 == Admit(b, Name(n), 0);
  }

  /** Submissions with fresh identifiers fill the table while slots last. */
  lemma {:induction false} FilledReachable(maxConcurrent: nat, maxTracked: nat, retention: int, n: nat)
    requires n <= maxConcurrent && n <= maxTracked
    ensures Reachable(Filled(maxConcurrent, maxTracked, retention, n))
  {
    hide Reachable, Enabled, Apply;
    if n == 0 {
      InitReachable(maxConcurrent, maxTracked, retention);
    } else {
      FilledReachable(maxConcurrent, maxTracked, retention, n - 1);
      FilledGrows(maxConcurrent, maxTracked, retention, n - 1);
      ReachableStep(Filled(maxConcurrent, maxTracked, retention, n - 1), DoSubmit(Name(n - 1), 0),
                    Filled(maxConcurrent, maxTracked, retention, n));
    }
  }

  ghost predicate TableCanRefuse(maxConcurrent: nat, maxTracked: nat, retention: int) {
    exists b, id, now :: RefusedAt(b, id, now, maxConcurrent, maxTracked, retention)
  }

  ghost predicate RefusedAt(b: Broker, id: string, now: int, maxConcurrent: nat, maxTracked: nat, retention: int) {
    && Reachable(b) && InRange(b)
    && b.maxConcurrent == maxConcurrent && b.maxTracked == maxTracked && b.retention == retention
    && Submit(b, id, now).1 == TooManyTracked
  }

  /** The refusal for too many tracked jobs can happen exactly when the table is not larger than the
      number of slots. */
  lemma TableRefusesIffNotLargerThanSlots(maxConcurrent: nat, maxTracked: nat, retention: int)
    ensures TableCanRefuse(maxConcurrent, maxTracked, retention) <==> maxTracked <= maxConcurrent
  {
    if TableCanRefuse(maxConcurrent, maxTracked, retention) {
      var b, id, now :| RefusedAt(b, id, now, maxConcurrent, maxTracked, retention);
      RefusalNeedsManySlots(b, id, now);
    }
    if maxTracked <= maxConcurrent {
      FilledReachable(maxConcurrent, maxTracked, retention, maxTracked);
      var b := Filled(maxConcurrent, maxTracked, retention, maxTracked);
      FilledReapsNothing(b, maxTracked);
      NoRoomMeansAllLive(b);
      assert RefusedAt(b, Name(maxTracked), 0, maxConcurrent, maxTracked, retention);
    }
  }

  // ----- Slots are not containers -----

  predicate HasContainer(j: Job) {
    j.phase.TerminatingLate? || j.phase.Exchanging? || j.phase.Cleaning?
  }

  /** The jobs that have a container nobody asked to stop. */
  ghost function WantedContainers(b: Broker): set<nat> {
    set h: nat | h < |b.jobs| && HasContainer(b.jobs[h]) && !b.jobs[h].cancelRequested
  }

  ghost function Containers(b: Broker): set<nat> {
    set h: nat | h < |b.jobs| && HasContainer(b.jobs[h])
  }

  lemma WantedContainersAreBounded(b: Broker)
    requires Reachable(b)
    ensures |WantedContainers(b)| + b.slots.Held() <= b.maxConcurrent
  {
    ReachableInv(b);
    UnreleasedCounts(b.jobs);
    var held := set h: nat | h < |b.jobs| && !b.jobs[h].released;
    forall h | h in WantedContainers(b) ensures h in held {
      assert JobInv(b.jobs[h]);
    }
    SubsetSize(WantedContainers(b), held);
  }

  /** Submit, start, delete before the process exists, submit another, start it, and both processes appear. */
  function StoryAction(k: nat): Action {
    match k
    case 0 => DoSubmit("a", 0)
    case 1 => TaskStarts(0)
    case 2 => DoDelete("a", 0)
    case 3 => DoSubmit("b", 0)
    case 4 => TaskStarts(1)
    case 5 => ProcessCreated(0, 0)
    case _ => ProcessCreated(1, 0)
  }

  function StoryJobs(k: nat): seq<Job> {
    var a, b := NewJob("a", 0), NewJob("b", 0);
    var cancelled := CancelJob(a.(phase := Starting), 0);
    match k
    case 0 => []
    case 1 => [a]
    case 2 => [a.(phase := Starting)]
    case 3 => [cancelled]
    case 4 => [cancelled, b]
    case 5 => [cancelled, b.(phase := Starting)]
    case 6 => [AttachTask(cancelled, 0), b.(phase := Starting)]
    case _ => [AttachTask(cancelled, 0), AttachTask(b.(phase := Starting), 0)]
  }

  /** One slot, and the state after the first `k` actions. */
  function StoryState(k: nat): Broker {
    Broker(1, 2, 0, Slots(if k == 0 || k == 3 then 1 else 0, 0, 0, 0), StoryJobs(k),
           if k == 0 then map[] else if k < 4 then map["a" := 0] else map["a" := 0, "b" := 1], multiset{}, None)
  }

  lemma StorySubmits(k: nat)
    requires k == 0 || k == 3
    ensures Step(StoryState(k), StoryAction(k), StoryState(k + 1))
  {
    var b, id := StoryState(k), StoryAction(k).id;
    assert Reap(b, 0).table == b.table;
    assert |b.table| < 2;
    assert MakeRoom(b) == (b, true);
    assert Submit(b, id, 0).0 == Admit(b, id, 0);
    assert Admit(b, id, 0).jobs == StoryJobs(k + 1);
    assert Admit(b, id, 0).table == StoryState(k + 1).table;
  }

  lemma StoryDeletes()
    ensures Step(StoryState(2), StoryAction(2), StoryState(3))
  {
    assert Apply(StoryState(2), StoryAction(2)).jobs == StoryJobs(3);
  }

  lemma StoryTasks(k: nat)
    requires k == 1 || 4 <= k < 7
    ensures Step(StoryState(k), StoryAction(k), StoryState(k + 1))
  {
    assert Apply(StoryState(k), StoryAction(k)).jobs == StoryJobs(k + 1);
  }

  lemma StoryStep(k: nat)
    requires k < 7
    ensures Step(StoryState(k), StoryAction(k), StoryState(k + 1))
  {
    if k == 2 {
      StoryDeletes();
    } else if k == 0 || k == 3 {
      StorySubmits(k);
    } else {
      StoryTasks(k);
    }
  }

  lemma {:induction false} StoryReachable(n: nat)
    requires n <= 7
    ensures Reachable(StoryState(n))
  {
    if n == 0 {
      InitReachable(1, 2, 0);
    } else {
      StoryReachable(n - 1);
      StoryStep(n - 1);
      ReachableStep(StoryState(n - 1), StoryAction(n - 1), StoryState(n));
    }
  }

  /** One slot, two containers: a DELETE that comes before the docker process exists gives the slot back
      at once, and the next job can take it while the first container is still starting. */
  lemma ContainersCanExceedSlots()
    ensures exists b :: Reachable(b) && b.maxConcurrent == 1 && |Containers(b)| == 2
  {
    var b := StoryState(7);
    assert Containers(b) == {0, 1};
    StoryReachable(7);
  }
}
