/** What every action of the broker keeps (backend/app/sandbox_broker.py). */
module BrokerProofs {
  import opened Contracts
  import opened BrokerModel
  import opened Sets
  import opened Wrappers

  // ----- What always holds of one job -----

  /** The codes and the result that go with each state. */
  ghost predicate OutcomeFits(j: Job) {
    match j.state
    case Succeeded =>
      && j.result.Some? && j.errorCode.None? && j.detail.None?
      && j.resultCode == Some(if j.result.value.exitCode == 0 then Ok else NonzeroExit)
    case Failed =>
      && j.result.None? && j.resultCode.None? && j.detail.Some?
      && j.errorCode.Some? && !j.errorCode.value.CancelledByClient? && !j.errorCode.value.ExecutionTimeout?
    case TimedOut => j.result.None? && j.resultCode.None? && j.detail.Some? && j.errorCode == Some(ExecutionTimeout)
    case Cancelled => j.result.None? && j.resultCode.None? && j.detail.None? && j.errorCode == Some(CancelledByClient)
    case _ => j.result.None? && j.resultCode.None? && j.detail.None? && j.errorCode.None?
  }

  ghost predicate JobInv(j: Job) {
    && OutcomeFits(j)
    && (j.cancelRequested ==> j.state == Cancelled)
    && (j.released ==> Terminal(j))
    && (j.phase.Ended? ==> j.released)
    && (j.phase.Scheduled? || j.phase.Starting? ==> !j.attached && (j.state == Pending || j.cancelRequested))
    && (j.phase.TerminatingLate? ==> j.attached && j.cancelRequested)
    && (j.phase.Exchanging? || j.phase.Cleaning? ==> j.attached && (j.state == Running || j.cancelRequested))
  }

  function Unreleased(jobs: seq<Job>): nat {
    if jobs == [] then 0 else
    (if jobs[0].released then 0 else 1) + Unreleased(jobs[1..])
  }

  lemma {:induction false} UnreleasedUpdate(jobs: seq<Job>, h: nat, j: Job)
    requires h < |jobs|
    ensures Unreleased(jobs[h := j]) + (if jobs[h].released then 0 else 1)
         == Unreleased(jobs) + (if j.released then 0 else 1)
  {
    if h > 0 {
      assert jobs[h := j][1..] == jobs[1..][h - 1 := j];
      UnreleasedUpdate(jobs[1..], h - 1, j);
    } else {
      assert jobs[h := j][1..] == jobs[1..];
    }
  }

  lemma {:induction false} UnreleasedAppend(jobs: seq<Job>, j: Job)
    ensures Unreleased(jobs + [j]) == Unreleased(jobs) + (if j.released then 0 else 1)
  {
    if jobs == [] {
      assert jobs + [j] == [j];
    } else {
      assert (jobs + [j])[1..] == jobs[1..] + [j];
      UnreleasedAppend(jobs[1..], j);
    }
  }

  // ----- What always holds of the broker -----

  /** Every slot is free, held by an execute call, or held by an unreleased job,
      tracked or not. */
  ghost predicate SlotsConserved(b: Broker) {
    b.slots.free + b.slots.Held() + Unreleased(b.jobs) == b.maxConcurrent
  }

  ghost predicate IsTracked(b: Broker, h: nat) {
    h < |b.jobs| && b.jobs[h].id in b.table && b.table[b.jobs[h].id] == h
  }

  ghost predicate JobsInv(jobs: seq<Job>) {
    forall h | 0 <= h < |jobs| :: JobInv(jobs[h])
  }

  ghost predicate TableInv(b: Broker)
    requires InRange(b)
  {
    && (forall h: nat | h < |b.jobs| && !Terminal(b.jobs[h]) :: IsTracked(b, h))
    && (forall id <- b.table :: b.jobs[b.table[id]].id == id)
  }

  ghost predicate HandlersInv(b: Broker)
    requires InRange(b)
  {
    && (forall h <- b.cancels :: b.jobs[h].cancelRequested)
    && (b.sweep.Some? ==> b.jobs[b.sweep.value.current].cancelRequested)
  }

  ghost predicate Inv(b: Broker) {
    && InRange(b)
    && SlotsConserved(b)
    && |b.table| <= b.maxTracked
    && JobsInv(b.jobs)
    && TableInv(b)
    && HandlersInv(b)
  }

  lemma InvInit(maxConcurrent: nat, maxTracked: nat, retention: int)
    ensures Inv(Init(maxConcurrent, maxTracked, retention))
  {
  }

  // ----- How one action may change one job -----

  /** The part of a job a client can observe once it is settled. */
  ghost predicate SameOutcome(j: Job, k: Job) {
    && j.state == k.state && j.updatedAt == k.updatedAt
    && j.result == k.result && j.resultCode == k.resultCode
    && j.errorCode == k.errorCode && j.detail == k.detail
    && j.cancelRequested == k.cancelRequested
  }

  /** A legal change: along an allowed edge, never back from terminal, never a slot taken back. */
  ghost predicate Evolves(j: Job, k: Job) {
    && k.id == j.id && k.createdAt == j.createdAt
    && (k.state == j.state || CanTransition(j.state, k.state))
    && (Terminal(j) ==> SameOutcome(j, k))
    && (j.released ==> k.released)
    && (j.cancelRequested ==> k.cancelRequested)
  }

  lemma StartTaskEvolves(j: Job)
    requires JobInv(j) && j.phase == Scheduled
    ensures JobInv(StartTask(j)) && Evolves(j, StartTask(j))
  {
  }

  lemma AttachTaskEvolves(j: Job, now: int)
    requires JobInv(j) && j.phase == Starting
    ensures JobInv(AttachTask(j, now)) && Evolves(j, AttachTask(j, now))
  {
  }

  lemma FinishTaskEvolves(j: Job, outcome: Outcome, now: int)
    requires JobInv(j)
    requires j.phase.Exchanging? || (outcome.Left? && !j.phase.Scheduled?)
    requires outcome.Left? && outcome.exit.Http? && outcome.exit.status == 504 ==> !j.phase.Starting?
    ensures JobInv(FinishTask(j, outcome, now)) && Evolves(j, FinishTask(j, outcome, now))
    ensures Terminal(FinishTask(j, outcome, now))
  {
  }

  lemma CancelJobEvolves(j: Job, now: int)
    requires JobInv(j) && !Terminal(j)
    ensures JobInv(CancelJob(j, now)) && Evolves(j, CancelJob(j, now))
    ensures CancelJob(j, now).state == Cancelled && CancelJob(j, now).cancelRequested
  {
  }

  // ----- How one action may change the broker -----

  /** `c` has every job of `b`, each legally changed, and perhaps more. */
  ghost predicate Advances(b: Broker, c: Broker) {
    && |b.jobs| <= |c.jobs|
    && c.maxConcurrent == b.maxConcurrent && c.maxTracked == b.maxTracked && c.retention == b.retention
    && forall h | 0 <= h < |b.jobs| :: Evolves(b.jobs[h], c.jobs[h])
  }

  lemma UpdateAdvances(b: Broker, h: nat, j: Job)
    requires h < |b.jobs| && Evolves(b.jobs[h], j)
    ensures Advances(b, Update(b, h, j))
  {
    var c := Update(b, h, j);
    forall i | 0 <= i < |b.jobs| ensures Evolves(b.jobs[i], c.jobs[i]) {
      if i != h {
        assert c.jobs[i] == b.jobs[i];
      }
    }
  }

  /** Updating one job keeps the jobs' own invariants and the accounting ... */
  lemma UpdateKeepsJobs(b: Broker, h: nat, j: Job)
    requires h < |b.jobs| && JobsInv(b.jobs) && SlotsConserved(b)
    requires JobInv(j) && (b.jobs[h].released ==> j.released)
    ensures JobsInv(Update(b, h, j).jobs) && SlotsConserved(Update(b, h, j))
  {
    UnreleasedUpdate(b.jobs, h, j);
  }

  /** ... and what the table and the handlers rely on. */
  lemma UpdateKeepsTable(b: Broker, h: nat, j: Job)
    requires InRange(b) && TableInv(b) && HandlersInv(b) && h < |b.jobs|
    requires j.id == b.jobs[h].id
    requires Terminal(b.jobs[h]) ==> Terminal(j)
    requires b.jobs[h].cancelRequested ==> j.cancelRequested
    ensures InRange(Update(b, h, j)) && TableInv(Update(b, h, j)) && HandlersInv(Update(b, h, j))
  {
    var c := Update(b, h, j);
    forall i: nat | i < |c.jobs| && !Terminal(c.jobs[i]) ensures IsTracked(c, i) {
      assert IsTracked(b, i);
    }
  }

  lemma UpdateInv(b: Broker, h: nat, j: Job)
    requires Inv(b) && h < |b.jobs|
    requires JobInv(j) && Evolves(b.jobs[h], j)
    ensures Inv(Update(b, h, j)) && Advances(b, Update(b, h, j))
    ensures Update(b, h, j).sweep == b.sweep && Update(b, h, j).table == b.table
  {
    UpdateKeepsJobs(b, h, j);
    UpdateKeepsTable(b, h, j);
    UpdateAdvances(b, h, j);
  }

  lemma SettledReleaseEvolves(j: Job)
    requires JobInv(j) && j.cancelRequested
    ensures JobInv(j.(released := true)) && Evolves(j, j.(released := true))
  {
  }

  lemma ForgetInv(b: Broker, table: map<string, nat>)
    requires Inv(b) && table.Keys <= b.table.Keys
    requires forall id <- table :: table[id] == b.table[id]
    requires forall id <- b.table | id !in table :: Terminal(b.jobs[b.table[id]])
    ensures Inv(b.(table := table)) && Advances(b, b.(table := table))
  {
    var c := b.(table := table);
    SubsetSize(table.Keys, b.table.Keys);
    forall h: nat | h < |c.jobs| && !Terminal(c.jobs[h]) ensures IsTracked(c, h) {
      assert IsTracked(b, h);
    }
  }

  lemma ReapInv(b: Broker, now: int)
    requires Inv(b)
    ensures Inv(Reap(b, now)) && Advances(b, Reap(b, now)) && Reap(b, now).sweep == b.sweep
  {
    ForgetInv(b, Reap(b, now).table);
  }

  lemma ForgetOneInv(b: Broker, id: string)
    requires Inv(b) && TerminalId(b, id)
    ensures Inv(Forget(b, id)) && Advances(b, Forget(b, id))
    ensures |Forget(b, id).table| == |b.table| - 1
  {
    ForgetInv(b, Forget(b, id).table);
    assert (b.table - {id}).Keys == b.table.Keys - {id};
  }

  lemma MakeRoomInv(b: Broker)
    requires Inv(b)
    ensures var (c, room) := MakeRoom(b);
      && Inv(c) && Advances(b, c)
      && c.jobs == b.jobs && c.slots == b.slots && c.sweep == b.sweep && c.cancels == b.cancels
      && (room ==> |c.table| < b.maxTracked || b.maxTracked == 0)
      && c.table.Keys <= b.table.Keys
  {
    if |b.table| >= b.maxTracked {
      if id :| IsOldest(b, id) {
        var c := MakeRoom(b).0;
        var v :| IsOldest(b, v) && c == Forget(b, v);
        ForgetOneInv(b, v);
      }
    }
  }

  lemma AdmitInv(b: Broker, id: string, now: int)
    requires Inv(b) && b.slots.free > 0 && id !in b.table && |b.table| < b.maxTracked
    ensures Inv(Admit(b, id, now)) && Advances(b, Admit(b, id, now))
  {
    AdmitKeepsJobs(b, id, now);
    AdmitKeepsTable(b, id, now);
    assert Admit(b, id, now).table.Keys == b.table.Keys + {id};
  }

  lemma AdmitKeepsJobs(b: Broker, id: string, now: int)
    requires InRange(b) && JobsInv(b.jobs) && SlotsConserved(b) && b.slots.free > 0
    ensures JobsInv(Admit(b, id, now).jobs) && SlotsConserved(Admit(b, id, now)) && Advances(b, Admit(b, id, now))
  {
    var c := Admit(b, id, now);
    UnreleasedAppend(b.jobs, NewJob(id, now));
    forall h | 0 <= h < |b.jobs| ensures Evolves(b.jobs[h], c.jobs[h]) && JobInv(c.jobs[h]) {
      assert c.jobs[h] == b.jobs[h];
    }
    assert JobInv(NewJob(id, now));
  }

  lemma AdmitKeepsTable(b: Broker, id: string, now: int)
    requires InRange(b) && TableInv(b) && HandlersInv(b) && b.slots.free > 0 && id !in b.table
    ensures TableInv(Admit(b, id, now)) && HandlersInv(Admit(b, id, now))
  {
    var c := Admit(b, id, now);
    forall h: nat | h < |c.jobs| && !Terminal(c.jobs[h]) ensures IsTracked(c, h) {
      if h < |b.jobs| {
        assert IsTracked(b, h);
      }
    }
  }

  lemma SubmitInv(b: Broker, id: string, now: int)
    requires Inv(b)
    ensures Inv(Submit(b, id, now).0) && Advances(b, Submit(b, id, now).0) && Submit(b, id, now).0.sweep == b.sweep
  {
    ReapInv(b, now);
    var b1 := Reap(b, now);
    if id !in b1.table {
      MakeRoomInv(b1);
      var (b2, room) := MakeRoom(b1);
      if room && !b2.slots.Locked() {
        AdmitInv(b2, id, now);
      }
    }
  }

  lemma AdvancesTransitive(a: Broker, b: Broker, c: Broker)
    requires Advances(a, b) && Advances(b, c)
    ensures Advances(a, c)
  {
    forall h | 0 <= h < |a.jobs| ensures Evolves(a.jobs[h], c.jobs[h]) {
      assert Evolves(a.jobs[h], b.jobs[h]) && Evolves(b.jobs[h], c.jobs[h]);
    }
  }

  lemma SetHandlersInv(b: Broker, cancels: multiset<nat>, sweep: Option<Sweep>)
    requires Inv(b)
    requires forall h <- cancels :: h < |b.jobs| && b.jobs[h].cancelRequested
    requires sweep.Some? ==> sweep.value.current < |b.jobs| && b.jobs[sweep.value.current].cancelRequested
    requires sweep.Some? ==> AllBelow(sweep.value.rest, |b.jobs|)
    ensures Inv(b.(cancels := cancels, sweep := sweep)) && Advances(b, b.(cancels := cancels, sweep := sweep))
  {
    var c := b.(cancels := cancels, sweep := sweep);
    forall h: nat | h < |c.jobs| && !Terminal(c.jobs[h]) ensures IsTracked(c, h) {
      assert IsTracked(b, h);
    }
  }

  lemma SetSlotsInv(b: Broker, slots: Slots)
    requires Inv(b) && slots.free + slots.Held() == b.slots.free + b.slots.Held()
    ensures Inv(b.(slots := slots)) && Advances(b, b.(slots := slots))
  {
    var c := b.(slots := slots);
    forall h: nat | h < |c.jobs| && !Terminal(c.jobs[h]) ensures IsTracked(c, h) {
      assert IsTracked(b, h);
    }
  }

  lemma CancelInv(b: Broker, h: nat, now: int)
    requires Inv(b) && h < |b.jobs| && !Terminal(b.jobs[h])
    ensures var c := Update(b, h, CancelJob(b.jobs[h], now));
      Inv(c) && Advances(b, c) && c.jobs[h].cancelRequested && c.sweep == b.sweep && c.cancels == b.cancels
  {
    CancelJobEvolves(b.jobs[h], now);
    UpdateInv(b, h, CancelJob(b.jobs[h], now));
  }

  lemma DeleteInv(b: Broker, id: string, now: int)
    requires Inv(b)
    ensures Inv(Delete(b, id, now)) && Advances(b, Delete(b, id, now)) && Delete(b, id, now).sweep == b.sweep
  {
    hide CancelJob, JobsInv, SlotsConserved, TableInv, CanTransition;
    if id in b.table && !Terminal(b.jobs[b.table[id]]) {
      var h := b.table[id];
      CancelInv(b, h, now);
      if b.jobs[h].attached {
        var c := Update(b, h, CancelJob(b.jobs[h], now));
        SetHandlersInv(c, c.cancels + multiset{h}, c.sweep);
        AdvancesTransitive(b, c, Delete(b, id, now));
      }
    }
  }

  /** No job takes an edge other than one to Cancelled. */
  ghost predicate OnlyCancels(b: Broker, c: Broker) {
    && |c.jobs| == |b.jobs|
    && forall h | 0 <= h < |b.jobs| :: c.jobs[h].state == b.jobs[h].state || c.jobs[h].state == Cancelled
  }

  lemma {:induction false} SweepInv(b: Broker, rest: seq<nat>, now: int)
    requires Inv(b) && AllBelow(rest, |b.jobs|)
    ensures Inv(SweepOn(b, rest, now)) && Advances(b, SweepOn(b, rest, now))
    decreases |rest|
  {
    if rest == [] {
      SetHandlersInv(b, b.cancels, None);
    } else if Terminal(b.jobs[rest[0]]) {
      SweepInv(b, rest[1..], now);
    } else {
      var h := rest[0];
      CancelInv(b, h, now);
      var c := Update(b, h, CancelJob(b.jobs[h], now));
      if b.jobs[h].attached {
        SetHandlersInv(c, c.cancels, Some(Sweep(h, rest[1..])));
      } else {
        SweepInv(c, rest[1..], now);
      }
      AdvancesTransitive(b, c, SweepOn(b, rest, now));
    }
  }

  lemma {:induction false} SweepOnlyCancels(b: Broker, rest: seq<nat>, now: int)
    requires AllBelow(rest, |b.jobs|)
    ensures OnlyCancels(b, SweepOn(b, rest, now))
    decreases |rest|
  {
    if rest != [] {
      if Terminal(b.jobs[rest[0]]) {
        SweepOnlyCancels(b, rest[1..], now);
      } else if !b.jobs[rest[0]].attached {
        SweepOnlyCancels(Update(b, rest[0], CancelJob(b.jobs[rest[0]], now)), rest[1..], now);
      }
    }
  }

  ghost predicate ShutdownStep(a: Action) {
    a.ShutdownStarts? || a.ShutdownResumes?
  }

  ghost function TaskOf(a: Action): Option<nat> {
    match a
    case TaskStarts(h) => Some(h)
    case ProcessCreated(h, _) => Some(h)
    case ProcessFailed(h, _, _) => Some(h)
    case LateKillDone(h, _) => Some(h)
    case ExchangeEnds(h, _, _) => Some(h)
    case ExchangeAborts(h, _) => Some(h)
    case CleanupEnds(h, _, _) => Some(h)
    case _ => None
  }

  /** What a stretch of its background task makes of a job. */
  ghost function TaskStep(j: Job, a: Action): Job
    requires TaskOf(a).Some?
    requires a.CleanupEnds? ==> j.phase.Cleaning?
  {
    match a
    case TaskStarts(_) => StartTask(j)
    case ProcessCreated(_, now) => AttachTask(j, now)
    case ProcessFailed(_, exit, now) => FinishTask(j, Left(exit), now)
    case LateKillDone(_, now) => FinishTask(j, Left(TaskCancelled), now)
    case ExchangeEnds(_, outcome, now) => FinishTask(j, outcome, now)
    case ExchangeAborts(_, exit) => j.(phase := Cleaning(exit))
    case CleanupEnds(_, cancelledMeanwhile, now) =>
      FinishTask(j, Left(if cancelledMeanwhile then TaskCancelled else j.phase.exit), now)
  }

  lemma TaskStepEvolves(b: Broker, a: Action)
    requires Inv(b) && Enabled(b, a) && TaskOf(a).Some?
    ensures var h := TaskOf(a).value;
      && h < |b.jobs|
      && Apply(b, a) == Update(b, h, TaskStep(b.jobs[h], a))
      && JobInv(TaskStep(b.jobs[h], a)) && Evolves(b.jobs[h], TaskStep(b.jobs[h], a))
  {
    var h := TaskOf(a).value;
    var j := b.jobs[h];
    match a
    case TaskStarts(_) => StartTaskEvolves(j);
    case ProcessCreated(_, now) => AttachTaskEvolves(j, now);
    case ProcessFailed(_, exit, now) => FinishTaskEvolves(j, Left(exit), now);
    case LateKillDone(_, now) => FinishTaskEvolves(j, Left(TaskCancelled), now);
    case ExchangeEnds(_, outcome, now) => FinishTaskEvolves(j, outcome, now);
    case ExchangeAborts(_, exit) =>
    case CleanupEnds(_, m, now) => FinishTaskEvolves(j, Left(if m then TaskCancelled else j.phase.exit), now);
  }

  /** Every action keeps the invariant and changes jobs only in legal ways. */
  lemma ApplyInv(b: Broker, a: Action)
    requires Inv(b) && Enabled(b, a)
    ensures Inv(Apply(b, a)) && Advances(b, Apply(b, a))
    ensures !ShutdownStep(a) ==> Apply(b, a).sweep == b.sweep
  {
    hide Advances, Evolves, SlotsConserved, TableInv;
    if TaskOf(a).Some? {
      TaskStepEvolves(b, a);
      UpdateInv(b, TaskOf(a).value, TaskStep(b.jobs[TaskOf(a).value], a));
    } else {
      match a
      case DoSubmit(id, now) => SubmitInv(b, id, now);
      case DoGet(_, now) => ReapInv(b, now);
      case DoDelete(id, now) => DeleteInv(b, id, now);
      case DeleteResumes(h) =>
        SettledReleaseEvolves(b.jobs[h]);
        UpdateInv(b, h, b.jobs[h].(released := true));
        var c := Update(b, h, b.jobs[h].(released := true));
        SetHandlersInv(c, b.cancels - multiset{h}, c.sweep);
        AdvancesTransitive(b, c, Apply(b, a));
      case ShutdownStarts(now) => SweepInv(b, Tracked(b, |b.jobs|), now);
      case ShutdownResumes(now) =>
        var h := b.sweep.value.current;
        SettledReleaseEvolves(b.jobs[h]);
        UpdateInv(b, h, b.jobs[h].(released := true));
        var c := Update(b, h, b.jobs[h].(released := true));
        SweepInv(c, b.sweep.value.rest, now);
        AdvancesTransitive(b, c, Apply(b, a));
      case ExecuteArrives => SetSlotsInv(b, Apply(b, a).slots);
      case ExecuteGivesUp => SetSlotsInv(b, Apply(b, a).slots);
      case ExecuteGranted => SetSlotsInv(b, Apply(b, a).slots);
      case ExecuteDropsGrant => SetSlotsInv(b, Apply(b, a).slots);
      case ExecuteEnds => SetSlotsInv(b, Apply(b, a).slots);
    }
  }
}
