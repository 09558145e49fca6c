/** When containers stay within the slots (backend/app/sandbox_broker.py): the steps that give a slot back
    while its container may still be there, and what holds if they wait. */
module BrokerContainers {
  import opened Contracts
  import opened BrokerModel
  import opened BrokerProofs
  import opened BrokerSafety
  import opened BrokerCapacity
  import opened Sets
  import opened Wrappers

  /** The docker process of the job is being created, or has not been waited for yet. */
  predicate Busy(j: Job) {
    j.phase.Starting? || HasContainer(j)
  }

  /** No job has given back the slot of such a container. */
  ghost predicate Backed(b: Broker) {
    forall h: nat | h < |b.jobs| && Busy(b.jobs[h]) :: !b.jobs[h].released
  }

  /** Live, without a process to kill, but with one on its way. */
  predicate LiveStarting(j: Job) {
    !Terminal(j) && j.phase.Starting?
  }

  ghost predicate DeleteHits(b: Broker, id: string)
    requires InRange(b)
  {
    id in b.table && LiveStarting(b.jobs[b.table[id]])
  }

  /** The shutdown loop meets such a job before its next suspension, the first live job with a process. */
  ghost predicate SweepHits(b: Broker, rest: seq<nat>)
    requires AllBelow(rest, |b.jobs|)
  {
    exists i: nat | i < |rest| :: SweepHitsAt(b, rest, i)
  }

  ghost predicate SweepHitsAt(b: Broker, rest: seq<nat>, i: nat)
    requires AllBelow(rest, |b.jobs|) && i < |rest|
  {
    LiveStarting(b.jobs[rest[i]]) && forall k: nat | k < i :: Terminal(b.jobs[rest[k]]) || !b.jobs[rest[k]].attached
  }

  lemma UpdateBackedIff(b: Broker, h: nat, j: Job)
    requires h < |b.jobs| && Backed(b)
    ensures Backed(Update(b, h, j)) <==> (Busy(j) ==> !j.released)
  {
    var c := Update(b, h, j);
    assert c.jobs[h] == j;
    assert forall i: nat | i < |b.jobs| && i != h :: c.jobs[i] == b.jobs[i];
  }

  /** An unbacked job stays so while only other jobs, or flags that never fall, change. */
  ghost predicate StaysUnbacked(b: Broker, c: Broker) {
    && |c.jobs| == |b.jobs|
    && forall h: nat | h < |b.jobs| :: c.jobs[h].phase == b.jobs[h].phase && (b.jobs[h].released ==> c.jobs[h].released)
  }

  lemma UnbackedStays(b: Broker, c: Broker)
    requires StaysUnbacked(b, c) && !Backed(b)
    ensures !Backed(c)
  {
    var h: nat :| h < |b.jobs| && Busy(b.jobs[h]) && b.jobs[h].released;
    assert Busy(c.jobs[h]) && c.jobs[h].released;
  }

  lemma CancelKeepsPhase(j: Job, now: int)
    ensures CancelJob(j, now).phase == j.phase && CancelJob(j, now).released == (j.released || !j.attached)
    ensures CancelJob(j, now).attached == j.attached
  {
  }

  // ----- DELETE -----

  /** DELETE keeps the containers backed exactly when it does not hit a live job whose docker process is
      still being created. */
  lemma DeleteKeepsBackedIff(b: Broker, id: string, now: int)
    requires Inv(b) && Backed(b)
    ensures Backed(Delete(b, id, now)) <==> !DeleteHits(b, id)
  {
    if id in b.table && !Terminal(b.jobs[b.table[id]]) {
      var h := b.table[id];
      assert JobInv(b.jobs[h]);
      CancelKeepsPhase(b.jobs[h], now);
      hide CancelJob;
      UpdateBackedIff(b, h, CancelJob(b.jobs[h], now));
    }
  }

  /** A resumed DELETE keeps them backed exactly when the task of its job has left the container. */
  lemma DeleteResumesKeepsBackedIff(b: Broker, h: nat)
    requires Inv(b) && Backed(b) && h in b.cancels
    ensures Backed(Apply(b, DeleteResumes(h))) <==> !Busy(b.jobs[h])
  {
    UpdateBackedIff(b, h, b.jobs[h].(released := true));
  }

  // ----- Shutdown -----

  lemma {:induction false} SweepStaysUnbacked(b: Broker, rest: seq<nat>, now: int)
    requires AllBelow(rest, |b.jobs|)
    ensures StaysUnbacked(b, SweepOn(b, rest, now))
    decreases |rest|
  {
    hide CancelJob;
    if rest != [] {
      if Terminal(b.jobs[rest[0]]) {
        SweepStaysUnbacked(b, rest[1..], now);
      } else {
        CancelKeepsPhase(b.jobs[rest[0]], now);
        if !b.jobs[rest[0]].attached {
          SweepStaysUnbacked(Update(b, rest[0], CancelJob(b.jobs[rest[0]], now)), rest[1..], now);
        }
      }
    }
  }

  lemma SweepHitsRest(b: Broker, rest: seq<nat>)
    requires AllBelow(rest, |b.jobs|) && rest != []
    ensures AllBelow(rest[1..], |b.jobs|)
    ensures var j := b.jobs[rest[0]];
      SweepHits(b, rest) <==> LiveStarting(j) || ((Terminal(j) || !j.attached) && SweepHits(b, rest[1..]))
  {
    var j := b.jobs[rest[0]];
    if i: nat :| i < |rest| && SweepHitsAt(b, rest, i) {
      if i > 0 {
        assert rest[1..][i - 1] == rest[i];
        assert forall k: nat | k < i - 1 :: rest[1..][k] == rest[k + 1];
        assert SweepHitsAt(b, rest[1..], i - 1);
      }
    }
    if LiveStarting(j) {
      assert SweepHitsAt(b, rest, 0);
    } else if (Terminal(j) || !j.attached) && SweepHits(b, rest[1..]) {
      var i: nat :| i < |rest[1..]| && SweepHitsAt(b, rest[1..], i);
      assert rest[1..][i] == rest[i + 1];
      assert forall k: nat | 0 < k < i + 1 :: rest[k] == rest[1..][k - 1];
      assert SweepHitsAt(b, rest, i + 1);
    }
  }

  lemma CancelledIsTerminal(b: Broker, h: nat, now: int)
    requires Inv(b) && h < |b.jobs| && !Terminal(b.jobs[h])
    ensures Terminal(CancelJob(b.jobs[h], now))
  {
    CancelInv(b, h, now);
    assert JobInv(Update(b, h, CancelJob(b.jobs[h], now)).jobs[h]);
  }

  /** Cancelling a job that has not started yet does not bring another into the loop's way. */
  lemma SweepHitsAfter(b: Broker, h: nat, now: int, rest: seq<nat>)
    requires h < |b.jobs| && AllBelow(rest, |b.jobs|) && Inv(b)
    requires !Terminal(b.jobs[h]) && !b.jobs[h].attached && !b.jobs[h].phase.Starting?
    ensures SweepHits(Update(b, h, CancelJob(b.jobs[h], now)), rest) == SweepHits(b, rest)
  {
    var c := Update(b, h, CancelJob(b.jobs[h], now));
    hide CancelJob, Inv, Terminal;
    CancelKeepsPhase(b.jobs[h], now);
    CancelledIsTerminal(b, h, now);
    forall i: nat | i < |rest| ensures SweepHitsAt(c, rest, i) == SweepHitsAt(b, rest, i) {
      assert forall k: nat | k < |b.jobs| && k != h :: c.jobs[k] == b.jobs[k];
    }
  }

  /** A stretch of the shutdown loop keeps the containers backed exactly when it meets no live job whose
      docker process is still being created. */
  lemma {:induction false} SweepKeepsBackedIff(b: Broker, rest: seq<nat>, now: int)
    requires Inv(b) && Backed(b) && AllBelow(rest, |b.jobs|)
    ensures Backed(SweepOn(b, rest, now)) <==> !SweepHits(b, rest)
    decreases |rest|
  {
    hide CancelJob, SweepHits, Backed;
    if rest == [] {
      NothingToSweep(b, now);
    } else {
      SweepHitsRest(b, rest);
      var h := rest[0];
      assert JobInv(b.jobs[h]);
      if Terminal(b.jobs[h]) {
        SweepKeepsBackedIff(b, rest[1..], now);
      } else {
        CancelInv(b, h, now);
        CancelKeepsPhase(b.jobs[h], now);
        UpdateBackedIff(b, h, CancelJob(b.jobs[h], now));
        var c := Update(b, h, CancelJob(b.jobs[h], now));
        if b.jobs[h].attached {
          SameJobsSameBacking(c, c.(sweep := Some(Sweep(h, rest[1..]))));
        } else if b.jobs[h].phase.Starting? {
          SweepStaysUnbacked(c, rest[1..], now);
          UnbackedStays(c, SweepOn(c, rest[1..], now));
        } else {
          SweepHitsAfter(b, h, now, rest[1..]);
          SweepKeepsBackedIff(c, rest[1..], now);
        }
      }
    }
  }

  lemma NothingToSweep(b: Broker, now: int)
    ensures Backed(SweepOn(b, [], now)) == Backed(b) && !SweepHits(b, [])
  {
  }

  lemma SameJobsSameBacking(b: Broker, c: Broker)
    requires c.jobs == b.jobs
    ensures Backed(c) == Backed(b)
  {
  }

  /** The resumed shutdown gives back the slot of the job it was waiting for, and goes on. */
  lemma ShutdownResumesKeepsBackedIff(b: Broker, now: int)
    requires Inv(b) && Backed(b) && b.sweep.Some?
    ensures Backed(Apply(b, ShutdownResumes(now)))
       <==> !Busy(b.jobs[b.sweep.value.current]) && !SweepHits(b, b.sweep.value.rest)
  {
    var h, rest := b.sweep.value.current, b.sweep.value.rest;
    var j := b.jobs[h].(released := true);
    assert JobInv(b.jobs[h]);
    SettledReleaseEvolves(b.jobs[h]);
    UpdateInv(b, h, j);
    UpdateBackedIff(b, h, j);
    var c := Update(b, h, j);
    ReleaseHitsNothing(b, h, rest);
    hide SweepHits, Backed, Inv;
    if Busy(b.jobs[h]) {
      SweepStaysUnbacked(c, rest, now);
      UnbackedStays(c, SweepOn(c, rest, now));
    } else {
      SweepKeepsBackedIff(c, rest, now);
    }
  }

  lemma ReleaseHitsNothing(b: Broker, h: nat, rest: seq<nat>)
    requires h < |b.jobs| && AllBelow(rest, |b.jobs|)
    ensures SweepHits(Update(b, h, b.jobs[h].(released := true)), rest) == SweepHits(b, rest)
  {
    var c := Update(b, h, b.jobs[h].(released := true));
    forall i: nat | i < |rest| ensures SweepHitsAt(c, rest, i) == SweepHitsAt(b, rest, i) {
      assert forall k: nat | k < |b.jobs| && k != h :: c.jobs[k] == b.jobs[k];
    }
  }

  // ----- Every step -----

  /** What DELETE and shutdown would have to wait for. All other steps may go on. */
  ghost predicate Waits(b: Broker, a: Action)
    requires Enabled(b, a)
  {
    match a
    case DoDelete(id, _) => !DeleteHits(b, id)
    case DeleteResumes(h) => !Busy(b.jobs[h])
    case ShutdownStarts(_) => !SweepHits(b, Tracked(b, |b.jobs|))
    case ShutdownResumes(_) => !Busy(b.jobs[b.sweep.value.current]) && !SweepHits(b, b.sweep.value.rest)
    case _ => true
  }

  lemma TaskStepBacked(j: Job, a: Action)
    requires JobInv(j) && TaskOf(a).Some? && (a.CleanupEnds? ==> j.phase.Cleaning?)
    requires a.TaskStarts? ==> j.phase.Scheduled?
    requires a.ProcessCreated? ==> j.phase.Starting?
    requires a.ExchangeAborts? ==> j.phase.Exchanging?
    requires Busy(j) ==> !j.released
    ensures Busy(TaskStep(j, a)) ==> !TaskStep(j, a).released
  {
  }

  lemma QuietStepBacked(b: Broker, a: Action)
    requires Inv(b) && Backed(b) && Enabled(b, a) && TaskOf(a).None?
    requires !a.DoDelete? && !a.DeleteResumes? && !a.ShutdownStarts? && !a.ShutdownResumes?
    ensures Backed(Apply(b, a))
  {
    if a.DoSubmit? {
      SubmitBacked(b, a.id, a.now);
    } else {
      SameJobsSameBacking(b, Apply(b, a));
    }
  }

  lemma SubmitBacked(b: Broker, id: string, now: int)
    requires InRange(b) && Backed(b)
    ensures Backed(Submit(b, id, now).0)
  {
    var c := Submit(b, id, now).0;
    assert c.jobs == b.jobs || c.jobs == b.jobs + [NewJob(id, now)];
  }

  /** A step keeps the containers backed if and only if it waits. */
  lemma StepKeepsBackedIff(b: Broker, a: Action)
    requires Inv(b) && Backed(b) && Enabled(b, a)
    ensures Backed(Apply(b, a)) <==> Waits(b, a)
  {
    hide Backed, SweepHits, Inv, Busy;
    if TaskOf(a).Some? {
      TaskStepEvolves(b, a);
      var h := TaskOf(a).value;
      JobFacts(b, h);
      TaskStepBacked(b.jobs[h], a);
      UpdateBackedIff(b, h, TaskStep(b.jobs[h], a));
    } else if a.DoDelete? {
      DeleteKeepsBackedIff(b, a.id, a.now);
    } else if a.DeleteResumes? {
      DeleteResumesKeepsBackedIff(b, a.h);
    } else if a.ShutdownStarts? {
      SweepKeepsBackedIff(b, Tracked(b, |b.jobs|), a.now);
    } else if a.ShutdownResumes? {
      ShutdownResumesKeepsBackedIff(b, a.now);
    } else {
      QuietStepBacked(b, a);
    }
  }

  lemma JobFacts(b: Broker, h: nat)
    requires Inv(b) && Backed(b) && h < |b.jobs|
    ensures JobInv(b.jobs[h]) && (Busy(b.jobs[h]) ==> !b.jobs[h].released)
  {
  }

  // ----- Every run -----

  ghost predicate WaitingRun(b: Broker, actions: seq<Action>)
    requires Legal(b, actions)
    decreases |actions|
  {
    actions != [] ==> Waits(b, actions[0]) && WaitingRun(Apply(b, actions[0]), actions[1..])
  }

  lemma {:induction false} WaitingRunIsBacked(b: Broker, actions: seq<Action>)
    requires Inv(b) && Backed(b) && Legal(b, actions) && WaitingRun(b, actions)
    ensures Inv(Run(b, actions)) && Backed(Run(b, actions)) && Run(b, actions).maxConcurrent == b.maxConcurrent
    decreases |actions|
  {
    hide Inv, Backed, Apply, Enabled, Waits;
    if actions != [] {
      ApplyInv(b, actions[0]);
      StepKeepsBackedIff(b, actions[0]);
      WaitingRunIsBacked(Apply(b, actions[0]), actions[1..]);
    }
  }

  ghost function BusyJobs(b: Broker): set<nat> {
    set h: nat | h < |b.jobs| && Busy(b.jobs[h])
  }

  lemma BackedIsBounded(b: Broker)
    requires Inv(b) && Backed(b)
    ensures |BusyJobs(b)| + b.slots.Held() <= b.maxConcurrent
  {
    UnreleasedCounts(b.jobs);
    var held := set h: nat | h < |b.jobs| && !b.jobs[h].released;
    SubsetSize(BusyJobs(b), held);
  }

  /** In a run in which DELETE and shutdown wait, the containers, started or starting, and the execute calls
      together never exceed the slots. */
  lemma WaitingKeepsContainersWithinSlots(maxConcurrent: nat, maxTracked: nat, retention: int, actions: seq<Action>)
    requires Legal(Init(maxConcurrent, maxTracked, retention), actions)
    requires WaitingRun(Init(maxConcurrent, maxTracked, retention), actions)
    ensures var b := Run(Init(maxConcurrent, maxTracked, retention), actions);
      |BusyJobs(b)| + b.slots.Held() <= maxConcurrent
  {
    var b := Init(maxConcurrent, maxTracked, retention);
    InvInit(maxConcurrent, maxTracked, retention);
    assert Backed(b);
    hide Inv, Backed, Init, WaitingRun, Legal, Run;
    WaitingRunIsBacked(b, actions);
    BackedIsBounded(Run(b, actions));
  }
}
