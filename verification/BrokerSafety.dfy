/** Safety of the broker over every run, that is, over every interleaving of submissions,
    background tasks, DELETE handlers, execute calls and shutdown (backend/app/sandbox_broker.py). */
module BrokerSafety {
  import opened Contracts
  import opened BrokerModel
  import opened BrokerProofs
  import opened Wrappers

  lemma {:induction false} RunInv(b: Broker, actions: seq<Action>)
    requires Inv(b) && Legal(b, actions)
    ensures Inv(Run(b, actions)) && Advances(b, Run(b, actions))
    decreases |actions|
  {
    if actions == [] {
      forall h | 0 <= h < |b.jobs| ensures Evolves(b.jobs[h], b.jobs[h]) {
      }
    } else {
      ApplyInv(b, actions[0]);
      RunInv(Apply(b, actions[0]), actions[1..]);
      AdvancesTransitive(b, Apply(b, actions[0]), Run(b, actions));
    }
  }

  ghost predicate Reachable(b: Broker) {
    exists actions :: ReachedBy(b, actions)
  }

  ghost predicate ReachedBy(b: Broker, actions: seq<Action>) {
    var b0 := Init(b.maxConcurrent, b.maxTracked, b.retention);
    Legal(b0, actions) && Run(b0, actions) == b
  }

  lemma ReachableInv(b: Broker)
    requires Reachable(b)
    ensures Inv(b)
  {
    var actions :| ReachedBy(b, actions);
    var b0 := Init(b.maxConcurrent, b.maxTracked, b.retention);
    InvInit(b.maxConcurrent, b.maxTracked, b.retention);
    RunInv(b0, actions);
  }

  /** No slot is ever lost or given back twice. */
  lemma SlotAccounting(b: Broker)
    requires Reachable(b)
    ensures b.slots.free + b.slots.granted + b.slots.holding
            + |set h: nat | h < |b.jobs| && !b.jobs[h].released| == b.maxConcurrent
  {
    ReachableInv(b);
    UnreleasedCounts(b.jobs);
  }

  lemma {:induction false} UnreleasedCounts(jobs: seq<Job>)
    ensures |set h: nat | h < |jobs| && !jobs[h].released| == Unreleased(jobs)
    decreases |jobs|
  {
    var all := set h: nat | h < |jobs| && !jobs[h].released;
    if jobs == [] {
      assert all == {};
    } else {
      var init := jobs[..|jobs| - 1];
      var last := jobs[|jobs| - 1];
      UnreleasedCounts(init);
      assert jobs == init + [last];
      UnreleasedAppend(init, last);
      var before := set h: nat | h < |init| && !init[h].released;
      assert all == before + if last.released then {} else {|init|};
    }
  }

  /** A live job is known to the broker and still holds its slot; a cancel request
      always ends in Cancelled; once the task is over the job is settled and its slot is back. */
  lemma LiveJobs(b: Broker, h: nat)
    requires Reachable(b) && h < |b.jobs|
    ensures !Terminal(b.jobs[h]) ==> IsTracked(b, h) && !b.jobs[h].released
    ensures b.jobs[h].cancelRequested ==> b.jobs[h].state == Cancelled
    ensures b.jobs[h].phase.Ended? ==> Terminal(b.jobs[h]) && b.jobs[h].released
  {
    ReachableInv(b);
    assert JobInv(b.jobs[h]);
  }

  /** Whatever happens next, a settled job keeps its state, its codes, its result and its time stamp,
      and a slot that was given back stays given back. */
  lemma SettledJobsAreFrozen(b: Broker, actions: seq<Action>, h: nat)
    requires Reachable(b) && Legal(b, actions) && h < |b.jobs|
    ensures h < |Run(b, actions).jobs|
    ensures Terminal(b.jobs[h]) ==> SameOutcome(b.jobs[h], Run(b, actions).jobs[h])
    ensures b.jobs[h].released ==> Run(b, actions).jobs[h].released
  {
    ReachableInv(b);
    RunInv(b, actions);
    assert Evolves(b.jobs[h], Run(b, actions).jobs[h]);
  }

  /** A result is reported exactly for jobs that succeeded, the code tells a clean exit from
      another one, and every other settled job carries an error code instead. */
  lemma ReportsFitStates(b: Broker, h: nat)
    requires Reachable(b) && h < |b.jobs|
    ensures var j := b.jobs[h];
      && (ReportedResult(j).Some? <==> j.state == Succeeded)
      && (j.result.Some? ==> j.state == Succeeded)
      && (j.resultCode == Some(Ok) <==> j.state == Succeeded && j.result.Some? && j.result.value.exitCode == 0)
      && (j.resultCode == Some(NonzeroExit) <==> j.state == Succeeded && j.result.Some? && j.result.value.exitCode != 0)
      && (j.errorCode.Some? <==> Terminal(j) && j.state != Succeeded)
      && (j.errorCode == Some(CancelledByClient) <==> j.state == Cancelled)
      && (j.errorCode == Some(ExecutionTimeout) <==> j.state == TimedOut)
  {
    ReachableInv(b);
    assert JobInv(b.jobs[h]);
  }

  ghost predicate LegalEdge(j: Job, k: Job) {
    j.state == k.state || (CanTransition(j.state, k.state) && (k.state.Succeeded? || k.state.TimedOut? ==> j.state.Running?))
  }

  lemma FinishEdge(j: Job, outcome: Outcome, now: int)
    requires JobInv(j) && !j.phase.Scheduled?
    requires j.phase.Starting? ==> outcome.Left? && StartFailure(outcome.exit)
    ensures LegalEdge(j, FinishTask(j, outcome, now))
  {
  }

  lemma TaskEdge(b: Broker, a: Action, h: nat)
    requires Inv(b) && Enabled(b, a) && TaskOf(a).Some? && h < |b.jobs|
    ensures h < |Apply(b, a).jobs| && LegalEdge(b.jobs[h], Apply(b, a).jobs[h])
  {
    TaskStepEvolves(b, a);
    var j := b.jobs[TaskOf(a).value];
    match a
    case ProcessFailed(_, exit, now) => FinishEdge(j, Left(exit), now);
    case LateKillDone(_, now) => FinishEdge(j, Left(TaskCancelled), now);
    case ExchangeEnds(_, outcome, now) => FinishEdge(j, outcome, now);
    case CleanupEnds(_, m, now) => FinishEdge(j, Left(if m then TaskCancelled else j.phase.exit), now);
    case _ =>
  }

  lemma HandlerEdge(b: Broker, a: Action, h: nat)
    requires Inv(b) && Enabled(b, a) && TaskOf(a).None? && !ShutdownStep(a) && h < |b.jobs|
    ensures h < |Apply(b, a).jobs| && LegalEdge(b.jobs[h], Apply(b, a).jobs[h])
  {
    if a.DoSubmit? {
      SubmitKeepsJobs(b, a.id, a.now);
    } else if a.DoDelete? {
      DeleteEdge(b, a.id, a.now, h);
    }
  }

  lemma DeleteEdge(b: Broker, id: string, now: int, h: nat)
    requires InRange(b) && h < |b.jobs|
    ensures h < |Delete(b, id, now).jobs| && LegalEdge(b.jobs[h], Delete(b, id, now).jobs[h])
  {
  }

  lemma SubmitKeepsJobs(b: Broker, id: string, now: int)
    requires InRange(b)
    ensures b.jobs <= Submit(b, id, now).0.jobs
  {
  }

  lemma ShutdownEdge(b: Broker, a: Action, h: nat)
    requires Inv(b) && Enabled(b, a) && ShutdownStep(a) && h < |b.jobs|
    ensures h < |Apply(b, a).jobs| && LegalEdge(b.jobs[h], Apply(b, a).jobs[h])
  {
    ApplyInv(b, a);
    assert Evolves(b.jobs[h], Apply(b, a).jobs[h]);
    if a.ShutdownStarts? {
      SweepOnlyCancels(b, Tracked(b, |b.jobs|), a.now);
    } else {
      var s := b.sweep.value;
      SweepOnlyCancels(Update(b, s.current, b.jobs[s.current].(released := true)), s.rest, a.now);
    }
  }

  /** One action moves a job along at most one edge of the transition table, and only a job whose
      container is running can succeed or time out. */
  lemma EdgesAreLegal(b: Broker, a: Action, h: nat)
    requires Reachable(b) && Enabled(b, a) && h < |b.jobs|
    ensures h < |Apply(b, a).jobs| && LegalEdge(b.jobs[h], Apply(b, a).jobs[h])
  {
    ReachableInv(b);
    if TaskOf(a).Some? {
      TaskEdge(b, a, h);
    } else if ShutdownStep(a) {
      ShutdownEdge(b, a, h);
    } else {
      HandlerEdge(b, a, h);
    }
  }

  /** When no task and no execute call is left, every slot is free again. */
  lemma QuietBrokerIsIdle(b: Broker)
    requires Reachable(b) && b.slots.Held() == 0
    requires forall h: nat | h < |b.jobs| :: b.jobs[h].phase.Ended?
    ensures b.slots.free == b.maxConcurrent
  {
    SlotAccounting(b);
    ReachableInv(b);
    forall h: nat | h < |b.jobs| ensures b.jobs[h].released {
      assert JobInv(b.jobs[h]);
    }
    assert (set h: nat | h < |b.jobs| && !b.jobs[h].released) == {};
  }

  // ----- Shutdown -----

  /** Each of the first `n` jobs is settled, or still ahead of a running shutdown. */
  ghost predicate SweepCovers(b: Broker, n: nat) {
    n <= |b.jobs| && forall h: nat | h < n :: Terminal(b.jobs[h]) || (b.sweep.Some? && h in b.sweep.value.rest)
  }

  lemma {:induction false} SweepOnCovers(b: Broker, rest: seq<nat>, now: int, n: nat)
    requires AllBelow(rest, |b.jobs|) && n <= |b.jobs|
    requires forall h: nat | h < n :: Terminal(b.jobs[h]) || h in rest
    ensures SweepCovers(SweepOn(b, rest, now), n)
    decreases |rest|
  {
    if rest != [] {
      var h := rest[0];
      assert rest == [h] + rest[1..];
      if Terminal(b.jobs[h]) {
        SweepOnCovers(b, rest[1..], now, n);
      } else {
        var c := Update(b, h, CancelJob(b.jobs[h], now));
        assert Terminal(c.jobs[h]);
        if !b.jobs[h].attached {
          SweepOnCovers(c, rest[1..], now, n);
        }
      }
    }
  }

  /** The snapshot shutdown takes is exactly the tracked jobs, in order of creation. */
  lemma {:induction false} TrackedIsTheTable(b: Broker, n: nat)
    requires n <= |b.jobs|
    ensures forall h :: h in Tracked(b, n) <==> h < n && h in b.table.Values
    ensures forall i, j | 0 <= i < j < |Tracked(b, n)| :: Tracked(b, n)[i] < Tracked(b, n)[j]
  {
    if n > 0 {
      TrackedIsTheTable(b, n - 1);
      var before := Tracked(b, n - 1);
      var r := Tracked(b, n);
      assert forall i | 0 <= i < |before| :: before[i] in before && r[i] == before[i];
      forall h ensures h in r <==> h < n && h in b.table.Values {
        assert r == before + if n - 1 in b.table.Values then [n - 1] else [];
      }
    }
  }

  lemma ShutdownResumesCovers(b: Broker, now: int, n: nat)
    requires Inv(b) && Enabled(b, ShutdownResumes(now)) && SweepCovers(b, n)
    ensures SweepCovers(Apply(b, ShutdownResumes(now)), n)
  {
    var h := b.sweep.value.current;
    SettledReleaseEvolves(b.jobs[h]);
    UpdateInv(b, h, b.jobs[h].(released := true));
    var c := Update(b, h, b.jobs[h].(released := true));
    SweepOnCovers(c, b.sweep.value.rest, now, n);
  }

  lemma AdvancesCovers(b: Broker, c: Broker, n: nat)
    requires Advances(b, c) && SweepCovers(b, n)
    requires c.sweep == b.sweep || b.sweep.None?
    ensures SweepCovers(c, n)
  {
    assert forall h: nat | h < n :: Evolves(b.jobs[h], c.jobs[h]);
  }

  lemma ApplyCovers(b: Broker, a: Action, n: nat)
    requires Inv(b) && Enabled(b, a) && SweepCovers(b, n)
    ensures SweepCovers(Apply(b, a), n)
  {
    if a.ShutdownResumes? {
      ShutdownResumesCovers(b, a.now, n);
    } else {
      ApplyInv(b, a);
      AdvancesCovers(b, Apply(b, a), n);
    }
  }

  lemma {:induction false} RunCovers(b: Broker, actions: seq<Action>, n: nat)
    requires Inv(b) && Legal(b, actions) && SweepCovers(b, n)
    ensures SweepCovers(Run(b, actions), n)
    decreases |actions|
  {
    if actions != [] {
      ApplyInv(b, actions[0]);
      ApplyCovers(b, actions[0], n);
      RunCovers(Apply(b, actions[0]), actions[1..], n);
    }
  }

  /** Once a shutdown has run to its end, every job that existed when it began is settled,
      whatever else happened while it was waiting for containers to die. */
  lemma ShutdownSettlesEveryJob(b: Broker, now: int, actions: seq<Action>)
    requires Reachable(b) && Enabled(b, ShutdownStarts(now))
    requires Legal(Apply(b, ShutdownStarts(now)), actions)
    requires Run(Apply(b, ShutdownStarts(now)), actions).sweep.None?
    ensures var c := Run(Apply(b, ShutdownStarts(now)), actions);
      |b.jobs| <= |c.jobs| && forall h | 0 <= h < |b.jobs| :: Terminal(c.jobs[h])
  {
    ReachableInv(b);
    ApplyInv(b, ShutdownStarts(now));
    var b1 := Apply(b, ShutdownStarts(now));
    TrackedIsTheTable(b, |b.jobs|);
    forall h: nat | h < |b.jobs| && !Terminal(b.jobs[h]) ensures h in Tracked(b, |b.jobs|) {
      assert IsTracked(b, h);
      assert b.jobs[h].id in b.table.Keys && b.table[b.jobs[h].id] in b.table.Values;
    }
    SweepOnCovers(b, Tracked(b, |b.jobs|), now, |b.jobs|);
    RunCovers(b1, actions, |b.jobs|);
    RunInv(b1, actions);
  }
}
