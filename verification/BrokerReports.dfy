/** What a status request reports of a settled job, in terms of the run that settled it
    (backend/app/sandbox_broker.py): the container's own result, or the code and the detail of the way
    it failed. */
module BrokerReports {
  import opened Contracts
  import opened BrokerModel
  import opened BrokerProofs
  import opened BrokerSafety
  import opened Wrappers

  /** The settled part of a record. */
  datatype Settlement = Settlement(
    state: JobState, result: Option<RunResult>, resultCode: Option<ResultCode>,
    errorCode: Option<ErrorCode>, detail: Option<string>, at: int)

  function SettlementOf(j: Job): Option<Settlement> {
    if Terminal(j) then Some(Settlement(j.state, j.result, j.resultCode, j.errorCode, j.detail, j.updatedAt)) else None
  }

  ghost function SettlementAt(b: Broker, h: nat): Option<Settlement> {
    if h < |b.jobs| then SettlementOf(b.jobs[h]) else None
  }

  // ----- What each way to end leaves behind -----

  ghost predicate HasPart(text: string, part: string) {
    exists i | 0 <= i <= |text| :: PartAt(text, part, i)
  }

  predicate PartAt(text: string, part: string, i: nat) {
    i + |part| <= |text| && text[i..i + |part|] == part
  }

  lemma PartInRest(text: string, part: string, i: nat)
    requires text != ""
    ensures PartAt(text[1..], part, i) == PartAt(text, part, i + 1)
  {
    if i + 1 + |part| <= |text| {
      assert text[1..][i..i + |part|] == text[i + 1..i + 1 + |part|];
    }
  }

  lemma {:induction false} ContainsIff(text: string, part: string)
    ensures Contains(text, part) <==> HasPart(text, part)
  {
    assert part <= text <==> PartAt(text, part, 0);
    if text != [] {
      hide PartAt;
      ContainsIff(text[1..], part);
      forall i: nat ensures PartAt(text[1..], part, i) == PartAt(text, part, i + 1) {
        PartInRest(text, part, i);
      }
      if HasPart(text[1..], part) {
        var i :| 0 <= i <= |text[1..]| && PartAt(text[1..], part, i);
        assert PartAt(text, part, i + 1);
      }
      if HasPart(text, part) && !PartAt(text, part, 0) {
        var i :| 0 <= i <= |text| && PartAt(text, part, i);
        assert PartAt(text[1..], part, i - 1);
      }
    }
  }

  function Failure(state: JobState, code: ErrorCode, detail: Option<string>, at: int): Settlement {
    Settlement(state, None, None, Some(code), detail, at)
  }

  ghost function CodeOf(status: int, detail: string): ErrorCode {
    match status
    case 413 => OutputLimitExceeded
    case 503 => SandboxUnavailable
    case 502 => if HasPart(detail, "Invalid") then InvalidSandboxResponse else ExecutionFailed
    case _ => ExecutionFailed
  }

  ghost function Ending(outcome: Outcome, at: int): Settlement {
    match outcome
    case Done(r) => Settlement(Succeeded, Some(r), Some(if r.exitCode == 0 then Ok else NonzeroExit), None, None, at)
    case Left(Http(504, detail)) => Failure(TimedOut, ExecutionTimeout, Some(detail), at)
    case Left(Http(status, detail)) => Failure(Failed, CodeOf(status, detail), Some(detail), at)
    case Left(TaskCancelled) => Failure(Cancelled, CancelledByClient, None, at)
    case Left(Crashed) => Failure(Failed, ExecutionFailed, Some("Sandbox execution failed"), at)
  }

  lemma WithoutLetter(text: string, part: string)
    requires part != "" && part[0] !in text
    ensures !HasPart(text, part)
  {
    forall i | 0 <= i <= |text| ensures !PartAt(text, part, i) {
      if i + |part| <= |text| {
        assert text[i..i + |part|][0] == text[i] && text[i] in text;
      }
    }
  }

  /** The code each message of the broker leaves. */
  lemma MessageCodes()
    ensures CodeOf(503, "Sandbox runtime unavailable") == SandboxUnavailable
    ensures CodeOf(413, "Sandbox output exceeds limit") == OutputLimitExceeded
    ensures CodeOf(502, "Sandbox execution failed") == ExecutionFailed
    ensures CodeOf(502, "Invalid sandbox response") == InvalidSandboxResponse
    ensures CodeOf(502, "Invalid sandbox artifact response") == InvalidSandboxResponse
  {
    WithoutLetter("Sandbox execution failed", "Invalid");
    assert PartAt("Invalid sandbox response", "Invalid", 0);
    assert PartAt("Invalid sandbox artifact response", "Invalid", 0);
  }

  // ----- What settles a job -----

  /** How the background task of the job ends in this step, and when. */
  ghost function TaskEnds(b: Broker, a: Action, h: nat): Option<(Outcome, int)>
    requires h < |b.jobs| && Enabled(b, a)
  {
    match a
    case ProcessFailed(k, exit, now) => if k == h then Some((Left(exit), now)) else None
    case LateKillDone(k, now) => if k == h then Some((Left(TaskCancelled), now)) else None
    case ExchangeEnds(k, outcome, now) => if k == h then Some((outcome, now)) else None
    case CleanupEnds(k, cancelled, now) =>
      if k == h then Some((Left(if cancelled then TaskCancelled else b.jobs[h].phase.exit), now)) else None
    case _ => None
  }

  /** The shutdown loop comes to the job before its next suspension, at the first live job with a process. */
  ghost predicate SweepReaches(b: Broker, rest: seq<nat>, h: nat)
    requires AllBelow(rest, |b.jobs|)
  {
    exists i: nat | i < |rest| :: SweepReachesAt(b, rest, h, i)
  }

  ghost predicate SweepReachesAt(b: Broker, rest: seq<nat>, h: nat, i: nat)
    requires AllBelow(rest, |b.jobs|) && i < |rest|
  {
    rest[i] == h && forall k: nat | k < i :: Terminal(b.jobs[rest[k]]) || !b.jobs[rest[k]].attached
  }

  /** The moment at which a DELETE or the shutdown cancels the job. */
  ghost function CancelledAt(b: Broker, a: Action, h: nat): Option<int>
    requires h < |b.jobs| && Enabled(b, a)
  {
    match a
    case DoDelete(id, now) => if id in b.table && b.table[id] == h then Some(now) else None
    case ShutdownStarts(now) => if SweepReaches(b, Tracked(b, |b.jobs|), h) then Some(now) else None
    case ShutdownResumes(now) => if SweepReaches(b, b.sweep.value.rest, h) then Some(now) else None
    case _ => None
  }

  /** What a step makes of a live job, if it settles it. */
  ghost function Settles(b: Broker, a: Action, h: nat): Option<Settlement>
    requires Enabled(b, a)
  {
    if h >= |b.jobs| || Terminal(b.jobs[h]) then None
    else if TaskEnds(b, a, h).Some? then Some(Ending(TaskEnds(b, a, h).value.0, TaskEnds(b, a, h).value.1))
    else if CancelledAt(b, a, h).Some? then Some(Failure(Cancelled, CancelledByClient, None, CancelledAt(b, a, h).value))
    else None
  }

  // ----- One step -----

  lemma FinishSettles(j: Job, outcome: Outcome, now: int)
    requires JobInv(j) && !Terminal(j)
    requires (outcome.Done? || (outcome.Left? && outcome.exit.Http? && outcome.exit.status == 504)) ==> j.state == Running
    ensures SettlementOf(FinishTask(j, outcome, now)) == Some(Ending(outcome, now))
  {
    if outcome.Left? && outcome.exit.Http? {
      ContainsIff(outcome.exit.detail, "Invalid");
    }
    hide Contains, HasPart;
  }

  lemma CancelSettles(j: Job, now: int)
    requires JobInv(j) && !Terminal(j)
    ensures SettlementOf(CancelJob(j, now)) == Some(Failure(Cancelled, CancelledByClient, None, now))
  {
  }

  lemma TaskStepSettles(b: Broker, a: Action, h: nat)
    requires Inv(b) && Enabled(b, a) && TaskOf(a) == Some(h) && h < |b.jobs| && !Terminal(b.jobs[h])
    ensures SettlementOf(TaskStep(b.jobs[h], a)) == Settles(b, a, h)
  {
    var j := b.jobs[h];
    assert JobInv(j);
    match a
    case ProcessFailed(_, exit, now) => FinishSettles(j, Left(exit), now);
    case LateKillDone(_, now) => FinishSettles(j, Left(TaskCancelled), now);
    case ExchangeEnds(_, outcome, now) => FinishSettles(j, outcome, now);
    case CleanupEnds(_, m, now) => FinishSettles(j, Left(if m then TaskCancelled else j.phase.exit), now);
    case _ =>
  }

  lemma SweepReachesRest(b: Broker, rest: seq<nat>, h: nat)
    requires AllBelow(rest, |b.jobs|) && rest != []
    ensures AllBelow(rest[1..], |b.jobs|)
    ensures SweepReaches(b, rest, h) <==>
            rest[0] == h || ((Terminal(b.jobs[rest[0]]) || !b.jobs[rest[0]].attached) && SweepReaches(b, rest[1..], h))
  {
    if i: nat :| i < |rest| && SweepReachesAt(b, rest, h, i) {
      if i > 0 {
        assert rest[1..][i - 1] == rest[i];
        assert forall k: nat | k < i - 1 :: rest[1..][k] == rest[k + 1];
        assert SweepReachesAt(b, rest[1..], h, i - 1);
      }
    }
    if rest[0] == h {
      assert SweepReachesAt(b, rest, h, 0);
    } else if (Terminal(b.jobs[rest[0]]) || !b.jobs[rest[0]].attached) && SweepReaches(b, rest[1..], h) {
      var i: nat :| i < |rest[1..]| && SweepReachesAt(b, rest[1..], h, i);
      assert rest[1..][i] == rest[i + 1];
      assert forall k: nat | 0 < k < i + 1 :: rest[k] == rest[1..][k - 1];
      assert SweepReachesAt(b, rest, h, i + 1);
    }
  }

  lemma SweepReachesAfter(b: Broker, k: nat, j: Job, rest: seq<nat>, h: nat)
    requires k < |b.jobs| && AllBelow(rest, |b.jobs|) && !b.jobs[k].attached && !j.attached
    ensures SweepReaches(Update(b, k, j), rest, h) == SweepReaches(b, rest, h)
  {
    var c := Update(b, k, j);
    forall i: nat | i < |rest| ensures SweepReachesAt(c, rest, h, i) == SweepReachesAt(b, rest, h, i) {
      assert forall n: nat | n < |b.jobs| && n != k :: c.jobs[n] == b.jobs[n];
    }
  }

  lemma {:induction false} SweepSettles(b: Broker, rest: seq<nat>, now: int, h: nat)
    requires Inv(b) && AllBelow(rest, |b.jobs|) && h < |b.jobs| && !Terminal(b.jobs[h])
    ensures SettlementAt(SweepOn(b, rest, now), h)
         == if SweepReaches(b, rest, h) then Some(Failure(Cancelled, CancelledByClient, None, now)) else None
    decreases |rest|
  {
    hide CancelJob, SweepReaches;
    if rest == [] {
      NothingReached(b, h);
    } else {
      SweepReachesRest(b, rest, h);
      var k := rest[0];
      if Terminal(b.jobs[k]) {
        SweepSettles(b, rest[1..], now, h);
      } else {
        assert JobInv(b.jobs[k]);
        CancelInv(b, k, now);
        CancelSettles(b.jobs[k], now);
        var c := Update(b, k, CancelJob(b.jobs[k], now));
        if !b.jobs[k].attached {
          CancelKeepsAttached(b.jobs[k], now);
          SweepReachesAfter(b, k, CancelJob(b.jobs[k], now), rest[1..], h);
          if k == h {
            SweepFreezes(c, rest[1..], now, h);
          } else {
            SweepSettles(c, rest[1..], now, h);
          }
        }
      }
    }
  }

  lemma CancelKeepsAttached(j: Job, now: int)
    ensures CancelJob(j, now).attached == j.attached
  {
  }

  lemma NothingReached(b: Broker, h: nat)
    ensures !SweepReaches(b, [], h)
  {
  }

  lemma SweepFreezes(b: Broker, rest: seq<nat>, now: int, h: nat)
    requires Inv(b) && AllBelow(rest, |b.jobs|) && h < |b.jobs| && Terminal(b.jobs[h])
    ensures SettlementAt(SweepOn(b, rest, now), h) == SettlementOf(b.jobs[h])
  {
    SweepInv(b, rest, now);
    assert Evolves(b.jobs[h], SweepOn(b, rest, now).jobs[h]);
  }

  lemma DeleteSettles(b: Broker, id: string, now: int, h: nat)
    requires Inv(b) && h < |b.jobs| && !Terminal(b.jobs[h])
    ensures SettlementAt(Delete(b, id, now), h) == Settles(b, DoDelete(id, now), h)
  {
    assert JobInv(b.jobs[h]);
    CancelSettles(b.jobs[h], now);
    hide CancelJob, Inv, SettlementOf;
    if id in b.table && !Terminal(b.jobs[b.table[id]]) {
      var k := b.table[id];
      var c := Update(b, k, CancelJob(b.jobs[k], now));
      assert Delete(b, id, now).jobs == c.jobs;
      assert k != h ==> c.jobs[h] == b.jobs[h];
    }
    LiveIsUnsettled(b.jobs[h]);
  }

  lemma LiveIsUnsettled(j: Job)
    ensures !Terminal(j) ==> SettlementOf(j) == None
  {
  }

  lemma HandlerStepSettles(b: Broker, a: Action, h: nat)
    requires Inv(b) && Enabled(b, a) && TaskOf(a).None? && h < |b.jobs| && !Terminal(b.jobs[h])
    ensures SettlementAt(Apply(b, a), h) == Settles(b, a, h)
  {
    hide CancelJob, SweepReaches, Inv, SettlementOf, SweepOn, Submit, Delete, Ending;
    LiveIsUnsettled(b.jobs[h]);
    if a.DoDelete? {
      DeleteSettles(b, a.id, a.now, h);
    } else if a.ShutdownStarts? {
      SweepSettles(b, Tracked(b, |b.jobs|), a.now, h);
    } else if a.ShutdownResumes? {
      ResumedSweepSettles(b, a.now, h);
    } else if a.DoSubmit? {
      SubmitSettlesNothing(b, a.id, a.now, h);
    } else {
      QuietSettlesNothing(b, a, h);
    }
  }

  /** Status requests, resumed DELETEs and execute calls. */
  lemma QuietSettlesNothing(b: Broker, a: Action, h: nat)
    requires Enabled(b, a) && TaskOf(a).None? && h < |b.jobs|
    requires !a.DoDelete? && !a.DoSubmit? && !a.ShutdownStarts? && !a.ShutdownResumes?
    ensures SettlementAt(Apply(b, a), h) == SettlementAt(b, h) && CancelledAt(b, a, h) == None && TaskEnds(b, a, h) == None
  {
    if a.DeleteResumes? {
      assert a.h != h ==> Apply(b, a).jobs[h] == b.jobs[h];
    }
  }

  lemma SubmitSettlesNothing(b: Broker, id: string, now: int, h: nat)
    requires InRange(b)
    ensures SettlementAt(Submit(b, id, now).0, h) == SettlementAt(b, h)
  {
    var c := Submit(b, id, now).0;
    assert c.jobs == b.jobs || c.jobs == b.jobs + [NewJob(id, now)];
  }

  lemma ResumedSweepSettles(b: Broker, now: int, h: nat)
    requires Inv(b) && b.sweep.Some? && h < |b.jobs| && !Terminal(b.jobs[h])
    ensures SettlementAt(Apply(b, ShutdownResumes(now)), h) == Settles(b, ShutdownResumes(now), h)
  {
    hide SweepReaches, SweepOn, SettlementAt, Ending;
    var k, rest := b.sweep.value.current, b.sweep.value.rest;
    var j := b.jobs[k].(released := true);
    assert JobInv(b.jobs[k]);
    SettledReleaseEvolves(b.jobs[k]);
    UpdateInv(b, k, j);
    var c := Update(b, k, j);
    ReleaseReaches(b, k, rest, h);
    assert k != h;
    hide Inv, JobInv;
    SweepSettles(c, rest, now, h);
  }

  lemma ReleaseReaches(b: Broker, k: nat, rest: seq<nat>, h: nat)
    requires k < |b.jobs| && AllBelow(rest, |b.jobs|)
    ensures SweepReaches(Update(b, k, b.jobs[k].(released := true)), rest, h) == SweepReaches(b, rest, h)
  {
    var c := Update(b, k, b.jobs[k].(released := true));
    forall i: nat | i < |rest| ensures SweepReachesAt(c, rest, h, i) == SweepReachesAt(b, rest, h, i) {
      assert forall n: nat | n < |b.jobs| && n != k :: c.jobs[n] == b.jobs[n];
    }
  }

  lemma NewJobsAreLive(b: Broker, a: Action, h: nat)
    requires Inv(b) && Enabled(b, a) && h >= |b.jobs|
    ensures SettlementAt(Apply(b, a), h) == None
  {
    if TaskOf(a).Some? {
      TaskStepEvolves(b, a);
    } else if a.DoSubmit? {
      SubmitSettlesNothing(b, a.id, a.now, h);
    } else if a.ShutdownStarts? {
      SweepOnlyCancels(b, Tracked(b, |b.jobs|), a.now);
    } else if a.ShutdownResumes? {
      var k := b.sweep.value.current;
      SweepOnlyCancels(Update(b, k, b.jobs[k].(released := true)), b.sweep.value.rest, a.now);
    }
  }

  /** A step leaves a settled job as it is and settles a live one exactly as stated. */
  lemma StepSettles(b: Broker, a: Action, h: nat)
    requires Inv(b) && Enabled(b, a)
    ensures SettlementAt(Apply(b, a), h)
         == if SettlementAt(b, h).Some? then SettlementAt(b, h) else Settles(b, a, h)
  {
    hide Settles, Inv, Ending;
    if h >= |b.jobs| {
      NewJobsAreLive(b, a, h);
      NothingToSettle(b, a, h);
    } else if Terminal(b.jobs[h]) {
      ApplyInv(b, a);
      assert Evolves(b.jobs[h], Apply(b, a).jobs[h]);
    } else if TaskOf(a).Some? {
      TaskStepEvolves(b, a);
      if TaskOf(a).value == h {
        TaskStepSettles(b, a, h);
      } else {
        OtherTaskSettlesNothing(b, a, h);
      }
    } else {
      HandlerStepSettles(b, a, h);
    }
  }

  lemma NothingToSettle(b: Broker, a: Action, h: nat)
    requires Enabled(b, a) && h >= |b.jobs|
    ensures Settles(b, a, h) == None
  {
  }

  lemma OtherTaskSettlesNothing(b: Broker, a: Action, h: nat)
    requires Enabled(b, a) && TaskOf(a).Some? && TaskOf(a).value != h
    ensures Settles(b, a, h) == None
  {
  }

  // ----- Every run -----

  /** The broker before the i-th action of a run. */
  ghost function Before(b: Broker, actions: seq<Action>, i: nat): (c: Broker)
    requires Legal(b, actions) && i < |actions|
    ensures Enabled(c, actions[i])
    decreases i
  {
    if i == 0 then b else Before(Apply(b, actions[0]), actions[1..], i - 1)
  }

  ghost predicate SettledIn(b: Broker, actions: seq<Action>, h: nat, v: Settlement) {
    Legal(b, actions) && exists i | 0 <= i < |actions| :: Settles(Before(b, actions, i), actions[i], h) == Some(v)
  }

  lemma SettledInRest(b: Broker, actions: seq<Action>, h: nat, v: Settlement)
    requires Legal(b, actions) && actions != []
    ensures SettledIn(b, actions, h, v) <==>
            Settles(b, actions[0], h) == Some(v) || SettledIn(Apply(b, actions[0]), actions[1..], h, v)
  {
    hide Settles, Apply, Enabled;
    var c, rest := Apply(b, actions[0]), actions[1..];
    assert Before(b, actions, 0) == b;
    forall i | 0 <= i < |rest| ensures Before(b, actions, i + 1) == Before(c, rest, i) && rest[i] == actions[i + 1] {
    }
    if SettledIn(b, actions, h, v) {
      var i :| 0 <= i < |actions| && Settles(Before(b, actions, i), actions[i], h) == Some(v);
      if i > 0 {
        assert Settles(Before(c, rest, i - 1), rest[i - 1], h) == Some(v);
      }
    }
    if SettledIn(c, rest, h, v) {
      var i :| 0 <= i < |rest| && Settles(Before(c, rest, i), rest[i], h) == Some(v);
      assert Settles(Before(b, actions, i + 1), actions[i + 1], h) == Some(v);
    }
  }

  lemma {:induction false} RunSettles(b: Broker, actions: seq<Action>, h: nat, v: Settlement)
    requires Inv(b) && Legal(b, actions)
    ensures SettlementAt(Run(b, actions), h) == Some(v) <==>
            SettlementAt(b, h) == Some(v) || (SettlementAt(b, h).None? && SettledIn(b, actions, h, v))
    decreases |actions|
  {
    hide Settles, Inv, Apply, Enabled, SettlementAt;
    if actions != [] {
      var c := Apply(b, actions[0]);
      ApplyInv(b, actions[0]);
      StepSettles(b, actions[0], h);
      RunSettles(c, actions[1..], h, v);
      SettledInRest(b, actions, h, v);
      if SettlementAt(b, h).None? && SettlementAt(c, h).Some? {
        SettledOnce(c, actions[1..], h, v);
      }
    }
  }

  /** A job is settled by one step only. */
  lemma {:induction false} SettledOnce(b: Broker, actions: seq<Action>, h: nat, v: Settlement)
    requires Inv(b) && Legal(b, actions) && SettlementAt(b, h).Some?
    ensures !SettledIn(b, actions, h, v)
    decreases |actions|
  {
    hide Inv, Apply, Enabled, TaskEnds, CancelledAt, Ending;
    if actions != [] {
      ApplyInv(b, actions[0]);
      StepSettles(b, actions[0], h);
      SettledOnce(Apply(b, actions[0]), actions[1..], h, v);
      SettledInRest(b, actions, h, v);
    }
  }

  /** In every run, what is recorded of a settled job is what the step that settled it left: the end of its
      task, a DELETE or the shutdown, taken while the job was live. */
  lemma SettledAsItEnded(maxConcurrent: nat, maxTracked: nat, retention: int, actions: seq<Action>, h: nat, v: Settlement)
    requires Legal(Init(maxConcurrent, maxTracked, retention), actions)
    ensures var b := Init(maxConcurrent, maxTracked, retention);
      SettlementAt(Run(b, actions), h) == Some(v) <==> SettledIn(b, actions, h, v)
  {
    InvInit(maxConcurrent, maxTracked, retention);
    hide Inv, Settles;
    RunSettles(Init(maxConcurrent, maxTracked, retention), actions, h, v);
  }

  /** The container of a live job returned this result. */
  ghost predicate Returned(b: Broker, a: Action, h: nat, r: RunResult) {
    a.ExchangeEnds? && a.h == h && a.outcome == Done(r) && h < |b.jobs| && !Terminal(b.jobs[h])
  }

  lemma ReturnedIsSettled(b: Broker, a: Action, h: nat, r: RunResult)
    requires Enabled(b, a) && Returned(b, a, h, r)
    ensures a.ExchangeEnds? && Settles(b, a, h) == Some(Ending(Done(r), a.now))
  {
  }

  lemma SuccessIsReturned(b: Broker, a: Action, h: nat, v: Settlement)
    requires Enabled(b, a) && Settles(b, a, h) == Some(v) && v.state == Succeeded
    ensures v.result.Some? && Returned(b, a, h, v.result.value)
  {
  }

  /** A status request reports a result if and only if the container returned exactly this result while the
      job was live. */
  lemma ReportedIsReturned(maxConcurrent: nat, maxTracked: nat, retention: int, actions: seq<Action>, h: nat, r: RunResult)
    requires Legal(Init(maxConcurrent, maxTracked, retention), actions)
    ensures var b := Init(maxConcurrent, maxTracked, retention);
      var c := Run(b, actions);
      (h < |c.jobs| && ReportedResult(c.jobs[h]) == Some(r)) <==>
      exists i | 0 <= i < |actions| :: Returned(Before(b, actions, i), actions[i], h, r)
  {
    hide Settles, Returned, Init, Enabled, Legal, Run;
    var b := Init(maxConcurrent, maxTracked, retention);
    var c := Run(b, actions);
    if h < |c.jobs| && ReportedResult(c.jobs[h]) == Some(r) {
      var v := SettlementOf(c.jobs[h]).value;
      SettledAsItEnded(maxConcurrent, maxTracked, retention, actions, h, v);
      var i :| 0 <= i < |actions| && Settles(Before(b, actions, i), actions[i], h) == Some(v);
      SuccessIsReturned(Before(b, actions, i), actions[i], h, v);
    }
    if i :| 0 <= i < |actions| && Returned(Before(b, actions, i), actions[i], h, r) {
      ReturnedIsSettled(Before(b, actions, i), actions[i], h, r);
      var v := Ending(Done(r), actions[i].now);
      assert SettledIn(b, actions, h, v);
      SettledAsItEnded(maxConcurrent, maxTracked, retention, actions, h, v);
    }
  }

  /** A live job is reported as running exactly when its docker process exists. */
  lemma RunningIffAttached(b: Broker, h: nat)
    requires Reachable(b) && h < |b.jobs| && !Terminal(b.jobs[h])
    ensures b.jobs[h].state == Running <==> b.jobs[h].attached
    ensures b.jobs[h].state == Pending <==> b.jobs[h].phase.Scheduled? || b.jobs[h].phase.Starting?
  {
    ReachableInv(b);
    assert JobInv(b.jobs[h]);
  }

  lemma TaskStepMoves(j: Job, a: Action)
    requires JobInv(j) && TaskOf(a).Some? && (a.CleanupEnds? ==> j.phase.Cleaning?)
    ensures var k := TaskStep(j, a);
      && (a.TaskStarts? ==> k.phase == if j.cancelRequested then Ended else Starting)
      && (a.ProcessCreated? ==> k.attached && k.phase == if j.cancelRequested then TerminatingLate else Exchanging)
      && (a.ExchangeAborts? ==> k.phase == Cleaning(a.exit))
      && (a.ProcessFailed? || a.LateKillDone? || a.ExchangeEnds? || a.CleanupEnds? ==> k.phase == Ended)
      && k.released == (k.phase.Ended? || j.released)
  {
  }

  /** Where the background task stands after each of its steps: a job cancelled before its task began ends at once,
      one cancelled while its process was being created is killed as soon as it exists, and the end of a task gives
      the slot back. */
  lemma TaskMoves(b: Broker, a: Action, h: nat)
    requires Inv(b) && Enabled(b, a) && TaskOf(a) == Some(h) && h < |b.jobs|
    ensures |Apply(b, a).jobs| == |b.jobs|
    ensures var j, k := b.jobs[h], Apply(b, a).jobs[h];
      && (a.TaskStarts? ==> k.phase == if j.cancelRequested then Ended else Starting)
      && (a.ProcessCreated? ==> k.attached && k.phase == if j.cancelRequested then TerminatingLate else Exchanging)
      && (a.ExchangeAborts? ==> k.phase == Cleaning(a.exit))
      && (a.ProcessFailed? || a.LateKillDone? || a.ExchangeEnds? || a.CleanupEnds? ==> k.phase == Ended)
      && k.released == (k.phase.Ended? || j.released)
    ensures forall g: nat | g < |b.jobs| && g != h :: Apply(b, a).jobs[g] == b.jobs[g]
  {
    TaskStepEvolves(b, a);
    assert JobInv(b.jobs[h]);
    TaskStepMoves(b.jobs[h], a);
    hide TaskStep, Inv, JobInv, Apply;
  }
}
