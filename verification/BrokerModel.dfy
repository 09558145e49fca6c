/** The sandbox broker's job lifecycle as a transition system
    (backend/app/sandbox_broker.py). One action is one stretch of code between
    two suspension points, so the actions interleave exactly as the coroutines do.
    Wall-clock readings are arbitrary: nothing here assumes that time moves forward. */
module BrokerModel {
  import opened Contracts
  import opened Wrappers

  // ----- One job -----

  datatype RunResult = RunResult(stdout: string, stderr: string, exitCode: int)

  /** How the container run leaves by exception. */
  datatype Exit = Http(status: int, detail: string) | TaskCancelled | Crashed

  /** Where the background task of a job is suspended. */
  datatype Phase =
    | Scheduled              // created, not yet run
    | Starting               // awaiting creation of the docker process
    | TerminatingLate        // attached after a cancel, awaiting the kill
    | Exchanging             // awaiting the container's output
    | Cleaning(exit: Exit)   // awaiting the cleanup of an aborted exchange
    | Ended

  datatype Job = Job(
    id: string,
    createdAt: int,
    updatedAt: int,
    state: JobState,
    attached: bool,
    result: Option<RunResult>,
    resultCode: Option<ResultCode>,
    errorCode: Option<ErrorCode>,
    detail: Option<string>,
    cancelRequested: bool,
    released: bool,
    phase: Phase)

  function NewJob(id: string, now: int): Job {
    Job(id, now, now, Pending, false, None, None, None, None, false, false, Scheduled)
  }

  predicate Terminal(j: Job) {
    IsTerminal(j.state)
  }

  function SetState(j: Job, target: JobState, now: int): Job {
    if j.state == target || !CanTransition(j.state, target) then j
    else j.(state := target, updatedAt := now)
  }

  function Attach(j: Job, now: int): Job {
    var k := j.(attached := true);
    if k.state == Pending && !k.cancelRequested then SetState(k, Running, now) else k
  }

  function FinishSuccess(j: Job, result: RunResult, now: int): Job {
    if Terminal(j) then j else
    SetState(j.(result := Some(result),
                resultCode := Some(if result.exitCode == 0 then Ok else NonzeroExit)),
             Succeeded, now)
  }

  predicate Contains(text: string, part: string) {
    part <= text || (text != [] && Contains(text[1..], part))
  }

  function FailureCode(status: int, detail: string): ErrorCode {
    if status == 413 then OutputLimitExceeded
    else if status == 503 then SandboxUnavailable
    else if status == 502 && Contains(detail, "Invalid") then InvalidSandboxResponse
    else ExecutionFailed
  }

  function FinishFromHttp(j: Job, status: int, detail: string, now: int): Job {
    if Terminal(j) then j
    else if status == 504 then
      SetState(j.(errorCode := Some(ExecutionTimeout), detail := Some(detail)), TimedOut, now)
    else
      SetState(j.(errorCode := Some(FailureCode(status, detail)), detail := Some(detail)), Failed, now)
  }

  /** The except branches of the background task. */
  function FinishExit(j: Job, exit: Exit, now: int): Job {
    match exit
    case Http(status, detail) => FinishFromHttp(j, status, detail, now)
    case TaskCancelled =>
      if Terminal(j) then j else SetState(j.(errorCode := Some(CancelledByClient)), Cancelled, now)
    case Crashed =>
      if Terminal(j) then j
      else SetState(j.(errorCode := Some(ExecutionFailed), detail := Some("Sandbox execution failed")), Failed, now)
  }

  /** The finally branch of the background task. */
  function EndTask(j: Job): Job {
    j.(phase := Ended, released := true)
  }

  /** What DELETE and shutdown do to a live job. */
  function MarkCancelled(j: Job, now: int): Job {
    var k := j.(cancelRequested := true,
                errorCode := if j.errorCode.None? then Some(CancelledByClient) else j.errorCode);
    SetState(k, Cancelled, now)
  }

  // ----- Capacity slots: an asyncio semaphore -----

  /** `granted` counts waiters that were handed a slot and have not resumed yet. */
  datatype Slots = Slots(free: nat, waiting: nat, granted: nat, holding: nat) {
    predicate Locked() {
      free == 0 || waiting + granted > 0
    }

    function WakeNext(): Slots {
      if waiting > 0 && free > 0 then Slots(free - 1, waiting - 1, granted + 1, holding) else this
    }

    function Release(): Slots {
      this.(free := free + 1).WakeNext()
    }

    function Held(): nat {
      granted + holding
    }
  }

  // ----- The broker -----

  /** Shutdown awaits the kill of `current`, then goes on with `rest`. */
  datatype Sweep = Sweep(current: nat, rest: seq<nat>)

  /** `jobs` lists every job ever created, so that one forgotten by `table` is still
      accounted for; a job is named by its position there. `cancels` holds
      the DELETE handlers that are awaiting a kill. */
  datatype Broker = Broker(
    maxConcurrent: nat,
    maxTracked: nat,
    retention: int,
    slots: Slots,
    jobs: seq<Job>,
    table: map<string, nat>,
    cancels: multiset<nat>,
    sweep: Option<Sweep>)

  function Init(maxConcurrent: nat, maxTracked: nat, retention: int): Broker {
    Broker(maxConcurrent, maxTracked, retention, Slots(maxConcurrent, 0, 0, 0), [], map[], multiset{}, None)
  }

  ghost predicate InRange(b: Broker) {
    && (forall id <- b.table :: b.table[id] < |b.jobs|)
    && (forall h <- b.cancels :: h < |b.jobs|)
    && (b.sweep.Some? ==> b.sweep.value.current < |b.jobs| && AllBelow(b.sweep.value.rest, |b.jobs|))
  }

  predicate AllBelow(handles: seq<nat>, n: nat) {
    forall i | 0 <= i < |handles| :: handles[i] < n
  }

  /** Replaces job `h`; the slot goes back exactly when its `released` flag rises. */
  function Update(b: Broker, h: nat, j: Job): Broker
    requires h < |b.jobs|
  {
    b.(jobs := b.jobs[h := j],
       slots := if j.released && !b.jobs[h].released then b.slots.Release() else b.slots)
  }

  predicate Stale(j: Job, retention: int, now: int) {
    Terminal(j) && now - j.updatedAt > retention
  }

  ghost function Reap(b: Broker, now: int): (r: Broker)
    requires InRange(b)
    ensures InRange(r)
  {
    b.(table := map id | id in b.table && !Stale(b.jobs[b.table[id]], b.retention, now) :: b.table[id])
  }

  /** Python's order on strings. */
  predicate LexLe(a: string, b: string) {
    a == [] || (b != [] && (a[0] < b[0] || (a[0] == b[0] && LexLe(a[1..], b[1..]))))
  }

  predicate OlderOrEqual(t: int, id: string, t': int, id': string) {
    t < t' || (t == t' && LexLe(id, id'))
  }

  ghost predicate TerminalId(b: Broker, id: string)
    requires InRange(b)
  {
    id in b.table && Terminal(b.jobs[b.table[id]])
  }

  ghost predicate IsOldest(b: Broker, id: string)
    requires InRange(b)
  {
    && TerminalId(b, id)
    && forall o | TerminalId(b, o) ::
         OlderOrEqual(b.jobs[b.table[id]].updatedAt, id, b.jobs[b.table[o]].updatedAt, o)
  }

  ghost function Forget(b: Broker, id: string): (r: Broker)
    requires InRange(b)
    ensures InRange(r)
  {
    b.(table := b.table - {id})
  }

  datatype SubmitReply = Accepted | AlreadyExists | TooManyTracked | NoCapacity

  /** Entering submit: reap, then make room when the table is full. The second
      component tells whether room was found. */
  ghost function MakeRoom(b: Broker): (r: (Broker, bool))
    requires InRange(b)
    ensures InRange(r.0)
  {
    if |b.table| < b.maxTracked then (b, true)
    else if id :| IsOldest(b, id) then (Forget(b, id), true)
    else (b, false)
  }

  ghost function Admit(b: Broker, id: string, now: int): (r: Broker)
    requires InRange(b) && b.slots.free > 0
    ensures InRange(r)
  {
    b.(slots := b.slots.(free := b.slots.free - 1),
       jobs := b.jobs + [NewJob(id, now)],
       table := b.table[id := |b.jobs|])
  }

  ghost function Submit(b: Broker, id: string, now: int): (r: (Broker, SubmitReply))
    requires InRange(b)
    ensures InRange(r.0)
  {
    var b1 := Reap(b, now);
    if id in b1.table then (b1, AlreadyExists) else
    var (b2, room) := MakeRoom(b1);
    if !room then (b2, TooManyTracked)
    else if b2.slots.Locked() then (b2, NoCapacity)
    else (Admit(b2, id, now), Accepted)
  }

  /** DELETE up to its first suspension. A job without a process has nothing to
      kill, so its slot goes back in the same stretch. */
  function CancelJob(j: Job, now: int): Job {
    var k := MarkCancelled(j, now);
    if j.attached then k else k.(released := true)
  }

  ghost function Delete(b: Broker, id: string, now: int): Broker
    requires InRange(b)
  {
    if id !in b.table || Terminal(b.jobs[b.table[id]]) then b else
    var h := b.table[id];
    var c := Update(b, h, CancelJob(b.jobs[h], now));
    if b.jobs[h].attached then c.(cancels := c.cancels + multiset{h}) else c
  }

  /** The shutdown loop from one suspension to the next. */
  ghost function SweepOn(b: Broker, rest: seq<nat>, now: int): Broker
    requires AllBelow(rest, |b.jobs|)
    decreases |rest|
  {
    if rest == [] then b.(sweep := None) else
    var h := rest[0];
    if Terminal(b.jobs[h]) then SweepOn(b, rest[1..], now) else
    var c := Update(b, h, CancelJob(b.jobs[h], now));
    if b.jobs[h].attached then c.(sweep := Some(Sweep(h, rest[1..])))
    else SweepOn(c, rest[1..], now)
  }

  /** The tracked jobs in insertion order, which is the order of creation. */
  ghost function Tracked(b: Broker, n: nat): (r: seq<nat>)
    requires n <= |b.jobs|
    ensures AllBelow(r, n)
  {
    if n == 0 then [] else
    Tracked(b, n - 1) + if n - 1 in b.table.Values then [n - 1] else []
  }

  // ----- Actions -----

  datatype Outcome = Done(result: RunResult) | Left(exit: Exit)

  datatype Action =
    | DoSubmit(id: string, now: int)
    | DoGet(id: string, now: int)
    | DoDelete(id: string, now: int)
    | DeleteResumes(h: nat)
    | TaskStarts(h: nat)
    | ProcessCreated(h: nat, now: int)
    | ProcessFailed(h: nat, exit: Exit, now: int)
    | LateKillDone(h: nat, now: int)
    | ExchangeEnds(h: nat, outcome: Outcome, now: int)
    | ExchangeAborts(h: nat, exit: Exit)
    | CleanupEnds(h: nat, cancelledMeanwhile: bool, now: int)
    | ShutdownStarts(now: int)
    | ShutdownResumes(now: int)
    | ExecuteArrives
    | ExecuteGivesUp
    | ExecuteGranted
    | ExecuteDropsGrant
    | ExecuteEnds

  /** docker is missing, something else fails, or the task is cancelled while it waits. */
  predicate StartFailure(exit: Exit) {
    exit.Http? ==> exit == Http(503, "Sandbox runtime unavailable")
  }

  /** The deadline, the output limit, a failing stream, or a cancelled task. */
  predicate AbortReason(exit: Exit) {
    exit.Http? ==> exit in {Http(504, "Sandbox execution timed out"), Http(413, "Sandbox output exceeds limit")}
  }

  /** The container answered, but not with a usable result. */
  predicate AnswerFailure(exit: Exit) {
    && !exit.TaskCancelled?
    && (exit.Http? ==> exit in {Http(502, "Sandbox execution failed"), Http(502, "Invalid sandbox response"),
                                Http(502, "Invalid sandbox artifact response")})
  }

  ghost predicate InPhase(b: Broker, h: nat, p: Phase) {
    h < |b.jobs| && b.jobs[h].phase == p
  }

  ghost predicate Enabled(b: Broker, a: Action) {
    InRange(b) &&
    match a
    case DoSubmit(_, _) => true
    case DoGet(_, _) => true
    case DoDelete(_, _) => true
    case DeleteResumes(h) => h in b.cancels
    case TaskStarts(h) => InPhase(b, h, Scheduled)
    case ProcessCreated(h, _) => InPhase(b, h, Starting)
    case ProcessFailed(h, exit, _) => InPhase(b, h, Starting) && StartFailure(exit)
    case LateKillDone(h, _) => InPhase(b, h, TerminatingLate)
    case ExchangeEnds(h, outcome, _) => InPhase(b, h, Exchanging) && (outcome.Left? ==> AnswerFailure(outcome.exit))
    case ExchangeAborts(h, exit) => InPhase(b, h, Exchanging) && AbortReason(exit)
    case CleanupEnds(h, _, _) => h < |b.jobs| && b.jobs[h].phase.Cleaning?
    case ShutdownStarts(_) => b.sweep.None?
    case ShutdownResumes(_) => b.sweep.Some?
    case ExecuteArrives => true
    case ExecuteGivesUp => b.slots.waiting > 0
    case ExecuteGranted => b.slots.granted > 0
    case ExecuteDropsGrant => b.slots.granted > 0
    case ExecuteEnds => b.slots.holding > 0
  }

  /** First stretch of the task: a job cancelled before it ran never starts a container. */
  function StartTask(j: Job): Job {
    if j.cancelRequested then EndTask(j) else j.(phase := Starting)
  }

  function AttachTask(j: Job, now: int): Job {
    var k := Attach(j, now);
    k.(phase := if k.cancelRequested then TerminatingLate else Exchanging)
  }

  function FinishTask(j: Job, outcome: Outcome, now: int): Job {
    EndTask(match outcome
            case Done(result) => FinishSuccess(j, result, now)
            case Left(exit) => FinishExit(j, exit, now))
  }

  ghost function Apply(b: Broker, a: Action): Broker
    requires Enabled(b, a)
  {
    match a
    case DoSubmit(id, now) => Submit(b, id, now).0
    case DoGet(_, now) => Reap(b, now)
    case DoDelete(id, now) => Delete(b, id, now)
    case DeleteResumes(h) => Update(b, h, b.jobs[h].(released := true)).(cancels := b.cancels - multiset{h})
    case TaskStarts(h) => Update(b, h, StartTask(b.jobs[h]))
    case ProcessCreated(h, now) => Update(b, h, AttachTask(b.jobs[h], now))
    case ProcessFailed(h, exit, now) => Update(b, h, FinishTask(b.jobs[h], Left(exit), now))
    case LateKillDone(h, now) => Update(b, h, FinishTask(b.jobs[h], Left(TaskCancelled), now))
    case ExchangeEnds(h, outcome, now) => Update(b, h, FinishTask(b.jobs[h], outcome, now))
    case ExchangeAborts(h, exit) => Update(b, h, b.jobs[h].(phase := Cleaning(exit)))
    case CleanupEnds(h, cancelledMeanwhile, now) =>
      Update(b, h, FinishTask(b.jobs[h], Left(if cancelledMeanwhile then TaskCancelled else b.jobs[h].phase.exit), now))
    case ShutdownStarts(now) => SweepOn(b, Tracked(b, |b.jobs|), now)
    case ShutdownResumes(now) =>
      var h := b.sweep.value.current;
      SweepOn(Update(b, h, b.jobs[h].(released := true)), b.sweep.value.rest, now)
    case ExecuteArrives =>
      b.(slots := if b.slots.Locked() then b.slots.(waiting := b.slots.waiting + 1)
                  else b.slots.(free := b.slots.free - 1, holding := b.slots.holding + 1))
    case ExecuteGivesUp => b.(slots := b.slots.(waiting := b.slots.waiting - 1))
    case ExecuteGranted =>
      b.(slots := b.slots.(granted := b.slots.granted - 1, holding := b.slots.holding + 1).WakeNext())
    case ExecuteDropsGrant => b.(slots := b.slots.(granted := b.slots.granted - 1).Release())
    case ExecuteEnds => b.(slots := b.slots.(holding := b.slots.holding - 1).Release())
  }

  // ----- Runs -----

  ghost predicate Legal(b: Broker, actions: seq<Action>)
    decreases |actions|
  {
    actions == [] || (Enabled(b, actions[0]) && Legal(Apply(b, actions[0]), actions[1..]))
  }

  ghost function Run(b: Broker, actions: seq<Action>): Broker
    requires Legal(b, actions)
    decreases |actions|
  {
    if actions == [] then b else Run(Apply(b, actions[0]), actions[1..])
  }

  // ----- Reports -----

  /** The body of a status answer (state, codes and, once succeeded, the result). */
  function ReportedResult(j: Job): Option<RunResult> {
    if j.state == Succeeded then j.result else None
  }

  datatype Capacity = Capacity(maxConcurrent: nat, inUse: int, available: int, activeJobs: nat, trackedJobs: nat)

  ghost function ActiveIds(b: Broker): set<string>
    requires InRange(b)
  {
    set id | id in b.table && b.jobs[b.table[id]].state in {Pending, Running}
  }

  ghost function CapacityReport(b: Broker): Capacity
    requires InRange(b)
  {
    var inUse := b.maxConcurrent - b.slots.free;
    Capacity(b.maxConcurrent, if inUse < 0 then 0 else inUse, b.slots.free, |ActiveIds(b)|, |b.table|)
  }
}
