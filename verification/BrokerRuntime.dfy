/** The broker's mutable objects: job records updated in place, the job table and the
    semaphore. Every method runs between two suspension points and is proved to do to the abstract
    broker exactly what the transition system says (backend/app/sandbox_broker.py). */
module BrokerRuntime {
  import opened Contracts
  import opened Wrappers
  import M = BrokerModel
  import C = BrokerCapacity

  class JobRecord {
    const handle: nat
    const id: string
    const createdAt: int
    var updatedAt: int
    var state: JobState
    var attached: bool
    var result: Option<M.RunResult>
    var resultCode: Option<ResultCode>
    var errorCode: Option<ErrorCode>
    var detail: Option<string>
    var cancelRequested: bool
    var released: bool
    var phase: M.Phase

    function View(): M.Job
      reads this
    {
      M.Job(id, createdAt, updatedAt, state, attached, result, resultCode, errorCode, detail,
            cancelRequested, released, phase)
    }

    constructor (handle: nat, id: string, now: int)
      ensures this.handle == handle && View() == M.NewJob(id, now)
    {
      this.handle, this.id, createdAt, updatedAt := handle, id, now, now;
      state, attached, phase := Pending, false, M.Scheduled;
      result, resultCode, errorCode, detail := None, None, None, None;
      cancelRequested, released := false, false;
    }

    method SetState(target: JobState, now: int) returns (ok: bool)
      modifies this
      ensures View() == M.SetState(old(View()), target, now)
      ensures ok <==> state == target
    {
      if state == target {
        return true;
      }
      if !CanTransition(state, target) {
        return false;
      }
      state := target;
      updatedAt := now;
      ok := true;
    }

    method Attach(now: int)
      modifies this
      ensures View() == M.Attach(old(View()), now)
    {
      attached := true;
      if state == Pending && !cancelRequested {
        var _ := SetState(Running, now);
      }
    }

    method FinishSuccess(r: M.RunResult, now: int)
      modifies this
      ensures View() == M.FinishSuccess(old(View()), r, now)
    {
      if IsTerminal(state) {
        return;
      }
      result := Some(r);
      resultCode := Some(if r.exitCode == 0 then Ok else NonzeroExit);
      var _ := SetState(Succeeded, now);
    }

    method FinishFromHttp(status: int, text: string, now: int)
      modifies this
      ensures View() == M.FinishFromHttp(old(View()), status, text, now)
    {
      if IsTerminal(state) {
        return;
      }
      if status == 504 {
        errorCode := Some(ExecutionTimeout);
        detail := Some(text);
        var _ := SetState(TimedOut, now);
        return;
      }
      if status == 413 {
        errorCode := Some(OutputLimitExceeded);
      } else if status == 503 {
        errorCode := Some(SandboxUnavailable);
      } else if status == 502 && M.Contains(text, "Invalid") {
        errorCode := Some(InvalidSandboxResponse);
      } else {
        errorCode := Some(ExecutionFailed);
      }
      detail := Some(text);
      var _ := SetState(Failed, now);
    }

    /** The except branches around the container run. */
    method FinishExit(exit: M.Exit, now: int)
      modifies this
      ensures View() == M.FinishExit(old(View()), exit, now)
    {
      match exit
      case Http(status, text) => FinishFromHttp(status, text, now);
      case TaskCancelled =>
        if !IsTerminal(state) {
          errorCode := Some(CancelledByClient);
          var _ := SetState(Cancelled, now);
        }
      case Crashed =>
        if !IsTerminal(state) {
          errorCode := Some(ExecutionFailed);
          detail := Some("Sandbox execution failed");
          var _ := SetState(Failed, now);
        }
    }

    method MarkCancelled(now: int)
      modifies this
      ensures View() == M.MarkCancelled(old(View()), now)
    {
      cancelRequested := true;
      if errorCode.None? {
        errorCode := Some(CancelledByClient);
      }
      var _ := SetState(Cancelled, now);
    }
  }

  ghost function Views(js: seq<JobRecord>): (r: seq<M.Job>)
    reads js
    ensures |r| == |js| && forall h | 0 <= h < |js| :: r[h] == js[h].View()
  {
    seq(|js|, h requires 0 <= h < |js| reads js => js[h].View())
  }

  ghost function Handles(js: seq<JobRecord>): (r: seq<nat>)
    ensures |r| == |js| && forall i | 0 <= i < |js| :: r[i] == js[i].handle
  {
    seq(|js|, i requires 0 <= i < |js| => js[i].handle)
  }

  lemma NoHandles()
    ensures Handles([]) == []
  {
  }

  lemma HandlesGrow(js: seq<JobRecord>, j: JobRecord)
    ensures Handles(js + [j]) == Handles(js) + [j.handle]
  {
  }

  ghost function TableOf(table: map<string, JobRecord>): map<string, nat> {
    map id | id in table :: table[id].handle
  }

  ghost function SweepOf(sweep: Option<SweepRecord>): Option<M.Sweep> {
    if sweep.None? then None else Some(M.Sweep(sweep.value.current.handle, Handles(sweep.value.rest)))
  }

  datatype SweepRecord = SweepRecord(current: JobRecord, rest: seq<JobRecord>)

  class LiveBroker {
    const maxConcurrent: nat
    const maxTracked: nat
    const retention: int
    var slots: M.Slots
    var jobs: seq<JobRecord>               // every job ever created, in order of creation
    var table: map<string, JobRecord>      // the jobs the broker still knows
    ghost var cancels: multiset<nat>       // DELETE handlers awaiting a kill
    var sweep: Option<SweepRecord>

    predicate Known(j: JobRecord)
      reads this
    {
      j.handle < |jobs| && jobs[j.handle] == j
    }

    ghost predicate Valid()
      reads this
    {
      && (forall h | 0 <= h < |jobs| :: jobs[h].handle == h)
      && (forall id <- table :: Known(table[id]))
      && (forall h <- cancels :: h < |jobs|)
      && (sweep.Some? ==> Known(sweep.value.current) && AllKnown(sweep.value.rest))
    }

    predicate AllKnown(js: seq<JobRecord>)
      reads this
    {
      forall i | 0 <= i < |js| :: Known(js[i])
    }

    ghost function View(): (b: M.Broker)
      reads this, jobs
      requires Valid()
      ensures M.InRange(b)
    {
      M.Broker(maxConcurrent, maxTracked, retention, slots, Views(jobs), TableOf(table), cancels, SweepOf(sweep))
    }

    constructor (maxConcurrent: nat, maxTracked: nat, retention: int)
      ensures Valid() && View() == M.Init(maxConcurrent, maxTracked, retention)
    {
      this.maxConcurrent, this.maxTracked, this.retention := maxConcurrent, maxTracked, retention;
      slots := M.Slots(maxConcurrent, 0, 0, 0);
      jobs, table, cancels, sweep := [], map[], multiset{}, None;
    }

    /** One record changed, and the semaphore moved with its `released` flag. */
    twostate lemma OneJobChanged(j: JobRecord)
      requires old(Valid()) && Valid() && old(Known(j))
      requires jobs == old(jobs) && table == old(table) && cancels == old(cancels) && sweep == old(sweep)
      requires forall h | 0 <= h < |jobs| && jobs[h] != j :: unchanged(jobs[h])
      requires slots == if j.released && !old(j.released) then old(slots).Release() else old(slots)
      ensures View() == M.Update(old(View()), j.handle, j.View())
    {
      assert Views(jobs) == old(Views(jobs))[j.handle := j.View()];
    }

    method ReleaseOnce(j: JobRecord)
      requires Valid() && Known(j)
      modifies this`slots, j`released
      ensures Valid() && j.released
      ensures slots == if old(j.released) then old(slots) else old(slots).Release()
      ensures View() == M.Update(old(View()), j.handle, old(j.View()).(released := true))
    {
      if !j.released {
        j.released := true;
        slots := slots.Release();
      }
      OneJobChanged(j);
    }

    method StaleIds(now: int) returns (stale: set<string>)
      requires Valid()
      ensures stale == set id | id in table && M.Stale(table[id].View(), retention, now)
    {
      stale := {};
      var rest := table.Keys;
      while rest != {}
        invariant rest <= table.Keys
        invariant stale == set id | id in table && id !in rest && M.Stale(table[id].View(), retention, now)
      {
        var id :| id in rest;
        rest := rest - {id};
        var j := table[id];
        if IsTerminal(j.state) && now - j.updatedAt > retention {
          stale := stale + {id};
        }
      }
    }

    /** `dict.pop(id, None)` */
    method Pop(id: string)
      requires Valid()
      modifies this`table
      ensures Valid() && table == old(table) - {id} && View() == M.Forget(old(View()), id)
    {
      table := table - {id};
      assert TableOf(table) == TableOf(old(table)) - {id};
    }

    lemma ReapedTable(now: int, left: map<string, JobRecord>)
      requires Valid()
      requires left == table - (set id | id in table && M.Stale(table[id].View(), retention, now))
      ensures View().(table := TableOf(left)) == M.Reap(View(), now)
    {
      assert TableOf(left) == M.Reap(View(), now).table;
    }

    method PopAll(ids: set<string>)
      requires Valid()
      modifies this`table
      ensures Valid() && table == old(table) - ids && View() == old(View()).(table := TableOf(table))
    {
      hide TableOf, Views;
      var pending := ids;
      while pending != {}
        invariant pending <= ids && Valid()
        invariant table == old(table) - (ids - pending)
      {
        var id :| id in pending;
        assert ids - (pending - {id}) == (ids - pending) + {id};
        pending := pending - {id};
        Pop(id);
      }
      assert ids - pending == ids;
    }

    method ReapLocked(now: int)
      requires Valid()
      modifies this`table
      ensures Valid() && View() == M.Reap(old(View()), now)
    {
      var stale := StaleIds(now);
      ReapedTable(now, table - stale);
      PopAll(stale);
    }

    /** The terminal job with the least (updated_at, job_id), if there is one. */
    method OldestTerminal() returns (found: bool, oldest: string)
      requires Valid()
      ensures found ==> M.IsOldest(View(), oldest)
      ensures !found ==> forall id <- table :: !IsTerminal(table[id].state)
    {
      found, oldest := false, "";
      var rest := table.Keys;
      while rest != {}
        invariant rest <= table.Keys
        invariant found ==> oldest in table && IsTerminal(table[oldest].state)
        invariant !found ==> forall id <- table | id !in rest :: !IsTerminal(table[id].state)
        invariant found ==> forall id <- table | id !in rest && IsTerminal(table[id].state) ::
                    M.OlderOrEqual(table[oldest].updatedAt, oldest, table[id].updatedAt, id)
      {
        var id :| id in rest;
        rest := rest - {id};
        if IsTerminal(table[id].state) {
          C.LexTotal(id, id);
          if !found {
            found, oldest := true, id;
          } else if !M.OlderOrEqual(table[oldest].updatedAt, oldest, table[id].updatedAt, id) {
            C.LexTotal(oldest, id);
            NewOldest(oldest, id, rest);
            oldest := id;
          }
        }
      }
    }

    lemma NewOldest(before: string, id: string, rest: set<string>)
      requires Valid() && before in table && id in table
      requires M.OlderOrEqual(table[id].updatedAt, id, table[before].updatedAt, before)
      requires forall o <- table | o !in rest && o != id && IsTerminal(table[o].state) ::
                 M.OlderOrEqual(table[before].updatedAt, before, table[o].updatedAt, o)
      ensures forall o <- table | o !in rest && o != id && IsTerminal(table[o].state) ::
                M.OlderOrEqual(table[id].updatedAt, id, table[o].updatedAt, o)
    {
      forall o | o in table && o !in rest && o != id && IsTerminal(table[o].state)
        ensures M.OlderOrEqual(table[id].updatedAt, id, table[o].updatedAt, o)
      {
        if M.LexLe(id, before) && M.LexLe(before, o) {
          C.LexTransitive(id, before, o);
        }
      }
    }

    method EvictOldestTerminalLocked() returns (evicted: bool)
      requires Valid()
      modifies this`table
      ensures Valid()
      ensures evicted <==> exists id :: M.IsOldest(old(View()), id)
      ensures forall id | M.IsOldest(old(View()), id) :: View() == M.Forget(old(View()), id)
      ensures !evicted ==> View() == old(View())
    {
      var oldest;
      evicted, oldest := OldestTerminal();
      if evicted {
        ghost var b := View();
        Pop(oldest);
        forall id | M.IsOldest(b, id) ensures id == oldest {
          C.OldestIsUnique(b, id, oldest);
        }
      }
    }

    // ----- The handlers -----

    method MakeRoomLocked() returns (room: bool)
      requires Valid()
      modifies this`table
      ensures Valid() && (View(), room) == M.MakeRoom(old(View()))
    {
      ghost var b := View();
      assert |b.table| == |table| by {
        assert b.table.Keys == table.Keys;
      }
      room := true;
      if |table| >= maxTracked {
        room := EvictOldestTerminalLocked();
        C.EvictionMakesRoom(b, room, View());
      }
    }

    method AdmitLocked(id: string, now: int) returns (j: JobRecord)
      requires Valid() && slots.free > 0
      modifies this`slots, this`jobs, this`table
      ensures Valid() && fresh(j) && jobs == old(jobs) + [j]
      ensures View() == M.Admit(old(View()), id, now)
    {
      slots := slots.(free := slots.free - 1);
      j := new JobRecord(|jobs|, id, now);
      jobs := jobs + [j];
      table := table[id := j];
      assert Views(jobs) == old(Views(jobs)) + [j.View()];
      assert TableOf(table) == old(TableOf(table))[id := |old(jobs)|];
    }

    method SubmitLocked(id: string, now: int) returns (reply: M.SubmitReply)
      requires Valid()
      modifies this`slots, this`jobs, this`table
      ensures Valid() && (View(), reply) == M.Submit(old(View()), id, now)
      ensures fresh(set j | j in jobs && j !in old(jobs))
    {
      ReapLocked(now);
      if id in table {
        return M.AlreadyExists;
      }
      var room := MakeRoomLocked();
      if !room {
        return M.TooManyTracked;
      }
      if slots.Locked() {
        return M.NoCapacity;
      }
      var j := AdmitLocked(id, now);
      reply := M.Accepted;
    }

    method GetLocked(id: string, now: int) returns (report: Option<M.Job>)
      requires Valid()
      modifies this`table
      ensures Valid() && View() == M.Reap(old(View()), now)
      ensures report == if id in View().table then Some(View().jobs[View().table[id]]) else None
    {
      ReapLocked(now);
      report := None;
      if id in table {
        report := Some(table[id].View());
      }
    }

    /** What DELETE and shutdown do before they wait for the kill; without a process there is
        no wait, and the slot goes back at once. */
    method CancelRecord(j: JobRecord, now: int)
      requires Valid() && Known(j)
      modifies this`slots, j
      ensures Valid() && View() == M.Update(old(View()), j.handle, M.CancelJob(old(j.View()), now))
    {
      j.MarkCancelled(now);
      if !j.attached {
        ReleaseOnce(j);
      }
      OneJobChanged(j);
    }

    /** DELETE up to the kill; the answer is the record it goes on to release. */
    method DeleteLocked(id: string, now: int) returns (live: Option<JobRecord>)
      requires Valid()
      modifies this`slots, this`cancels, jobs
      ensures Valid() && View() == M.Delete(old(View()), id, now)
      ensures live == if id in table && !IsTerminal(old(table[id].state)) then Some(table[id]) else None
    {
      live := None;
      if id in table && !IsTerminal(table[id].state) {
        var j := table[id];
        live := Some(j);
        var attached := j.attached;
        ghost var b := View();
        assert b.table[id] == j.handle && b.jobs[j.handle] == j.View();
        CancelRecord(j, now);
        if attached {
          AddCancel(j);
        }
      }
    }

    /** The handler now awaits the kill of `j`. */
    ghost method AddCancel(j: JobRecord)
      requires Valid() && Known(j)
      modifies this`cancels
      ensures Valid() && View() == old(View()).(cancels := old(View()).cancels + multiset{j.handle})
    {
      hide Views, TableOf, Handles;
      cancels := cancels + multiset{j.handle};
    }

    /** The kill is done: the handler goes on. */
    ghost method DropCancel(j: JobRecord)
      requires Valid() && Known(j)
      modifies this`cancels
      ensures Valid() && View() == old(View()).(cancels := old(View()).cancels - multiset{j.handle})
    {
      hide Views, TableOf, Handles;
      cancels := cancels - multiset{j.handle};
    }

    method DeleteResumes(j: JobRecord)
      requires Valid() && Known(j) && j.handle in cancels
      modifies this`slots, this`cancels, j`released
      ensures Valid() && View() == M.Apply(old(View()), M.DeleteResumes(j.handle))
    {
      ghost var b := View();
      assert b.jobs[j.handle] == j.View();
      assert M.Apply(b, M.DeleteResumes(j.handle))
          == M.Update(b, j.handle, j.View().(released := true)).(cancels := b.cancels - multiset{j.handle});
      hide M.Apply, M.Update, Views;
      ReleaseOnce(j);
      DropCancel(j);
    }

    // ----- The background task -----

    method EndTask(j: JobRecord)
      requires Valid() && Known(j)
      modifies this`slots, j`released, j`phase
      ensures Valid() && j.View() == M.EndTask(old(j.View()))
      ensures slots == if old(j.released) then old(slots) else old(slots).Release()
    {
      ReleaseOnce(j);
      j.phase := M.Ended;
    }

    method TaskStarts(j: JobRecord)
      requires Valid() && Known(j) && j.phase == M.Scheduled
      modifies this`slots, j
      ensures Valid() && View() == M.Apply(old(View()), M.TaskStarts(j.handle))
    {
      if j.cancelRequested {
        EndTask(j);
      } else {
        j.phase := M.Starting;
      }
      OneJobChanged(j);
    }

    /** The docker process exists: a cancel that came first is honoured now. */
    method ProcessCreated(j: JobRecord, now: int)
      requires Valid() && Known(j) && j.phase == M.Starting
      modifies this`slots, j
      ensures Valid() && View() == M.Apply(old(View()), M.ProcessCreated(j.handle, now))
    {
      j.Attach(now);
      if j.cancelRequested {
        j.phase := M.TerminatingLate;
      } else {
        j.phase := M.Exchanging;
      }
      OneJobChanged(j);
    }

    /** The container run returned or raised, and nothing is left to wait for. */
    method FinishTask(j: JobRecord, outcome: M.Outcome, now: int)
      requires Valid() && Known(j)
      modifies this`slots, j
      ensures Valid() && View() == M.Update(old(View()), j.handle, M.FinishTask(old(j.View()), outcome, now))
    {
      match outcome {
        case Done(r) => j.FinishSuccess(r, now);
        case Left(exit) => j.FinishExit(exit, now);
      }
      EndTask(j);
      OneJobChanged(j);
    }

    method ExchangeAborts(j: JobRecord, exit: M.Exit)
      requires Valid() && Known(j) && j.phase == M.Exchanging && M.AbortReason(exit)
      modifies j`phase
      ensures Valid() && View() == M.Apply(old(View()), M.ExchangeAborts(j.handle, exit))
    {
      j.phase := M.Cleaning(exit);
      OneJobChanged(j);
    }

    method CleanupEnds(j: JobRecord, cancelledMeanwhile: bool, now: int)
      requires Valid() && Known(j) && j.phase.Cleaning?
      modifies this`slots, j
      ensures Valid() && View() == M.Apply(old(View()), M.CleanupEnds(j.handle, cancelledMeanwhile, now))
    {
      FinishTask(j, M.Left(if cancelledMeanwhile then M.TaskCancelled else j.phase.exit), now);
    }

    // ----- Shutdown -----

    /** One round of the shutdown loop; it suspends when there is a container to kill. */
    method SweepOne(j: JobRecord, rest: seq<JobRecord>, now: int) returns (suspended: bool)
      requires Valid() && Known(j) && AllKnown(rest)
      modifies this`slots, this`sweep, j
      ensures Valid()
      ensures suspended ==> View() == M.SweepOn(old(View()), [j.handle] + Handles(rest), now)
      ensures !suspended ==> M.SweepOn(View(), Handles(rest), now) == M.SweepOn(old(View()), [j.handle] + Handles(rest), now)
    {
      hide Views, TableOf, M.Update, M.CancelJob;
      ghost var todo := [j.handle] + Handles(rest);
      assert todo[0] == j.handle && todo[1..] == Handles(rest);
      suspended := false;
      if !IsTerminal(j.state) {
        suspended := j.attached;
        CancelRecord(j, now);
        if suspended {
          sweep := Some(SweepRecord(j, rest));
        }
      }
    }

    method SweepOn(rest: seq<JobRecord>, now: int)
      requires Valid() && AllKnown(rest)
      modifies this`slots, this`sweep, jobs
      ensures Valid() && View() == M.SweepOn(old(View()), Handles(rest), now)
    {
      hide Views, TableOf, M.Update, M.CancelJob;
      var i := 0;
      ghost var goal := M.SweepOn(View(), Handles(rest), now);
      assert rest[0..] == rest;
      while i < |rest|
        invariant 0 <= i <= |rest| && Valid() && AllKnown(rest)
        invariant M.SweepOn(View(), Handles(rest[i..]), now) == goal
      {
        assert Handles(rest[i..]) == [rest[i].handle] + Handles(rest[i + 1..]);
        var suspended := SweepOne(rest[i], rest[i + 1..], now);
        if suspended {
          return;
        }
        i := i + 1;
      }
      sweep := None;
    }

    lemma TableValues(h: nat)
      requires Valid() && h < |jobs|
      ensures jobs[h] in table.Values <==> h in View().table.Values
    {
      if h in View().table.Values {
        var id :| id in table && table[id].handle == h;
        assert table[id] == jobs[h];
      }
      if jobs[h] in table.Values {
        var id :| id in table && table[id] == jobs[h];
        assert View().table[id] == h;
      }
    }

    method TrackedRecords() returns (tracked: seq<JobRecord>)
      requires Valid()
      ensures AllKnown(tracked) && Handles(tracked) == M.Tracked(View(), |jobs|)
    {
      hide Views, TableOf, Handles, SweepOf, IsTerminal;
      NoHandles();
      tracked := [];
      var h := 0;
      while h < |jobs|
        invariant 0 <= h <= |jobs| && AllKnown(tracked)
        invariant Handles(tracked) == M.Tracked(View(), h)
      {
        TableValues(h);
        if jobs[h] in table.Values {
          HandlesGrow(tracked, jobs[h]);
          tracked := tracked + [jobs[h]];
        }
        h := h + 1;
      }
    }

    method ShutdownStarts(now: int)
      requires Valid() && sweep.None?
      modifies this`slots, this`sweep, jobs
      ensures Valid() && View() == M.Apply(old(View()), M.ShutdownStarts(now))
    {
      var tracked := TrackedRecords();
      SweepOn(tracked, now);
    }

    method ShutdownResumes(now: int)
      requires Valid() && sweep.Some?
      modifies this`slots, this`sweep, jobs
      ensures Valid() && View() == M.Apply(old(View()), M.ShutdownResumes(now))
    {
      ghost var b := View();
      var j, rest := sweep.value.current, sweep.value.rest;
      assert b.jobs[j.handle] == j.View() && b.sweep == Some(M.Sweep(j.handle, Handles(rest)));
      assert M.Apply(b, M.ShutdownResumes(now))
          == M.SweepOn(M.Update(b, j.handle, j.View().(released := true)), Handles(rest), now);
      hide M.Apply, M.Update, M.SweepOn, Views;
      ReleaseOnce(j);
      SweepOn(rest, now);
    }

    // ----- GET /v1/capacity -----

    lemma ActiveIdsOf()
      requires Valid()
      ensures M.ActiveIds(View()) == set id | id in table && !IsTerminal(table[id].state)
      ensures |View().table| == |table|
    {
      assert View().table.Keys == table.Keys;
    }

    method CountActive() returns (active: nat)
      requires Valid()
      ensures active == |M.ActiveIds(View())|
    {
      active := 0;
      var rest := table.Keys;
      ghost var counted: set<string> := {};
      while rest != {}
        invariant rest <= table.Keys && counted !! rest
        invariant counted == set id | id in table && id !in rest && !IsTerminal(table[id].state)
        invariant active == |counted|
      {
        var id :| id in rest;
        rest := rest - {id};
        if table[id].state == Pending || table[id].state == Running {
          active := active + 1;
          counted := counted + {id};
        }
      }
      ActiveIdsOf();
      assert counted == M.ActiveIds(View());
    }

    method CapacityReport() returns (report: M.Capacity)
      requires Valid()
      ensures report == M.CapacityReport(View())
    {
      ActiveIdsOf();
      hide Views, TableOf, M.ActiveIds;
      var active := CountActive();
      var inUse := maxConcurrent - slots.free;
      report := M.Capacity(maxConcurrent, if inUse < 0 then 0 else inUse, slots.free, active, |table|);
    }
  }
}
