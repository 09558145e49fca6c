/** When a submission is accepted and when it is refused, in terms of the broker before the request, who waits
    for a slot, and what the capacity report counts (backend/app/sandbox_broker.py). */
module BrokerAdmission {
  import opened Contracts
  import opened BrokerModel
  import opened BrokerProofs
  import opened BrokerSafety
  import opened BrokerCapacity
  import opened Wrappers

  // ----- The order of strings -----

  /** The first character in which two strings differ decides, and a prefix comes first. */
  ghost predicate StringBefore(a: string, b: string) {
    a <= b || exists k :: DiffersFirst(a, b, k) && a[k] < b[k]
  }

  predicate DiffersFirst(a: string, b: string, k: int) {
    0 <= k < |a| && k < |b| && a[..k] == b[..k] && a[k] != b[k]
  }

  lemma {:induction false} LexLeIff(a: string, b: string)
    ensures LexLe(a, b) <==> StringBefore(a, b)
    decreases |a|
  {
    if a != [] && b != [] {
      if a[0] == b[0] {
        LexLeIff(a[1..], b[1..]);
        assert a <= b <==> a[1..] <= b[1..] by {
          assert a == [a[0]] + a[1..] && b == [b[0]] + b[1..];
        }
        forall k ensures DiffersFirst(a, b, k + 1) <==> DiffersFirst(a[1..], b[1..], k) {
          if 0 <= k < |a| - 1 && k < |b| - 1 {
            assert a[..k + 1] == [a[0]] + a[1..][..k] && b[..k + 1] == [b[0]] + b[1..][..k];
            assert a[..k + 1][1..] == a[1..][..k] && b[..k + 1][1..] == b[1..][..k];
          }
        }
        if StringBefore(a, b) && !(a <= b) {
          var k :| DiffersFirst(a, b, k) && a[k] < b[k];
          assert DiffersFirst(a[1..], b[1..], k - 1);
        }
        if StringBefore(a[1..], b[1..]) && !(a[1..] <= b[1..]) {
          var k :| DiffersFirst(a[1..], b[1..], k) && a[1..][k] < b[1..][k];
          assert DiffersFirst(a, b, k + 1);
        }
      } else {
        assert DiffersFirst(a, b, 0);
        forall k | 0 < k < |a| && k < |b| ensures a[..k] != b[..k] {
          assert a[..k][0] == a[0] && b[..k][0] == b[0];
        }
      }
    }
  }

  // ----- What is tracked once the stale jobs are gone -----

  /** The id is tracked, and its job is live or settled for no longer than the retention. */
  ghost predicate Kept(b: Broker, id: string, now: int)
    requires InRange(b)
  {
    && id in b.table
    && var j := b.jobs[b.table[id]];
       j.state in {Pending, Running} || now - j.updatedAt <= b.retention
  }

  ghost function KeptIds(b: Broker, now: int): set<string>
    requires InRange(b)
  {
    set id | id in b.table && Kept(b, id, now)
  }

  /** A settled job that would have to make way: no other kept one was settled before it, or at the same
      time under a smaller id. */
  ghost predicate MakesWay(b: Broker, id: string, now: int)
    requires InRange(b)
  {
    && Kept(b, id, now) && b.jobs[b.table[id]].state !in {Pending, Running}
    && forall o | Kept(b, o, now) && b.jobs[b.table[o]].state !in {Pending, Running} ::
         var t, u := b.jobs[b.table[id]].updatedAt, b.jobs[b.table[o]].updatedAt;
         t < u || (t == u && StringBefore(id, o))
  }

  ghost predicate Room(b: Broker, now: int)
    requires InRange(b)
  {
    |KeptIds(b, now)| < b.maxTracked
    || exists id | Kept(b, id, now) :: b.jobs[b.table[id]].state !in {Pending, Running}
  }

  /** No slot is free, or somebody waits for one already. */
  predicate Taken(b: Broker) {
    b.slots.free == 0 || b.slots.waiting > 0 || b.slots.granted > 0
  }

  // ----- The reply -----

  lemma ReapKeeps(b: Broker, now: int)
    requires InRange(b)
    ensures var r := Reap(b, now);
      && r == b.(table := r.table) && r.table.Keys == KeptIds(b, now)
      && (forall id <- r.table :: id in b.table && r.table[id] == b.table[id])
      && (forall id :: id in r.table <==> Kept(b, id, now))
      && (forall id <- r.table :: TerminalId(r, id) <==> b.jobs[b.table[id]].state !in {Pending, Running})
  {
  }

  lemma OldestMakesWay(b: Broker, now: int, id: string)
    requires InRange(b)
    ensures IsOldest(Reap(b, now), id) <==> MakesWay(b, id, now)
  {
    ReapKeeps(b, now);
    hide Reap, Kept, LexLe, StringBefore;
    forall o ensures LexLe(id, o) <==> StringBefore(id, o) {
      LexLeIff(id, o);
    }
    var r := Reap(b, now);
    if IsOldest(r, id) {
      forall o | Kept(b, o, now) && b.jobs[b.table[o]].state !in {Pending, Running}
        ensures OlderOrEqual(b.jobs[b.table[id]].updatedAt, id, b.jobs[b.table[o]].updatedAt, o)
      {
        assert TerminalId(r, o);
      }
    }
  }

  lemma RoomIff(b: Broker, now: int)
    requires Inv(b)
    ensures MakeRoom(Reap(b, now)).1 <==> Room(b, now)
  {
    ReapInv(b, now);
    ReapKeeps(b, now);
    var r := Reap(b, now);
    hide Reap, Kept, IsOldest;
    assert |r.table| == |r.table.Keys|;
    if |r.table| >= r.maxTracked {
      OldestExists(r);
      if MakeRoom(r).1 {
        var id :| IsOldest(r, id);
        OldestIsTerminal(r, id);
      }
    }
  }

  lemma OldestIsTerminal(b: Broker, id: string)
    requires InRange(b) && IsOldest(b, id)
    ensures TerminalId(b, id)
  {
  }

  lemma OldestExists(b: Broker)
    requires InRange(b)
    ensures (exists id :: TerminalId(b, id)) ==> exists id :: IsOldest(b, id)
  {
    if id :| TerminalId(b, id) {
      var ids := set i | i in b.table && TerminalId(b, i);
      assert id in ids;
      var o := OldestAmong(b, ids);
      assert IsOldest(b, o);
    }
  }

  /** Each reply, by the broker before the request. */
  lemma ReplyIff(b: Broker, id: string, now: int)
    requires Inv(b)
    ensures var reply := Submit(b, id, now).1;
      && (reply == AlreadyExists <==> Kept(b, id, now))
      && (reply == TooManyTracked <==> !Kept(b, id, now) && !Room(b, now))
      && (reply == NoCapacity <==> !Kept(b, id, now) && Room(b, now) && Taken(b))
      && (reply == Accepted <==> !Kept(b, id, now) && Room(b, now) && !Taken(b))
  {
    ReapKeeps(b, now);
    RoomIff(b, now);
    hide Reap, Kept, Room, Inv, IsOldest;
  }

  lemma MadeRoom(b: Broker, o: string)
    requires InRange(b)
    ensures var c := MakeRoom(b).0;
      && (o in c.table <==> o in b.table && !(|b.table| >= b.maxTracked && IsOldest(b, o)))
      && (o in c.table ==> c.table[o] == b.table[o])
      && c == b.(table := c.table)
  {
    hide IsOldest, Forget;
    if |b.table| >= b.maxTracked && exists id :: IsOldest(b, id) {
      var c := MakeRoom(b).0;
      var v :| IsOldest(b, v) && c == Forget(b, v);
      OnlyOldest(b, o, v);
      Forgotten(b, v, o);
    }
  }

  lemma Forgotten(b: Broker, v: string, o: string)
    requires InRange(b)
    ensures var c := Forget(b, v);
      c == b.(table := c.table) && (o in c.table <==> o in b.table && o != v) && (o in c.table ==> c.table[o] == b.table[o])
  {
    assert Forget(b, v).table == b.table - {v};
    assert (b.table - {v}).Keys == b.table.Keys - {v};
  }

  lemma OnlyOldest(b: Broker, o: string, v: string)
    requires InRange(b) && IsOldest(b, v)
    ensures IsOldest(b, o) <==> o == v
  {
    if IsOldest(b, o) {
      OldestIsUnique(b, o, v);
    }
  }

  lemma RangeOf(b: Broker)
    requires Inv(b)
    ensures InRange(b)
  {
  }

  // ----- The new state -----

  /** The job as it is recorded on admission. */
  function Fresh(id: string, now: int): Job {
    Job(id, now, now, Pending, false, None, None, None, None, false, false, Scheduled)
  }

  /** An accepted submission adds one pending job and takes one slot. */
  lemma AcceptedAddsOneJob(b: Broker, id: string, now: int)
    requires Inv(b) && Submit(b, id, now).1 == Accepted
    ensures var c := Submit(b, id, now).0;
      && c.jobs == b.jobs + [Fresh(id, now)]
      && b.slots.free > 0 && c.slots == Slots(b.slots.free - 1, b.slots.waiting, b.slots.granted, b.slots.holding)
      && id in c.table && c.table[id] == |b.jobs|
      && c == b.(jobs := c.jobs, slots := c.slots, table := c.table)
  {
    hide Reap, Inv, Room, Kept, KeptIds, MakeRoom;
    RangeOf(b);
    ReapKeeps(b, now);
    MadeRoom(Reap(b, now), id);
    ReplyIff(b, id, now);
  }

  /** A refused one leaves every job and every slot as it was. */
  lemma RefusedAddsNothing(b: Broker, id: string, now: int)
    requires Inv(b) && Submit(b, id, now).1 != Accepted
    ensures var c := Submit(b, id, now).0; c == b.(table := c.table)
  {
    hide Reap, Inv, Kept, KeptIds, MakeRoom;
    RangeOf(b);
    ReapKeeps(b, now);
    MadeRoom(Reap(b, now), id);
  }

  /** The other ids: exactly the stale ones are forgotten, and, when an unknown id meets a full table, the
      one settled job that makes way, even if the submission is then refused for want of a slot. */
  lemma TrackedAfterSubmit(b: Broker, id: string, now: int, o: string)
    requires Inv(b) && o != id
    ensures var c := Submit(b, id, now).0;
      && (o in c.table <==>
            Kept(b, o, now) && !(!Kept(b, id, now) && |KeptIds(b, now)| >= b.maxTracked && MakesWay(b, o, now)))
      && (o in c.table ==> c.table[o] == b.table[o])
  {
    ReapKeeps(b, now);
    OldestMakesWay(b, now, o);
    var r := Reap(b, now);
    hide Reap, Kept, MakesWay, IsOldest;
    assert |r.table| == |r.table.Keys|;
    if !Kept(b, id, now) {
      MadeRoom(r, o);
      AdmitTracks(MakeRoom(r).0, id, now, o);
    }
  }

  lemma AdmitTracks(b: Broker, id: string, now: int, o: string)
    requires InRange(b) && o != id
    ensures b.slots.free > 0 ==> (o in Admit(b, id, now).table <==> o in b.table)
    ensures b.slots.free > 0 && o in b.table ==> Admit(b, id, now).table[o] == b.table[o]
  {
  }

  /** A status request forgets exactly the stale ids and changes nothing else. */
  lemma TrackedAfterGet(b: Broker, id: string, now: int, o: string)
    requires Inv(b)
    ensures var c := Apply(b, DoGet(id, now));
      (o in c.table <==> Kept(b, o, now)) && (o in c.table ==> c.table[o] == b.table[o]) && c == b.(table := c.table)
  {
    hide Reap, Kept;
    ReapKeeps(b, now);
  }

  // ----- Waiting for a slot -----

  /** Nobody waits for a free slot unless a slot was handed to somebody who has yet to resume. */
  predicate NobodyForgotten(s: Slots) {
    s.waiting > 0 && s.free > 0 ==> s.granted > 0
  }

  lemma {:induction false} SweepForgetsNobody(b: Broker, rest: seq<nat>, now: int)
    requires AllBelow(rest, |b.jobs|) && NobodyForgotten(b.slots)
    ensures NobodyForgotten(SweepOn(b, rest, now).slots)
    decreases |rest|
  {
    hide CancelJob;
    if rest != [] {
      if Terminal(b.jobs[rest[0]]) {
        SweepForgetsNobody(b, rest[1..], now);
      } else if !b.jobs[rest[0]].attached {
        SweepForgetsNobody(Update(b, rest[0], CancelJob(b.jobs[rest[0]], now)), rest[1..], now);
      }
    }
  }

  lemma UpdateForgetsNobody(b: Broker, h: nat, j: Job)
    requires h < |b.jobs| && NobodyForgotten(b.slots)
    ensures NobodyForgotten(Update(b, h, j).slots)
  {
  }

  lemma QuietForgetsNobody(b: Broker, a: Action)
    requires Enabled(b, a) && NobodyForgotten(b.slots) && TaskOf(a).None?
    requires !a.ShutdownStarts? && !a.ShutdownResumes? && !a.DoSubmit?
    ensures NobodyForgotten(Apply(b, a).slots)
  {
    hide CancelJob, Reap;
    if a.DoGet? {
      ReapLeavesSlots(b, a.now);
    }
  }

  lemma ReapLeavesSlots(b: Broker, now: int)
    requires InRange(b)
    ensures Reap(b, now).slots == b.slots
  {
  }

  lemma StepForgetsNobody(b: Broker, a: Action)
    requires Inv(b) && Enabled(b, a) && NobodyForgotten(b.slots)
    ensures NobodyForgotten(Apply(b, a).slots)
  {
    hide CancelJob, TaskStep, SweepOn, NobodyForgotten, Inv, Submit, Update;
    if TaskOf(a).Some? {
      var h := TaskOf(a).value;
      TaskStepEvolves(b, a);
      UpdateForgetsNobody(b, h, TaskStep(b.jobs[h], a));
    } else if a.ShutdownStarts? {
      SweepForgetsNobody(b, Tracked(b, |b.jobs|), a.now);
    } else if a.ShutdownResumes? {
      ResumedSweepForgetsNobody(b, a.now);
    } else if a.DoSubmit? {
      SubmitForgetsNobody(b, a.id, a.now);
    } else {
      QuietForgetsNobody(b, a);
    }
  }

  lemma ResumedSweepForgetsNobody(b: Broker, now: int)
    requires Enabled(b, ShutdownResumes(now)) && NobodyForgotten(b.slots)
    ensures NobodyForgotten(Apply(b, ShutdownResumes(now)).slots)
  {
    hide SweepOn;
    var h := b.sweep.value.current;
    var c := Update(b, h, b.jobs[h].(released := true));
    SweepForgetsNobody(c, b.sweep.value.rest, now);
  }

  lemma SubmitForgetsNobody(b: Broker, id: string, now: int)
    requires InRange(b) && NobodyForgotten(b.slots)
    ensures NobodyForgotten(Submit(b, id, now).0.slots)
  {
  }

  lemma {:induction false} RunForgetsNobody(b: Broker, actions: seq<Action>)
    requires Inv(b) && Legal(b, actions) && NobodyForgotten(b.slots)
    ensures NobodyForgotten(Run(b, actions).slots)
    decreases |actions|
  {
    hide Inv, Apply, Enabled, NobodyForgotten;
    if actions != [] {
      ApplyInv(b, actions[0]);
      StepForgetsNobody(b, actions[0]);
      RunForgetsNobody(Apply(b, actions[0]), actions[1..]);
    }
  }

  /** In every reachable state an execute call that waits while a slot is free has one ahead of it that was just
      handed a slot: no wakeup is lost. */
  lemma NoWakeupIsLost(b: Broker)
    requires Reachable(b)
    ensures b.slots.waiting > 0 && b.slots.free > 0 ==> b.slots.granted > 0
  {
    var actions :| ReachedBy(b, actions);
    var b0 := Init(b.maxConcurrent, b.maxTracked, b.retention);
    InvInit(b.maxConcurrent, b.maxTracked, b.retention);
    RunForgetsNobody(b0, actions);
  }

  /** In every reachable state an execute call that arrives is served at once if and only if a slot is free that
      no earlier call was promised; otherwise it waits, and nobody who waits is overtaken. */
  lemma NobodyIsOvertaken(b: Broker)
    requires Reachable(b)
    ensures InRange(b)
    ensures var s, t := b.slots, Apply(b, ExecuteArrives).slots;
      && (s.free > 0 && s.granted == 0 ==> t == s.(free := s.free - 1, holding := s.holding + 1))
      && (s.free == 0 || s.granted > 0 ==> t == s.(waiting := s.waiting + 1))
      && (s.waiting > 0 ==> t.holding == s.holding && t.waiting > s.waiting)
  {
    hide Inv;
    ReachableInv(b);
    RangeOf(b);
    NoWakeupIsLost(b);
  }

  /** The active jobs of the capacity report are all the live jobs there are, and its tracked jobs all tracked
      ids. */
  lemma ActiveJobsAreTheLiveJobs(b: Broker)
    requires Reachable(b)
    ensures InRange(b)
    ensures CapacityReport(b).activeJobs == |set h: nat | h < |b.jobs| && !Terminal(b.jobs[h])|
    ensures CapacityReport(b).trackedJobs == |b.table.Keys| && CapacityReport(b).maxConcurrent == b.maxConcurrent
  {
    ReachableInv(b);
    var live := set h: nat | h < |b.jobs| && !Terminal(b.jobs[h]);
    forall id | id in ActiveIds(b) ensures b.table[id] in live && b.jobs[b.table[id]].id == id {
    }
    forall h | h in live ensures b.jobs[h].id in ActiveIds(b) && b.table[b.jobs[h].id] == h {
      assert IsTracked(b, h);
    }
    assert |b.table| == |b.table.Keys|;
    PairedSizes(b, ActiveIds(b), live);
  }

  lemma {:induction false} PairedSizes(b: Broker, ids: set<string>, live: set<nat>)
    requires forall id <- ids :: id in b.table && b.table[id] in live && b.table[id] < |b.jobs| && b.jobs[b.table[id]].id == id
    requires forall h <- live :: h < |b.jobs| && b.jobs[h].id in ids && b.jobs[h].id in b.table && b.table[b.jobs[h].id] == h
    ensures |ids| == |live|
    decreases |ids|
  {
    if ids == {} {
      if h :| h in live {
        assert false;
      }
    } else {
      var id :| id in ids;
      PairedSizes(b, ids - {id}, live - {b.table[id]});
    }
  }
}
