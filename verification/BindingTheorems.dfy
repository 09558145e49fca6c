/** What holds over every run of the binding endpoints (backend/app/api/admin_agents.py,
    backend/app/services/agent_definition_service.py). */
module BindingTheorems {
  import opened Bindings
  import opened BindingProofs
  import opened Wrappers

  lemma {:induction false} RunKeepsInv(w: World, run: seq<Action>)
    requires Inv(w) && LegalRun(w, run)
    ensures Inv(Final(w, run))
    decreases |run|
  {
    hide Inv, Apply;
    if run != [] {
      StepKeepsInv(w, run[0]);
      RunKeepsInv(Apply(w, run[0]).world, run[1..]);
    }
  }

  lemma InitialInv(w: World)
    requires Initial(w)
    ensures Inv(w) && forall x :: Clean(w, x)
  {
  }

  // ----- Separation of duties -----

  predicate Bypasses(a: Action) {
    (a.ABind? || a.AApproveKnowledge? || a.AApproveDomain? || a.ACreate?) && a.bypass
  }

  predicate NoneBypassed(bindings: map<Id, Binding>) {
    forall b | b in bindings :: !bindings[b].bypassed
  }

  lemma {:induction false} PlainClones(w: World, v: Id, rows: seq<Id>, n: nat, actor: User)
    requires n <= |rows| && (forall b <- rows :: b in w.bindings && b < w.nextId) && NoneBypassed(w.bindings)
    ensures NoneBypassed(CloneRows(w, v, rows, n, actor, false).bindings)
  {
    if n > 0 {
      PlainClones(w, v, rows, n - 1, actor);
    }
  }

  lemma PlainStep(w: World, a: Action)
    requires IdsOk(w) && Legal(w, a) && !Bypasses(a) && NoneBypassed(w.bindings)
    ensures NoneBypassed(Apply(w, a).world.bindings)
  {
    hide Existing, IsRecycled, IdsOk, AnyAwaiting, Activate, HasSibling;
    if a.ACreate? && a.clone.Some? && Apply(w, a).reply == Done {
      PlainCreate(w, a);
    } else {
      hide IsCloneQuery, CloneRows;
    }
  }

  lemma PlainCreate(w: World, a: Action)
    requires a.ACreate? && a.clone.Some? && !a.bypass && IdsOk(w) && Legal(w, a) && NoneBypassed(w.bindings)
    requires Apply(w, a).reply == Done
    ensures NoneBypassed(Apply(w, a).world.bindings)
  {
    var (w', v) := FreshDraft(w, a.agent, a.actor, a.recycled);
    hide IsRecycled, CloneRows;
    forall b | b in a.rows ensures b in w'.bindings && b < w'.nextId {
      assert Cloneable(w', a.clone.value, b);
    }
    hide IsCloneQuery, IdsOk, FreshDraft;
    assert NoneBypassed(w'.bindings);
    PlainClones(w', v, a.rows, |a.rows|, a.actor);
  }

  lemma {:induction false} PlainRun(w: World, run: seq<Action>)
    requires Inv(w) && LegalRun(w, run) && NoneBypassed(w.bindings) && forall a <- run :: !Bypasses(a)
    ensures NoneBypassed(Final(w, run).bindings)
    decreases |run|
  {
    hide Inv, Apply, NoneBypassed, Bypasses;
    if run != [] {
      StepKeepsInv(w, run[0]);
      PlainStep(w, run[0]);
      PlainRun(Apply(w, run[0]).world, run[1..]);
    }
  }

  /** In every run, whatever becomes of the Knowledge Bases, an approved or published binding in which
      no approver approved their own request as an exempt actor has a Knowledge approver other than its
      requester and, if the base was sensitive when that approval was given, a domain
      approver other than both. */
  lemma ApprovalsAreSeparated(w: World, run: seq<Action>, b: Id)
    requires Initial(w) && LegalRun(w, run) && b in Final(w, run).bindings
    ensures var row := Final(w, run).bindings[b];
            (row.status in {Approved, Published} && !row.bypassed) ==> Separated(row, row.wasSensitive)
  {
    InitialInv(w);
    RunKeepsInv(w, run);
  }

  /** In a run in which no actor bypasses, that is every approved or published binding. */
  lemma SeparationWithoutBypass(w: World, run: seq<Action>, b: Id)
    requires Initial(w) && LegalRun(w, run) && (forall a <- run :: !Bypasses(a))
    requires b in Final(w, run).bindings && Final(w, run).bindings[b].status in {Approved, Published}
    ensures Separated(Final(w, run).bindings[b], Final(w, run).bindings[b].wasSensitive)
  {
    InitialInv(w);
    hide Inv, Clean, Final;
    PlainRun(w, run);
    ApprovalsAreSeparated(w, run, b);
  }

  // ----- No approval is carried over -----

  /** A row that has only what its new requester brought. */
  predicate StartsOver(b: Binding, actor: User, bypass: bool) {
    && b.requester == actor
    && (!bypass ==> b.status == PendingKb && b.kbApprover.None? && b.domainApprover.None?)
    && (bypass ==> b.status == Approved && b.kbApprover == Some(actor)
                   && (b.domainApprover.Some? ==> b.domainApprover.value == actor))
  }

  /** Binding again after a revocation forgets every earlier approval. */
  lemma ReactivationStartsOver(w: World, v: Id, kb: Id, actor: User, bypass: bool, ok: bool, b: Id)
    requires Inv(w) && b in w.bindings && w.bindings[b].version == v && w.bindings[b].kb == kb
    requires Bind(w, v, kb, actor, bypass, ok).reply == Done
    ensures w.bindings[b].status == Revoked
    ensures var w' := Bind(w, v, kb, actor, bypass, ok).world;
            w'.bindings.Keys == w.bindings.Keys && StartsOver(w'.bindings[b], actor, bypass)
  {
    ExistingIs(w, v, kb);
    hide RowsInv, VersionsInv, Existing;
  }

  lemma {:induction false} CloneReaches(w: World, v: Id, rows: seq<Id>, n: nat, actor: User, bypass: bool, i: nat)
    requires i < n <= |rows| && forall b <- rows :: b in w.bindings && b < w.nextId
    ensures var r := CloneRows(w, v, rows, n, actor, bypass).bindings;
            w.nextId + i in r && r[w.nextId + i] == Copy(w.bindings[rows[i]], v, actor, bypass)
  {
    hide Copy;
    if i < n - 1 {
      CloneReaches(w, v, rows, n - 1, actor, bypass, i);
    }
  }

  lemma CloneComesFrom(w: World, v: Id, source: Id, rows: seq<Id>, actor: User, bypass: bool, b: Id)
    requires IdsOk(w) && Clonable(w, v, source, rows)
    requires b in CloneRows(w, v, rows, |rows|, actor, bypass).bindings
    requires CloneRows(w, v, rows, |rows|, actor, bypass).bindings[b].version == v
    ensures var row := CloneRows(w, v, rows, |rows|, actor, bypass).bindings[b];
            && StartsOver(row, actor, bypass) && (bypass ==> row.domainApprover == Some(actor))
            && exists s :: Cloneable(w, source, s) && w.bindings[s].kb == row.kb
  {
    CloneSource(w, v, rows, |rows|, actor, bypass, b);
    hide CloneRows;
    assert b in w.bindings ==> !OfVersion(w, b, v);
    assert Cloneable(w, source, rows[b - w.nextId]);
  }

  lemma CloneArrives(w: World, v: Id, source: Id, rows: seq<Id>, actor: User, bypass: bool, s: Id)
    requires Clonable(w, v, source, rows) && Cloneable(w, source, s)
    ensures var f := CloneRows(w, v, rows, |rows|, actor, bypass);
            exists b :: b in f.bindings && f.bindings[b].version == v && f.bindings[b].kb == w.bindings[s].kb
  {
    hide CloneRows;
    var i :| 0 <= i < |rows| && rows[i] == s;
    CloneReaches(w, v, rows, |rows|, actor, bypass, i);
    hide Clonable, Cloneable;
    var f := CloneRows(w, v, rows, |rows|, actor, bypass);
    assert f.bindings[w.nextId + i].kb == w.bindings[s].kb;
  }

  /** The rows that are left for the clone query, once a recycled version has lost its own. */
  lemma CloneableAfterRecycling(w: World, agent: Id, actor: User, recycled: Option<Id>, source: Id, s: Id)
    requires IdsOk(w)
    ensures var w' := FreshDraft(w, agent, actor, recycled).0;
            && (Cloneable(w', source, s) <==> Cloneable(w, source, s) && recycled != Some(source))
            && (Cloneable(w', source, s) ==> w'.bindings[s] == w.bindings[s])
  {
  }

  /** Every row of a cloned version starts over and binds what the source bound before the request. */
  lemma CloneStartsOver(w: World, a: Action, b: Id)
    requires Inv(w) && Legal(w, a) && a.ACreate? && a.clone.Some? && Apply(w, a).reply == Done
    requires OfVersion(Apply(w, a).world, b, FreshDraft(w, a.agent, a.actor, a.recycled).1)
    ensures var row := Apply(w, a).world.bindings[b];
            && StartsOver(row, a.actor, a.bypass) && (a.bypass ==> row.domainApprover == Some(a.actor))
            && exists s :: Cloneable(w, a.clone.value, s) && w.bindings[s].kb == row.kb
    ensures a.recycled != a.clone
  {
    IdsOfInv(w);
    FreshDraftKeeps(w, a.agent, a.actor, a.recycled);
    hide RowsInv, VersionsInv, FreshDraft, CloneRows, IsCloneQuery, IsRecycled, Cloneable;
    var (w', v) := FreshDraft(w, a.agent, a.actor, a.recycled);
    QueryIsClonable(w', v, a.clone.value, a.rows);
    IdsOfRows(w');
    CloneComesFrom(w', v, a.clone.value, a.rows, a.actor, a.bypass, b);
    var s :| Cloneable(w', a.clone.value, s) && w'.bindings[s].kb == Apply(w, a).world.bindings[b].kb;
    CloneableAfterRecycling(w, a.agent, a.actor, a.recycled, a.clone.value, s);
  }

  ghost predicate BoundIn(w: World, v: Id, kb: Id) {
    exists b :: OfVersion(w, b, v) && w.bindings[b].kb == kb
  }

  lemma ClonedWorld(w: World, a: Action)
    requires Inv(w) && Legal(w, a) && a.ACreate? && a.clone.Some? && Apply(w, a).reply == Done
    ensures var (w', v) := FreshDraft(w, a.agent, a.actor, a.recycled);
            && Clonable(w', v, a.clone.value, a.rows)
            && Apply(w, a).world == CloneRows(w', v, a.rows, |a.rows|, a.actor, a.bypass)
  {
    FreshDraftKeeps(w, a.agent, a.actor, a.recycled);
    hide RowsInv, VersionsInv, FreshDraft, CloneRows, IsCloneQuery, IsRecycled;
    var (w', v) := FreshDraft(w, a.agent, a.actor, a.recycled);
    QueryIsClonable(w', v, a.clone.value, a.rows);
    hide Clonable;
  }

  lemma UnrecycledIsBoundAgain(w: World, a: Action, s: Id)
    requires Inv(w) && Legal(w, a) && a.ACreate? && a.clone.Some? && Apply(w, a).reply == Done
    requires Cloneable(w, a.clone.value, s) && a.recycled != a.clone
    ensures BoundIn(Apply(w, a).world, FreshDraft(w, a.agent, a.actor, a.recycled).1, w.bindings[s].kb)
  {
    hide Inv, FreshDraft, CloneRows, IsCloneQuery, IsRecycled, Copy, Clonable, Apply, Legal;
    IdsOfInv(w);
    ClonedWorld(w, a);
    CloneableAfterRecycling(w, a.agent, a.actor, a.recycled, a.clone.value, s);
    var (w', v) := FreshDraft(w, a.agent, a.actor, a.recycled);
    CloneArrives(w', v, a.clone.value, a.rows, a.actor, a.bypass, s);
  }

  /** What the source still bound before the request is bound again, unless the source is the very draft that
      is recycled: its bindings are gone when the clone query runs. */
  lemma CloneBindsAgainUnlessRecycled(w: World, a: Action, s: Id)
    requires Inv(w) && Legal(w, a) && a.ACreate? && a.clone.Some? && Apply(w, a).reply == Done
    requires Cloneable(w, a.clone.value, s)
    ensures BoundIn(Apply(w, a).world, FreshDraft(w, a.agent, a.actor, a.recycled).1, w.bindings[s].kb)
       <==> a.recycled != a.clone
  {
    IdsOfInv(w);
    hide Inv, IdsOk, Legal, FreshDraft, Apply, Cloneable;
    if a.recycled != a.clone {
      UnrecycledIsBoundAgain(w, a, s);
    } else if b :| OfVersion(Apply(w, a).world, b, FreshDraft(w, a.agent, a.actor, a.recycled).1)
                   && Apply(w, a).world.bindings[b].kb == w.bindings[s].kb {
      CloneStartsOver(w, a, b);
    }
  }

  /** A clone binds exactly what its source still bound before the request, if and only if the source is not
      the draft that is recycled, or bound nothing. */
  lemma CloneBindsAgainIff(w: World, a: Action)
    requires Inv(w) && Legal(w, a) && a.ACreate? && a.clone.Some? && Apply(w, a).reply == Done
    ensures var v := FreshDraft(w, a.agent, a.actor, a.recycled).1;
            (forall kb :: BoundIn(Apply(w, a).world, v, kb) <==> StillBinds(w, a.clone.value, kb))
            <==> a.recycled != a.clone || forall kb :: !StillBinds(w, a.clone.value, kb)
  {
    IdsOfInv(w);
    hide RowsInv, VersionsInv, FreshDraft, CloneRows, IsCloneQuery, IsRecycled, IdsOk, Apply;
    var v := FreshDraft(w, a.agent, a.actor, a.recycled).1;
    var f := Apply(w, a).world;
    forall kb
      ensures BoundIn(f, v, kb) ==> StillBinds(w, a.clone.value, kb) && a.recycled != a.clone
      ensures StillBinds(w, a.clone.value, kb) ==> (BoundIn(f, v, kb) <==> a.recycled != a.clone)
    {
      if b :| OfVersion(f, b, v) && f.bindings[b].kb == kb {
        CloneStartsOver(w, a, b);
      }
      if StillBinds(w, a.clone.value, kb) {
        var s :| Cloneable(w, a.clone.value, s) && w.bindings[s].kb == kb;
        CloneBindsAgainUnlessRecycled(w, a, s);
      }
    }
  }

  ghost predicate StillBinds(w: World, v: Id, kb: Id) {
    exists s :: Cloneable(w, v, s) && w.bindings[s].kb == kb
  }

  // ----- Published versions have nothing pending -----

  lemma CleanClones(w: World, v: Id, rows: seq<Id>, n: nat, actor: User, bypass: bool, x: set<Id>)
    requires n <= |rows| && (forall b <- rows :: b in w.bindings && b < w.nextId)
    requires IdsOk(w) && Clean(w, x) && v in w.versions && !w.versions[v].everPublished
    requires IdsOk(CloneRows(w, v, rows, n, actor, bypass))
    ensures Clean(CloneRows(w, v, rows, n, actor, bypass), x)
  {
    var f := CloneRows(w, v, rows, n, actor, bypass);
    forall b | b in f.bindings && f.bindings[b].version !in x && f.versions[f.bindings[b].version].everPublished
      ensures f.bindings[b].status in {Published, Revoked}
    {
      CloneSource(w, v, rows, n, actor, bypass, b);
    }
  }

  lemma CreateKeepsClean(w: World, a: Action, x: set<Id>)
    requires Inv(w) && Clean(w, x) && Legal(w, a) && a.ACreate?
    ensures Inv(Apply(w, a).world) && Clean(Apply(w, a).world, x)
  {
    hide RowsInv, VersionsInv, IsCloneQuery, IsRecycled, FreshDraft, Clean, CloneRows, IdsOk, Clonable;
    StepKeepsInv(w, a);
    FreshDraftKeeps(w, a.agent, a.actor, a.recycled);
    var (w', v) := FreshDraft(w, a.agent, a.actor, a.recycled);
    IdsOfRows(w);
    IdsOfRows(w');
    FreshDraftKeepsClean(w, a.agent, a.actor, a.recycled, x);
    if a.clone.Some? && Apply(w, a).reply == Done {
      DraftsAreUnpublished(w', v);
      QueryIsClonable(w', v, a.clone.value, a.rows);
      RowsKnown(w', v, a.clone.value, a.rows);
      IdsOfRows(Apply(w, a).world);
      CleanClones(w', v, a.rows, |a.rows|, a.actor, a.bypass, x);
    }
  }

  lemma RowsKnown(w: World, v: Id, source: Id, rows: seq<Id>)
    requires Clonable(w, v, source, rows)
    ensures forall b <- rows :: b in w.bindings && b < w.nextId
  {
  }

  lemma FreshDraftKeepsClean(w: World, agent: Id, actor: User, recycled: Option<Id>, x: set<Id>)
    requires IdsOk(w) && Clean(w, x) && IsRecycled(w, agent, recycled) && IdsOk(FreshDraft(w, agent, actor, recycled).0)
    ensures Clean(FreshDraft(w, agent, actor, recycled).0, x)
  {
  }

  lemma DraftsAreUnpublished(w: World, v: Id)
    requires Inv(w) && v in w.versions && w.versions[v].status in {Draft, Review}
    ensures !w.versions[v].everPublished
  {
    hide RowsInv;
  }

  /** An ever-published version stays in the table and never becomes a draft again. */
  lemma PublishedNeverReturns(w: World, a: Action, v: Id)
    requires Inv(w) && Legal(w, a) && v in w.versions && w.versions[v].everPublished
    ensures var w' := Apply(w, a).world;
            v in w'.versions && w'.versions[v].everPublished && w'.versions[v].status in {Live, Archived}
  {
    StepKeepsInv(w, a);
    StaysPublished(w, a, v);
    assert VersionOk(Apply(w, a).world.versions[v]);
  }

  lemma StaysPublished(w: World, a: Action, v: Id)
    requires IdsOk(w) && Legal(w, a) && v in w.versions && w.versions[v].everPublished
    requires VersionsInv(w.versions)
    ensures v in Apply(w, a).world.versions && Apply(w, a).world.versions[v].everPublished
  {
    assert VersionOk(w.versions[v]);
    hide Existing, IsCloneQuery, VersionsInv, AnyAwaiting, HasSibling;
    if a.ACreate? {
      FreshDraftSpares(w, a.agent, a.actor, a.recycled, v);
      hide FreshDraft;
    }
  }

  lemma FreshDraftSpares(w: World, agent: Id, actor: User, recycled: Option<Id>, v: Id)
    requires IdsOk(w) && IsRecycled(w, agent, recycled) && v in w.versions && w.versions[v].everPublished
    ensures var w' := FreshDraft(w, agent, actor, recycled).0; v in w'.versions && w'.versions[v] == w.versions[v]
  {
  }

  lemma RowCleanAfter(w: World, v: Id, b: Id, x: set<Id>)
    requires Inv(w) && Clean(w, x) && v in w.versions && b in w.bindings
    requires w.bindings[b].version == v ==> w.versions[v].everPublished || w.bindings[b].status in {Published, Revoked}
    requires w.bindings[b].version !in x
    ensures Activate(w, v)[w.bindings[b].version].everPublished ==> w.bindings[b].status in {Published, Revoked}
  {
    hide VersionsInv;
  }

  /** A rollback leaves one more published version with a binding awaiting approval, or an approved one
      that was never released, exactly when its target was never published and has such a binding:
      an archived draft passes the guard on the status. */
  lemma RollbackKeepsCleanIff(w: World, v: Id, reasonOk: bool, ok: bool, x: set<Id>)
    requires Inv(w) && Clean(w, x) && Rollback(w, v, reasonOk, ok).reply == Done
    ensures Inv(Rollback(w, v, reasonOk, ok).world)
    ensures Clean(Rollback(w, v, reasonOk, ok).world, x) <==>
            (v in x || w.versions[v].everPublished || AllSettled(w, v))
  {
    RollbackKeeps(w, v, reasonOk, ok);
    ActivateKeeps(w, v);
    var f := Rollback(w, v, reasonOk, ok).world;
    hide RowsInv, VersionsInv, Activate;
    IdsOfRows(w);
    if v in x || w.versions[v].everPublished || AllSettled(w, v) {
      forall b | b in f.bindings && f.bindings[b].version !in x && f.versions[f.bindings[b].version].everPublished
        ensures f.bindings[b].status in {Published, Revoked}
      {
        RowCleanAfter(w, v, b, x);
      }
    } else {
      var b :| b in w.bindings && w.bindings[b].version == v && w.bindings[b].status !in {Published, Revoked};
      assert f.versions[f.bindings[b].version].everPublished;
    }
  }

  lemma PublishKeepsClean(w: World, v: Id, actor: User, bypass: bool, ok: bool, x: set<Id>)
    requires Inv(w) && Clean(w, x)
    ensures Inv(Publish(w, v, actor, bypass, ok).world) && Clean(Publish(w, v, actor, bypass, ok).world, x)
  {
    PublishKeeps(w, v, actor, bypass, ok);
    if Publish(w, v, actor, bypass, ok).reply == Done {
      ActivateKeeps(w, v);
      var f := Publish(w, v, actor, bypass, ok).world;
      hide RowsInv, VersionsInv, Activate;
      IdsOfRows(w);
      forall b | b in f.bindings && f.bindings[b].version !in x && f.versions[f.bindings[b].version].everPublished
        ensures f.bindings[b].status in {Published, Revoked}
      {
        assert f.bindings[b] == PublishRow(w.bindings[b], v);
        if w.bindings[b].version == v {
          assert !Awaiting(w.bindings[b]);
        }
      }
    }
  }

  lemma PutKeepsClean(w: World, b: Id, row: Binding, nextId: Id, x: set<Id>)
    requires IdsOk(w) && Clean(w, x) && IdsOk(w.(bindings := w.bindings[b := row], nextId := nextId))
    requires row.version in w.versions
    requires row.version !in x && w.versions[row.version].everPublished ==> row.status in {Published, Revoked}
    ensures Clean(w.(bindings := w.bindings[b := row], nextId := nextId), x)
  {
  }

  lemma BindKeepsClean(w: World, v: Id, kb: Id, actor: User, bypass: bool, ok: bool, x: set<Id>)
    requires Inv(w) && Clean(w, x)
    ensures Inv(Bind(w, v, kb, actor, bypass, ok).world) && Clean(Bind(w, v, kb, actor, bypass, ok).world, x)
  {
    BindKeeps(w, v, kb, actor, bypass, ok);
    if Bind(w, v, kb, actor, bypass, ok).reply == Done {
      DraftsAreUnpublished(w, v);
      IdsOfRows(w);
      IdsOfRows(Bind(w, v, kb, actor, bypass, ok).world);
      hide RowsInv, VersionsInv, IdsOk, Clean, Existing;
      var row := Request(v, kb, actor, bypass, w.kbs[kb].sensitive);
      match Existing(w, v, kb)
      case Some(b) => PutKeepsClean(w, b, row, w.nextId, x);
      case None => PutKeepsClean(w, w.nextId, row, w.nextId + 1, x);
    }
  }

  lemma ApprovalsKeepClean(w: World, b: Id, actor: User, bypass: bool, ok: bool, x: set<Id>)
    requires Inv(w) && Clean(w, x)
    ensures var f := ApproveKnowledge(w, b, actor, bypass).world; Inv(f) && Clean(f, x)
    ensures var f := ApproveDomain(w, b, actor, bypass).world; Inv(f) && Clean(f, x)
    ensures var f := Revoke(w, b, ok).world; Inv(f) && Clean(f, x)
  {
    ApprovalsKeep(w, b, actor, bypass, ok);
    IdsOfRows(w);
    var k, d, r := ApproveKnowledge(w, b, actor, bypass), ApproveDomain(w, b, actor, bypass), Revoke(w, b, ok);
    IdsOfRows(k.world);
    IdsOfRows(d.world);
    IdsOfRows(r.world);
    hide RowsInv, VersionsInv, IdsOk;
    if k.reply == Done {
      PutKeepsClean(w, b, k.world.bindings[b], w.nextId, x);
    }
    if d.reply == Done {
      PutKeepsClean(w, b, d.world.bindings[b], w.nextId, x);
    }
    if r.reply == Done {
      PutKeepsClean(w, b, r.world.bindings[b], w.nextId, x);
    }
  }

  /** A step that leaves the bindings and every publication date alone. */
  lemma SameRowsStayClean(w: World, f: World, x: set<Id>)
    requires IdsOk(w) && Clean(w, x) && IdsOk(f) && f.bindings == w.bindings
    requires forall v | v in w.versions :: v in f.versions && f.versions[v].everPublished == w.versions[v].everPublished
    ensures Clean(f, x)
  {
  }

  lemma QuietStepsKeepClean(w: World, a: Action, x: set<Id>)
    requires Inv(w) && Clean(w, x) && (a.ASubmit? || a.ADiscard? || a.AUpdateKb?)
    requires Legal(w, a)
    ensures Inv(Apply(w, a).world) && Clean(Apply(w, a).world, x)
  {
    hide RowsInv, VersionsInv, IdsOk, HasSibling, Clean, Bind, ApproveKnowledge, ApproveDomain, Revoke, CreateVersion,
         Publish, Rollback;
    StepKeepsInv(w, a);
    IdsOfRows(w);
    IdsOfRows(Apply(w, a).world);
    SameRowsStayClean(w, Apply(w, a).world, x);
  }

  lemma RowStepsKeepClean(w: World, a: Action, x: set<Id>)
    requires Inv(w) && Clean(w, x) && Legal(w, a)
    requires !a.ACreate? && !a.APublish? && !a.ARollback?
    ensures Inv(Apply(w, a).world) && Clean(Apply(w, a).world, x)
  {
    hide RowsInv, VersionsInv, Bind, ApproveKnowledge, ApproveDomain, Revoke, Submit, Discard, UpdateKb, Clean;
    if a.ABind? {
      BindKeepsClean(w, a.v, a.kb, a.actor, a.bypass, a.ok, x);
    } else if a.AApproveKnowledge? || a.AApproveDomain? {
      ApprovalsKeepClean(w, a.b, a.actor, a.bypass, true, x);
    } else if a.ARevoke? {
      ApprovalsKeepClean(w, a.b, 0, false, a.ok, x);
    } else {
      QuietStepsKeepClean(w, a, x);
    }
  }

  predicate AllSettled(w: World, v: Id) {
    forall b | b in w.bindings && w.bindings[b].version == v :: w.bindings[b].status in {Published, Revoked}
  }

  /** The target of a rollback that was never published and has an unsettled binding. */
  function TakenLiveUnsettled(w: World, a: Action): set<Id> {
    if a.ARollback? && Rollback(w, a.v, a.reasonOk, a.ok).reply == Done
       && !w.versions[a.v].everPublished && !AllSettled(w, a.v)
    then {a.v} else {}
  }

  /** All such targets in a run. */
  ghost function RolledBackUnsettled(w: World, run: seq<Action>): set<Id>
    requires LegalRun(w, run)
    decreases |run|
  {
    if run == [] then {} else TakenLiveUnsettled(w, run[0]) + RolledBackUnsettled(Apply(w, run[0]).world, run[1..])
  }

  lemma CleanGrows(w: World, x: set<Id>, y: set<Id>)
    requires IdsOk(w) && Clean(w, x) && x <= y
    ensures Clean(w, y)
  {
  }

  lemma StepKeepsClean(w: World, a: Action, x: set<Id>)
    requires Inv(w) && Clean(w, x) && Legal(w, a) && TakenLiveUnsettled(w, a) <= x
    ensures Inv(Apply(w, a).world) && Clean(Apply(w, a).world, x)
  {
    StepKeepsInv(w, a);
    hide RowsInv, VersionsInv, Activate, IsRecycled, IsCloneQuery, FreshDraft, Existing;
    if a.ACreate? {
      CreateKeepsClean(w, a, x);
    } else if a.APublish? {
      PublishKeepsClean(w, a.v, a.actor, a.bypass, a.ok, x);
    } else if a.ARollback? {
      if Apply(w, a).reply == Done {
        RollbackKeepsCleanIff(w, a.v, a.reasonOk, a.ok, x);
      }
    } else {
      RowStepsKeepClean(w, a, x);
    }
  }

  lemma {:induction false} RunStaysClean(w: World, run: seq<Action>, x: set<Id>)
    requires Inv(w) && Clean(w, x) && LegalRun(w, run) && RolledBackUnsettled(w, run) <= x
    ensures Inv(Final(w, run)) && Clean(Final(w, run), x)
    decreases |run|
  {
    hide RowsInv, VersionsInv, Apply, Clean, TakenLiveUnsettled;
    if run != [] {
      StepKeepsClean(w, run[0], x);
      RunStaysClean(Apply(w, run[0]).world, run[1..], x);
    }
  }

  /** In every run, each binding of a live version is published or revoked, unless a rollback of the run took
      the version live although it was never published and had an unsettled binding. */
  lemma PublishedHasNothingPending(w: World, run: seq<Action>, b: Id)
    requires Initial(w) && LegalRun(w, run) && b in Final(w, run).bindings
    ensures var f := Final(w, run);
            var row := f.bindings[b];
            && row.version in f.versions
            && (f.versions[row.version].status == Live ==>
                  row.status in {Published, Revoked} || row.version in RolledBackUnsettled(w, run))
  {
    InitialInv(w);
    hide RowOk;
    RunStaysClean(w, run, RolledBackUnsettled(w, run));
    var f := Final(w, run);
    IdsOfRows(f);
    assert VersionOk(f.versions[f.bindings[b].version]);
  }

  /** Two drafts, a request on the first, its discard, and a rollback to it: the run a published
      version with a pending binding comes from. */
  function DiscardedDraftRun(): seq<Action> {
    [ACreate(0, None, 1, false, true, None, []), ACreate(0, None, 1, false, true, None, []),
     ABind(0, 0, 1, false, true), ADiscard(0), ARollback(0, true, true)]
  }

  function Stage(n: nat): World {
    var draft := Version(0, Draft, false, false, 1);
    var row := map[2 := Request(0, 0, 1, false, false)];
    var kbs := map[0 := KnowledgeBase(true, false)];
    if n == 0 then World({0}, kbs, map[], map[], 0)
    else if n == 1 then World({0}, kbs, map[0 := draft], map[], 1)
    else if n == 2 then World({0}, kbs, map[0 := draft, 1 := draft], map[], 2)
    else if n == 3 then World({0}, kbs, map[0 := draft, 1 := draft], row, 3)
    else if n == 4 then World({0}, kbs, map[0 := draft.(status := Archived), 1 := draft], row, 3)
    else World({0}, kbs, map[0 := Version(0, Live, true, true, 1), 1 := draft], row, 3)
  }

  ghost predicate StageLeadsOn(n: nat)
    requires n < 5 == |DiscardedDraftRun()|
  {
    && IdsOk(Stage(n)) && Legal(Stage(n), DiscardedDraftRun()[n])
    && Apply(Stage(n), DiscardedDraftRun()[n]).world == Stage(n + 1)
  }

  lemma StageCreates(n: nat)
    requires n < 2
    ensures StageLeadsOn(n)
  {
  }

  lemma StageChanges(n: nat)
    requires n == 2 || n == 3
    ensures StageLeadsOn(n)
  {
    if n == 3 {
      assert 1 in Stage(3).versions;
    }
  }

  lemma StageRollsBack()
    ensures StageLeadsOn(4)
  {
    assert Activate(Stage(4), 0) == Stage(5).versions;
  }

  lemma StageSteps(n: nat)
    requires n < 5
    ensures |DiscardedDraftRun()| == 5 && StageLeadsOn(n)
  {
    RunLength();
    hide StageLeadsOn, Stage, DiscardedDraftRun;
    if n < 2 {
      StageCreates(n);
    } else if n < 4 {
      StageChanges(n);
    } else {
      StageRollsBack();
    }
  }

  lemma {:induction false} StagesAreTheRun(n: nat)
    requires n <= 5
    ensures LegalRun(Stage(n), DiscardedDraftRun()[n..]) && Final(Stage(n), DiscardedDraftRun()[n..]) == Stage(5)
    decreases 5 - n
  {
    hide Stage, DiscardedDraftRun, Apply, Legal, IdsOk;
    if n < 5 {
      StageSteps(n);
      StagesAreTheRun(n + 1);
      RunLength();
      assert DiscardedDraftRun()[n..][0] == DiscardedDraftRun()[n];
      assert DiscardedDraftRun()[n..][1..] == DiscardedDraftRun()[n + 1..];
    } else {
      RunLength();
      LastStageIdsOk();
    }
  }

  /** The same run up to the discard. */
  lemma {:induction false} FirstStages(n: nat)
    requires n <= 4
    ensures LegalRun(Stage(n), DiscardedDraftRun()[n..4]) && Final(Stage(n), DiscardedDraftRun()[n..4]) == Stage(4)
    decreases 4 - n
  {
    RunLength();
    StageSteps(n);
    hide Stage, DiscardedDraftRun, Apply, Legal, IdsOk;
    if n < 4 {
      FirstStages(n + 1);
      assert DiscardedDraftRun()[n..4][0] == DiscardedDraftRun()[n];
      assert DiscardedDraftRun()[n..4][1..] == DiscardedDraftRun()[n + 1..4];
    }
  }

  lemma RunLength()
    ensures |DiscardedDraftRun()| == 5
  {
  }

  lemma LastStageIdsOk()
    ensures IdsOk(Stage(5))
  {
  }

  /** Without the guard on rollback the property fails. */
  lemma DiscardedDraftGoesLivePending()
    ensures exists w: World, run: seq<Action> ::
              && Initial(w) && LegalRun(w, run)
              && var f := Final(w, run);
                 0 in f.versions && f.versions[0].status == Live && AnyAwaiting(f, 0)
  {
    RunLength();
    StagesAreTheRun(0);
    assert DiscardedDraftRun()[0..] == DiscardedDraftRun();
    assert Initial(Stage(0));
    assert 2 in Stage(5).bindings && Awaiting(Stage(5).bindings[2]);
    assert AnyAwaiting(Stage(5), 0);
  }

  /** User 5 asks for a new version as a clone of the discarded one. */
  function CloneOfDiscarded(): Action {
    ACreate(0, Some(0), 5, false, true, Some(0), [])
  }

  /** A discarded draft that still binds a base is both cloned and recycled: the request succeeds, and the
      new version binds nothing. */
  lemma CloneOfRecycledDraftBindsNothing()
    ensures exists w: World, run: seq<Action> ::
              && Initial(w) && LegalRun(w, run)
              && var f, a := Final(w, run), CloneOfDiscarded();
                 && IdsOk(f) && Legal(f, a) && StillBinds(f, 0, 0)
                 && Apply(f, a).reply == Done && !exists b :: OfVersion(Apply(f, a).world, b, 0)
  {
    RunLength();
    FirstStages(0);
    assert Initial(Stage(0));
    var f, a := Stage(4), CloneOfDiscarded();
    assert IdsOk(f);
    assert Cloneable(f, 0, 2) && f.bindings[2].kb == 0;
    assert StillBinds(f, 0, 0);
    assert Recyclable(f, 0, 0);
    var w' := FreshDraft(f, 0, 5, Some(0)).0;
    assert w'.bindings == map[];
    assert Legal(f, a);
    assert Apply(f, a).world == CloneRows(w', 0, [], 0, 5, false) == w';
  }
}
