/** Separation of duties when a Knowledge Base changes its sensitivity after bindings to it were
    approved (backend/app/api/admin_knowledge.py, backend/app/api/admin_agents.py). */
module BindingSensitivity {
  import opened Bindings
  import opened BindingProofs
  import opened BindingTheorems
  import opened Wrappers

  // ----- Separation by the sensitivity of today -----

  predicate RowSeparatedNow(w: World, row: Binding)
    requires row.kb in w.kbs
  {
    (row.status in {Approved, Published} && !row.bypassed) ==> Separated(row, w.kbs[row.kb].sensitive)
  }

  ghost predicate SeparatedNow(w: World)
    requires IdsOk(w)
  {
    forall b | b in w.bindings :: RowSeparatedNow(w, w.bindings[b])
  }

  predicate DomainIndependent(row: Binding) {
    row.domainApprover.Some? && row.domainApprover.value != row.requester && row.domainApprover != row.kbApprover
  }

  /** What the update would have to look at before it makes a base sensitive. */
  predicate MayBecomeSensitive(w: World, kb: Id) {
    forall b | b in w.bindings :: var row := w.bindings[b];
      (row.kb == kb && row.status in {Approved, Published} && !row.bypassed) ==> DomainIndependent(row)
  }

  /** The update of a Knowledge Base keeps separation exactly when it does not make the base sensitive,
      or every approved or published binding of the base already has an independent domain
      approver. Its code checks nothing of the kind. */
  lemma UpdateKbKeepsSeparationIff(w: World, kb: Id, active: Option<bool>, sensitive: Option<bool>)
    requires Inv(w) && SeparatedNow(w) && kb in w.kbs
    ensures Inv(UpdateKb(w, kb, active, sensitive).world)
    ensures SeparatedNow(UpdateKb(w, kb, active, sensitive).world)
       <==> (sensitive == Some(true) ==> MayBecomeSensitive(w, kb))
  {
    UpdateKbKeeps(w, kb, active, sensitive);
    IdsOfRows(w);
    var f := UpdateKb(w, kb, active, sensitive).world;
    hide RowsInv, VersionsInv, IdsOk;
    if sensitive == Some(true) ==> MayBecomeSensitive(w, kb) {
      forall b | b in f.bindings ensures RowSeparatedNow(f, f.bindings[b]) {
        assert RowSeparatedNow(w, w.bindings[b]);
      }
    } else {
      var b :| b in w.bindings && w.bindings[b].kb == kb && w.bindings[b].status in {Approved, Published}
               && !w.bindings[b].bypassed && !DomainIndependent(w.bindings[b]);
      assert !RowSeparatedNow(f, f.bindings[b]);
    }
  }

  lemma PutKeepsSeparation(w: World, b: Id, row: Binding, nextId: Id)
    requires IdsOk(w) && SeparatedNow(w) && IdsOk(w.(bindings := w.bindings[b := row], nextId := nextId))
    requires row.kb in w.kbs && RowSeparatedNow(w, row)
    ensures SeparatedNow(w.(bindings := w.bindings[b := row], nextId := nextId))
  {
  }

  lemma BindKeepsSeparation(w: World, v: Id, kb: Id, actor: User, bypass: bool, ok: bool)
    requires Inv(w) && SeparatedNow(w)
    ensures var f := Bind(w, v, kb, actor, bypass, ok).world; Inv(f) && SeparatedNow(f)
  {
    BindKeeps(w, v, kb, actor, bypass, ok);
    if Bind(w, v, kb, actor, bypass, ok).reply == Done {
      IdsOfRows(w);
      IdsOfRows(Bind(w, v, kb, actor, bypass, ok).world);
      hide RowsInv, VersionsInv, IdsOk, SeparatedNow, Existing;
      var row := Request(v, kb, actor, bypass, w.kbs[kb].sensitive);
      match Existing(w, v, kb)
      case Some(b) => PutKeepsSeparation(w, b, row, w.nextId);
      case None => PutKeepsSeparation(w, w.nextId, row, w.nextId + 1);
    }
  }

  lemma OldRowSeparated(w: World, b: Id)
    requires IdsOk(w) && SeparatedNow(w) && b in w.bindings
    ensures w.bindings[b].kb in w.kbs && RowSeparatedNow(w, w.bindings[b])
  {
  }

  lemma ApprovalsKeepSeparation(w: World, b: Id, actor: User, bypass: bool, ok: bool)
    requires Inv(w) && SeparatedNow(w)
    ensures var f := ApproveKnowledge(w, b, actor, bypass).world; Inv(f) && SeparatedNow(f)
    ensures var f := ApproveDomain(w, b, actor, bypass).world; Inv(f) && SeparatedNow(f)
    ensures var f := Revoke(w, b, ok).world; Inv(f) && SeparatedNow(f)
  {
    hide RowsInv, VersionsInv, IdsOk, SeparatedNow;
    ApprovalsKeep(w, b, actor, bypass, ok);
    IdsOfRows(w);
    var k, d, r := ApproveKnowledge(w, b, actor, bypass), ApproveDomain(w, b, actor, bypass), Revoke(w, b, ok);
    IdsOfRows(k.world);
    IdsOfRows(d.world);
    IdsOfRows(r.world);
    if b in w.bindings {
      BelowNext(w, b);
      OldRowSeparated(w, b);
    }
    if k.reply == Done {
      PutKeepsSeparation(w, b, k.world.bindings[b], w.nextId);
    }
    if d.reply == Done {
      PutKeepsSeparation(w, b, d.world.bindings[b], w.nextId);
    }
    if r.reply == Done {
      PutKeepsSeparation(w, b, r.world.bindings[b], w.nextId);
    }
  }

  lemma ClonesKeepSeparation(w: World, v: Id, rows: seq<Id>, n: nat, actor: User, bypass: bool)
    requires n <= |rows| && (forall b <- rows :: b in w.bindings && b < w.nextId)
    requires IdsOk(w) && SeparatedNow(w) && IdsOk(CloneRows(w, v, rows, n, actor, bypass))
    ensures SeparatedNow(CloneRows(w, v, rows, n, actor, bypass))
  {
    var f := CloneRows(w, v, rows, n, actor, bypass);
    forall b | b in f.bindings ensures RowSeparatedNow(f, f.bindings[b]) {
      CloneSource(w, v, rows, n, actor, bypass, b);
      if b in w.bindings {
        assert RowSeparatedNow(w, w.bindings[b]);
      }
    }
  }

  lemma CreateKeepsSeparation(w: World, a: Action)
    requires Inv(w) && SeparatedNow(w) && Legal(w, a) && a.ACreate?
    ensures Inv(Apply(w, a).world) && SeparatedNow(Apply(w, a).world)
  {
    StepKeepsInv(w, a);
    IdsOfRows(w);
    FreshDraftKeeps(w, a.agent, a.actor, a.recycled);
    var (w', v) := FreshDraft(w, a.agent, a.actor, a.recycled);
    IdsOfRows(w');
    IdsOfRows(Apply(w, a).world);
    FreshDraftKeepsSeparation(w, a.agent, a.actor, a.recycled);
    hide RowsInv, VersionsInv, IdsOk, FreshDraft, SeparatedNow, CloneRows, IsCloneQuery, IsRecycled;
    if a.clone.Some? && Apply(w, a).reply == Done {
      QueryIsClonable(w', v, a.clone.value, a.rows);
      ClonesKeepSeparation(w', v, a.rows, |a.rows|, a.actor, a.bypass);
    }
  }

  lemma FreshDraftKeepsSeparation(w: World, agent: Id, actor: User, recycled: Option<Id>)
    requires IdsOk(w) && SeparatedNow(w) && IdsOk(FreshDraft(w, agent, actor, recycled).0)
    ensures SeparatedNow(FreshDraft(w, agent, actor, recycled).0)
  {
    var w' := FreshDraft(w, agent, actor, recycled).0;
    forall b | b in w'.bindings ensures RowSeparatedNow(w', w'.bindings[b]) {
      assert RowSeparatedNow(w, w.bindings[b]);
    }
  }

  lemma VersionStepsKeepSeparation(w: World, a: Action)
    requires Inv(w) && SeparatedNow(w) && Legal(w, a)
    requires a.ASubmit? || a.ADiscard? || a.APublish? || a.ARollback?
    ensures Inv(Apply(w, a).world) && SeparatedNow(Apply(w, a).world)
  {
    hide RowsInv, VersionsInv, IdsOk, Activate, AnyAwaiting, HasSibling, Bind, ApproveKnowledge, ApproveDomain, Revoke,
         CreateVersion, UpdateKb;
    StepKeepsInv(w, a);
    IdsOfRows(w);
    var f := Apply(w, a).world;
    IdsOfRows(f);
    forall b | b in f.bindings ensures RowSeparatedNow(f, f.bindings[b]) {
      assert b in w.bindings && RowSeparatedNow(w, w.bindings[b]);
    }
  }

  /** The guard on the one step that can break it. */
  predicate SensitivityGuard(w: World, a: Action) {
    (a.AUpdateKb? && a.kb in w.kbs && a.sensitive == Some(true)) ==> MayBecomeSensitive(w, a.kb)
  }

  lemma StepKeepsSeparation(w: World, a: Action)
    requires Inv(w) && SeparatedNow(w) && Legal(w, a) && SensitivityGuard(w, a)
    ensures Inv(Apply(w, a).world) && SeparatedNow(Apply(w, a).world)
  {
    if a.ABind? {
      BindKeepsSeparation(w, a.v, a.kb, a.actor, a.bypass, a.ok);
    } else if a.AApproveKnowledge? || a.AApproveDomain? {
      ApprovalsKeepSeparation(w, a.b, a.actor, a.bypass, true);
    } else if a.ARevoke? {
      ApprovalsKeepSeparation(w, a.b, 0, false, a.ok);
    } else if a.ACreate? {
      CreateKeepsSeparation(w, a);
    } else if a.AUpdateKb? {
      if a.kb in w.kbs {
        UpdateKbKeepsSeparationIff(w, a.kb, a.active, a.sensitive);
      }
    } else {
      VersionStepsKeepSeparation(w, a);
    }
  }

  ghost predicate SensitivityGuardedRun(w: World, run: seq<Action>)
    requires LegalRun(w, run)
    decreases |run|
  {
    run != [] ==> SensitivityGuard(w, run[0]) && SensitivityGuardedRun(Apply(w, run[0]).world, run[1..])
  }

  /** With that guard, separation holds by the sensitivity of today, in every run. */
  lemma {:induction false} GuardedSensitivityKeepsSeparation(w: World, run: seq<Action>)
    requires Inv(w) && SeparatedNow(w) && LegalRun(w, run) && SensitivityGuardedRun(w, run)
    ensures Inv(Final(w, run)) && SeparatedNow(Final(w, run))
    decreases |run|
  {
    hide RowsInv, VersionsInv, Apply, SeparatedNow, SensitivityGuard;
    if run != [] {
      StepKeepsSeparation(w, run[0]);
      GuardedSensitivityKeepsSeparation(Apply(w, run[0]).world, run[1..]);
    }
  }

  // ----- A base made sensitive after the approval -----

  /** Nobody bypasses: user 1 binds an internal base, user 2 approves it, the base is made sensitive,
      and user 2 publishes. */
  function RaisedSensitivityRun(): seq<Action> {
    [ACreate(0, None, 1, false, true, None, []), ABind(0, 0, 1, false, true), AApproveKnowledge(1, 2, false),
     AUpdateKb(0, None, Some(true)), ASubmit(0, true), APublish(0, 2, false, true)]
  }

  function RaisedStage(n: nat): World {
    var draft := Version(0, Draft, false, false, 1);
    var asked := Request(0, 0, 1, false, false);
    var approved := asked.(kbApprover := Some(2), status := Approved);
    var internal, raised := map[0 := KnowledgeBase(true, false)], map[0 := KnowledgeBase(true, true)];
    if n == 0 then World({0}, internal, map[], map[], 0)
    else if n == 1 then World({0}, internal, map[0 := draft], map[], 1)
    else if n == 2 then World({0}, internal, map[0 := draft], map[1 := asked], 2)
    else if n == 3 then World({0}, internal, map[0 := draft], map[1 := approved], 2)
    else if n == 4 then World({0}, raised, map[0 := draft], map[1 := approved], 2)
    else if n == 5 then World({0}, raised, map[0 := draft.(status := Review)], map[1 := approved], 2)
    else World({0}, raised, map[0 := Version(0, Live, true, true, 1)], map[1 := approved.(status := Published)], 2)
  }

  ghost predicate RaisedLeadsOn(n: nat)
    requires n < 6 == |RaisedSensitivityRun()|
  {
    && IdsOk(RaisedStage(n)) && Legal(RaisedStage(n), RaisedSensitivityRun()[n])
    && Apply(RaisedStage(n), RaisedSensitivityRun()[n]).world == RaisedStage(n + 1)
    && !Bypasses(RaisedSensitivityRun()[n])
  }

  lemma RaisedCreates()
    ensures RaisedLeadsOn(0)
  {
  }

  lemma RaisedBinds()
    ensures RaisedLeadsOn(1)
  {
  }

  lemma RaisedChanges(n: nat)
    requires 2 <= n < 5
    ensures RaisedLeadsOn(n)
  {
  }

  lemma RaisedPublishes()
    ensures RaisedLeadsOn(5)
  {
    assert Activate(RaisedStage(5), 0) == RaisedStage(6).versions;
    assert (map b | b in RaisedStage(5).bindings :: PublishRow(RaisedStage(5).bindings[b], 0)) == RaisedStage(6).bindings;
  }

  lemma RaisedSteps(n: nat)
    requires n < 6
    ensures |RaisedSensitivityRun()| == 6 && RaisedLeadsOn(n)
  {
    RaisedEnds();
    hide RaisedLeadsOn, RaisedStage, RaisedSensitivityRun;
    if n == 0 {
      RaisedCreates();
    } else if n == 1 {
      RaisedBinds();
    } else if n < 5 {
      RaisedChanges(n);
    } else {
      RaisedPublishes();
    }
  }

  lemma {:induction false} RaisedStagesAreTheRun(n: nat)
    requires n <= 6
    ensures LegalRun(RaisedStage(n), RaisedSensitivityRun()[n..])
    ensures Final(RaisedStage(n), RaisedSensitivityRun()[n..]) == RaisedStage(6)
    ensures forall a <- RaisedSensitivityRun()[n..] :: !Bypasses(a)
    decreases 6 - n
  {
    hide RaisedStage, RaisedSensitivityRun, Apply, Legal, IdsOk, Bypasses;
    RaisedEnds();
    if n < 6 {
      RaisedSteps(n);
      RaisedStagesAreTheRun(n + 1);
      assert RaisedSensitivityRun()[n..][0] == RaisedSensitivityRun()[n];
      assert RaisedSensitivityRun()[n..][1..] == RaisedSensitivityRun()[n + 1..];
    }
  }

  lemma RaisedEnds()
    ensures |RaisedSensitivityRun()| == 6 && IdsOk(RaisedStage(6))
  {
  }

  /** Without the guard on the update, a published binding of a sensitive base can lack a domain
      approver although no actor bypassed anything. */
  lemma RaisedSensitivityLeavesNoDomainApprover()
    ensures exists w: World, run: seq<Action> ::
              && Initial(w) && LegalRun(w, run) && (forall a <- run :: !Bypasses(a))
              && var f := Final(w, run);
                 && 1 in f.bindings && f.bindings[1].status == Published && !f.bindings[1].bypassed
                 && f.bindings[1].kb in f.kbs && f.kbs[f.bindings[1].kb].sensitive
                 && f.bindings[1].domainApprover.None?
  {
    RaisedEnds();
    RaisedStagesAreTheRun(0);
    assert RaisedSensitivityRun()[0..] == RaisedSensitivityRun();
    assert Initial(RaisedStage(0));
  }
}
