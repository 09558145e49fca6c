/** Who may do what to versions and bindings (backend/app/api/admin_agents.py,
    backend/app/services/agent_definition_service.py): for every request the exact condition under which it
    succeeds, what it then changes, and who took a version live. */
module BindingReplies {
  import opened Bindings
  import opened BindingProofs
  import opened Wrappers

  // ----- Binding a Knowledge Base -----

  ghost predicate BoundAs(w: World, b: Id, v: Id, kb: Id) {
    b in w.bindings && w.bindings[b].version == v && w.bindings[b].kb == kb
  }

  /** A request to bind succeeds exactly on a draft and an active base that is not bound to it yet, or was
      revoked, under valid release settings. */
  lemma BindDoneIff(w: World, v: Id, kb: Id, actor: User, bypass: bool, releaseOk: bool)
    requires Inv(w)
    ensures Bind(w, v, kb, actor, bypass, releaseOk).reply == Done <==>
            (&& v in w.versions && w.versions[v].status == Draft && kb in w.kbs && w.kbs[kb].active && releaseOk
             && forall b :: BoundAs(w, b, v, kb) ==> w.bindings[b].status == Revoked)
    ensures Bind(w, v, kb, actor, bypass, releaseOk).reply == NotFound <==>
            v !in w.versions || (w.versions[v].status == Draft && (kb !in w.kbs || !w.kbs[kb].active))
    ensures Bind(w, v, kb, actor, bypass, releaseOk).reply == BadRequest <==>
            (&& v in w.versions && w.versions[v].status == Draft && kb in w.kbs && w.kbs[kb].active && !releaseOk
             && forall b :: BoundAs(w, b, v, kb) ==> w.bindings[b].status == Revoked)
    ensures Bind(w, v, kb, actor, bypass, releaseOk).reply != Done ==>
              Bind(w, v, kb, actor, bypass, releaseOk).world == w
  {
    hide RowsInv, VersionsInv;
    if b :| BoundAs(w, b, v, kb) {
      forall c | BoundAs(w, c, v, kb) ensures c == b {
        OnlyOneRow(w, b, c);
      }
      assert Existing(w, v, kb) == Some(b) by {
        assert OfVersion(w, b, v) && w.bindings[b].kb == kb;
        var e := Existing(w, v, kb).value;
        assert BoundAs(w, e, v, kb);
      }
    } else {
      assert forall b :: !(OfVersion(w, b, v) && w.bindings[b].kb == kb) by {
        forall b ensures !(OfVersion(w, b, v) && w.bindings[b].kb == kb) {
          assert !BoundAs(w, b, v, kb);
        }
      }
    }
  }

  lemma OnlyOneRow(w: World, b: Id, c: Id)
    requires Inv(w) && b in w.bindings && c in w.bindings
    requires w.bindings[b].version == w.bindings[c].version && w.bindings[b].kb == w.bindings[c].kb
    ensures b == c
  {
    hide RowOk;
  }

  /** The bound row, on the old row of the pair or on a new one; no other row changes. A request of somebody
      who bypasses is approved at once, by themselves; any other waits for the Knowledge approval. */
  lemma BindBinds(w: World, v: Id, kb: Id, actor: User, bypass: bool, releaseOk: bool)
    requires Inv(w) && Bind(w, v, kb, actor, bypass, releaseOk).reply == Done
    ensures var f := Bind(w, v, kb, actor, bypass, releaseOk).world;
            && f.versions == w.versions && f.kbs == w.kbs && f.agents == w.agents
            && exists b :: BoundAs(f, b, v, kb) && (b in w.bindings ==> BoundAs(w, b, v, kb))
                 && (forall c | c != b :: (c in f.bindings <==> c in w.bindings) && (c in w.bindings ==> f.bindings[c] == w.bindings[c]))
                 && var row := f.bindings[b];
                    && row.requester == actor
                    && (bypass ==> row.status == Approved && row.kbApprover == Some(actor)
                                   && row.domainApprover == if w.kbs[kb].sensitive then Some(actor) else None)
                    && (!bypass ==> row.status == PendingKb && row.kbApprover.None? && row.domainApprover.None?)
  {
    var f := Bind(w, v, kb, actor, bypass, releaseOk).world;
    hide RowsInv, VersionsInv;
    var e := Existing(w, v, kb);
    var b := if e.Some? then e.value else w.nextId;
    assert BoundAs(f, b, v, kb);
    if e.None? {
      NextIsNew(w);
    }
  }

  lemma NextIsNew(w: World)
    requires Inv(w)
    ensures w.nextId !in w.bindings && w.nextId !in w.versions
  {
  }

  // ----- Approvals -----

  /** A Knowledge approval succeeds exactly on a binding that waits for one, given by somebody other than its
      requester or by somebody who bypasses. */
  lemma KnowledgeApprovalDoneIff(w: World, b: Id, actor: User, bypass: bool)
    requires Inv(w)
    ensures ApproveKnowledge(w, b, actor, bypass).reply == Done <==>
            b in w.bindings && w.bindings[b].status == PendingKb && (w.bindings[b].requester != actor || bypass)
    ensures ApproveKnowledge(w, b, actor, bypass).reply == NotFound <==> b !in w.bindings
    ensures ApproveKnowledge(w, b, actor, bypass).reply != Done ==> ApproveKnowledge(w, b, actor, bypass).world == w
  {
    hide VersionsInv;
    if b in w.bindings {
      RowIsKnown(w, b);
    }
  }

  lemma RowIsKnown(w: World, b: Id)
    requires Inv(w) && b in w.bindings
    ensures w.bindings[b].version in w.versions && w.bindings[b].kb in w.kbs
  {
  }

  /** It is recorded with its giver, and leads to a domain approval if the base is sensitive, and otherwise to
      the end, which for a live version is publication. */
  lemma KnowledgeApprovalApproves(w: World, b: Id, actor: User, bypass: bool)
    requires Inv(w) && ApproveKnowledge(w, b, actor, bypass).reply == Done
    ensures var f := ApproveKnowledge(w, b, actor, bypass).world;
            var row := w.bindings[b];
            && row.kb in w.kbs && row.version in w.versions && b in f.bindings
            && f == w.(bindings := w.bindings[b := f.bindings[b]])
            && f.bindings[b].kbApprover == Some(actor) && f.bindings[b].domainApprover == row.domainApprover
            && f.bindings[b].requester == row.requester && f.bindings[b].version == row.version && f.bindings[b].kb == row.kb
            && (f.bindings[b].status == PendingDomain <==> w.kbs[row.kb].sensitive)
            && (f.bindings[b].status == Published <==> !w.kbs[row.kb].sensitive && w.versions[row.version].status == Live)
            && (f.bindings[b].status == Approved <==> !w.kbs[row.kb].sensitive && w.versions[row.version].status != Live)
  {
    hide VersionsInv;
    RowIsKnown(w, b);
  }

  /** A domain approval succeeds exactly on a binding that waits for one, given by somebody who neither asked for
      the binding nor gave its Knowledge approval, or by somebody who bypasses. */
  lemma DomainApprovalDoneIff(w: World, b: Id, actor: User, bypass: bool)
    requires Inv(w)
    ensures ApproveDomain(w, b, actor, bypass).reply == Done <==>
            (&& b in w.bindings && w.bindings[b].status == PendingDomain
             && ((w.bindings[b].requester != actor && w.bindings[b].kbApprover != Some(actor)) || bypass))
    ensures ApproveDomain(w, b, actor, bypass).reply == NotFound <==> b !in w.bindings
    ensures ApproveDomain(w, b, actor, bypass).reply != Done ==> ApproveDomain(w, b, actor, bypass).world == w
  {
    hide VersionsInv;
    if b in w.bindings {
      RowIsKnown(w, b);
    }
  }

  lemma DomainApprovalApproves(w: World, b: Id, actor: User, bypass: bool)
    requires Inv(w) && ApproveDomain(w, b, actor, bypass).reply == Done
    ensures var f := ApproveDomain(w, b, actor, bypass).world;
            var row := w.bindings[b];
            && row.version in w.versions && b in f.bindings && f == w.(bindings := w.bindings[b := f.bindings[b]])
            && f.bindings[b].domainApprover == Some(actor) && f.bindings[b].kbApprover == row.kbApprover
            && f.bindings[b].requester == row.requester && f.bindings[b].version == row.version && f.bindings[b].kb == row.kb
            && f.bindings[b].status == if w.versions[row.version].status == Live then Published else Approved
  {
    hide VersionsInv;
    RowIsKnown(w, b);
  }

  /** A revocation succeeds exactly on a binding of a draft that is not revoked yet, with a reason, and changes
      its status only. */
  lemma RevokeDoneIff(w: World, b: Id, reasonOk: bool)
    requires Inv(w)
    ensures Revoke(w, b, reasonOk).reply == Done <==>
            (&& b in w.bindings && w.bindings[b].version in w.versions && w.versions[w.bindings[b].version].status == Draft
             && w.bindings[b].status != Revoked && reasonOk)
    ensures Revoke(w, b, reasonOk).reply == NotFound <==> b !in w.bindings
    ensures Revoke(w, b, reasonOk).world ==
            if Revoke(w, b, reasonOk).reply == Done
            then w.(bindings := w.bindings[b := w.bindings[b].(status := Revoked)]) else w
  {
    hide VersionsInv;
    if b in w.bindings {
      RowIsKnown(w, b);
    }
  }

  // ----- Versions -----

  /** A submission succeeds exactly on a draft that passes the gates. */
  lemma SubmitDoneIff(w: World, v: Id, gate: bool)
    ensures Submit(w, v, gate).reply == Done <==> v in w.versions && w.versions[v].status == Draft && gate
    ensures Submit(w, v, gate).reply == NotFound <==> v !in w.versions
    ensures Submit(w, v, gate).world ==
            if Submit(w, v, gate).reply == Done
            then w.(versions := w.versions[v := w.versions[v].(status := Review)]) else w
  {
  }

  /** A draft is discarded exactly if its agent has another version. */
  lemma DiscardDoneIff(w: World, v: Id)
    ensures Discard(w, v).reply == Done <==>
            (&& v in w.versions && w.versions[v].status == Draft
             && exists u :: u in w.versions && u != v && w.versions[u].agent == w.versions[v].agent)
    ensures Discard(w, v).reply == NotFound <==> v !in w.versions
    ensures Discard(w, v).world ==
            if Discard(w, v).reply == Done
            then w.(versions := w.versions[v := w.versions[v].(status := Archived, active := false)]) else w
  {
  }

  /** A version is published exactly if it is in review, none of its bindings waits, the gates hold, and the
      actor did not create it or bypasses. */
  lemma PublishDoneIff(w: World, v: Id, actor: User, bypass: bool, gate: bool)
    ensures Publish(w, v, actor, bypass, gate).reply == Done <==>
            (&& v in w.versions && w.versions[v].status == Review && gate
             && (forall b | b in w.bindings && w.bindings[b].version == v :: w.bindings[b].status in {Approved, Published, Revoked})
             && (w.versions[v].creator != actor || bypass))
    ensures Publish(w, v, actor, bypass, gate).reply == NotFound <==> v !in w.versions
    ensures Publish(w, v, actor, bypass, gate).reply != Done ==> Publish(w, v, actor, bypass, gate).world == w
  {
  }

  /** A rollback succeeds exactly on a live or archived version, with a reason, if the gates hold. */
  lemma RollbackDoneIff(w: World, v: Id, reasonOk: bool, gate: bool)
    ensures Rollback(w, v, reasonOk, gate).reply == Done <==>
            v in w.versions && w.versions[v].status in {Live, Archived} && reasonOk && gate
    ensures Rollback(w, v, reasonOk, gate).reply == NotFound <==> v !in w.versions
    ensures Rollback(w, v, reasonOk, gate).reply != Done ==> Rollback(w, v, reasonOk, gate).world == w
  {
  }

  /** What going live means: the version is live, active and published from now on, every other live and active
      version of its agent is archived, and nothing else about any version changes. */
  ghost predicate GoesLive(w: World, f: World, v: Id)
    requires v in w.versions
  {
    && f.versions.Keys == w.versions.Keys && f.kbs == w.kbs && f.agents == w.agents && f.nextId == w.nextId
    && forall u | u in w.versions ::
         var old', new' := w.versions[u], f.versions[u];
         && new'.agent == old'.agent && new'.creator == old'.creator
         && (if u == v then new'.status == Live && new'.active && new'.everPublished
             else if old'.agent == w.versions[v].agent && old'.active && old'.status == Live
             then new'.status == Archived && !new'.active && new'.everPublished == old'.everPublished
             else new' == old')
  }

  lemma PublishGoesLive(w: World, v: Id, actor: User, bypass: bool, gate: bool)
    requires Publish(w, v, actor, bypass, gate).reply == Done
    ensures var f := Publish(w, v, actor, bypass, gate).world;
            && GoesLive(w, f, v) && f.bindings.Keys == w.bindings.Keys
            && forall b | b in w.bindings ::
                 f.bindings[b] == if w.bindings[b].version == v && w.bindings[b].status == Approved
                                  then w.bindings[b].(status := Published) else w.bindings[b]
  {
  }

  lemma RollbackGoesLive(w: World, v: Id, reasonOk: bool, gate: bool)
    requires Rollback(w, v, reasonOk, gate).reply == Done
    ensures var f := Rollback(w, v, reasonOk, gate).world; GoesLive(w, f, v) && f.bindings == w.bindings
  {
  }

  /** A version is created exactly for a known agent, with a prompt, and if it is a clone, of a version of that
      agent. */
  lemma CreateDoneIff(w: World, a: Action)
    requires IdsOk(w) && Legal(w, a) && a.ACreate?
    ensures Apply(w, a).reply == Done <==>
            (&& a.agent in w.agents && a.ok
             && (a.clone.Some? ==> a.clone.value in w.versions && w.versions[a.clone.value].agent == a.agent))
    ensures Apply(w, a).reply == NotFound <==>
            a.agent !in w.agents || (a.clone.Some? && a.clone.value !in w.versions)
    ensures Apply(w, a).reply != Done ==> Apply(w, a).world == w
  {
    hide FreshDraft, CloneRows, IsCloneQuery, IsRecycled;
  }

  /** The new version is a draft of its creator that was never published; no other version changes. */
  lemma CreateAddsDraft(w: World, a: Action)
    requires Inv(w) && Legal(w, a) && a.ACreate? && Apply(w, a).reply == Done
    ensures var v := if a.recycled.Some? then a.recycled.value else w.nextId;
            var f := Apply(w, a).world;
            && f.versions == w.versions[v := Version(a.agent, Draft, false, false, a.actor)]
            && (a.recycled.None? ==> v !in w.versions)
            && (a.recycled.Some? ==> v in w.versions && w.versions[v].agent == a.agent
                                     && w.versions[v].status == Archived && !w.versions[v].everPublished)
            && f.kbs == w.kbs && f.agents == w.agents
  {
    NextIsNew(w);
    hide RowsInv, VersionsInv, IsCloneQuery;
    FreshVersions(w, a.agent, a.actor, a.recycled);
  }

  lemma FreshVersions(w: World, agent: Id, actor: User, recycled: Option<Id>)
    ensures var (f, v) := FreshDraft(w, agent, actor, recycled);
            && v == (if recycled.Some? then recycled.value else w.nextId)
            && f.versions == w.versions[v := Version(agent, Draft, false, false, actor)]
            && f.kbs == w.kbs && f.agents == w.agents
  {
  }

  /** An update sets the named fields of a known base and nothing else. */
  lemma UpdateKbDoneIff(w: World, kb: Id, active: Option<bool>, sensitive: Option<bool>)
    ensures var r := UpdateKb(w, kb, active, sensitive);
            && (r.reply == if kb in w.kbs then Done else NotFound)
            && r.world == w.(kbs := r.world.kbs) && r.world.kbs.Keys == w.kbs.Keys
            && (forall k | k in w.kbs && k != kb :: r.world.kbs[k] == w.kbs[k])
            && (kb in w.kbs ==>
                  && (active.Some? ==> r.world.kbs[kb].active == active.value)
                  && (active.None? ==> r.world.kbs[kb].active == w.kbs[kb].active)
                  && (sensitive.Some? ==> r.world.kbs[kb].sensitive == sensitive.value)
                  && (sensitive.None? ==> r.world.kbs[kb].sensitive == w.kbs[kb].sensitive))
  {
  }

  // ----- Over runs -----

  /** The world before the i-th action of a run. */
  ghost function Before(w: World, run: seq<Action>, i: nat): (f: World)
    requires LegalRun(w, run) && i < |run|
    ensures IdsOk(f) && Legal(f, run[i])
    decreases i
  {
    if i == 0 then w else Before(Apply(w, run[0]).world, run[1..], i - 1)
  }

  predicate IsLive(w: World, v: Id) {
    v in w.versions && w.versions[v].status == Live
  }

  /** This step publishes the version, or rolls back to it. */
  ghost predicate TakesLive(w: World, a: Action, v: Id)
    requires IdsOk(w) && Legal(w, a)
  {
    (a.APublish? || a.ARollback?) && a.v == v && Apply(w, a).reply == Done
  }

  /** A step after which a version is live that was not live before published it or rolled back to it. */
  lemma OnlyPublicationAndRollbackGoLive(w: World, a: Action, v: Id)
    requires Inv(w) && IdsOk(w) && Legal(w, a) && !IsLive(w, v) && IsLive(Apply(w, a).world, v)
    ensures TakesLive(w, a, v)
  {
    hide RowsInv, VersionsInv, IsCloneQuery, IsRecycled, Existing, AnyAwaiting;
    if a.ACreate? {
      if Apply(w, a).reply == Done {
        CreateAddsDraft(w, a);
      }
    } else if a.APublish? {
      PublishVersions(w, a.v, a.actor, a.bypass, a.ok, v);
    } else if a.ARollback? {
      RollbackVersions(w, a.v, a.reasonOk, a.ok, v);
    }
  }

  lemma PublishVersions(w: World, v: Id, actor: User, bypass: bool, gate: bool, u: Id)
    requires !IsLive(w, u) && IsLive(Publish(w, v, actor, bypass, gate).world, u)
    ensures u == v && Publish(w, v, actor, bypass, gate).reply == Done
  {
  }

  lemma RollbackVersions(w: World, v: Id, reasonOk: bool, gate: bool, u: Id)
    requires !IsLive(w, u) && IsLive(Rollback(w, v, reasonOk, gate).world, u)
    ensures u == v && Rollback(w, v, reasonOk, gate).reply == Done
  {
  }

  /** In every run, whoever published a version without bypassing had not created it. */
  lemma PublishersAreNotCreators(w: World, run: seq<Action>, i: nat)
    requires LegalRun(w, run) && i < |run| && run[i].APublish? && !run[i].bypass
    ensures var before := Before(w, run, i);
            Apply(before, run[i]).reply == Done ==>
              run[i].v in before.versions && before.versions[run[i].v].creator != run[i].actor
  {
    var before := Before(w, run, i);
    PublishDoneIff(before, run[i].v, run[i].actor, run[i].bypass, run[i].ok);
  }

  /** In every run, a version that is live at the end was taken live by a step of the run; if by a publication,
      then by somebody other than its creator, or by somebody who bypasses. */
  lemma {:induction false} LiveVersionsWereTakenLive(w: World, run: seq<Action>, v: Id)
    requires Inv(w) && LegalRun(w, run) && !IsLive(w, v) && IsLive(Final(w, run), v)
    ensures exists i | 0 <= i < |run| ::
              var before := Before(w, run, i);
              && TakesLive(before, run[i], v)
              && (run[i].APublish? ==>
                    v in before.versions && (before.versions[v].creator != run[i].actor || run[i].bypass))
    decreases |run|
  {
    hide RowsInv, VersionsInv, Apply, Legal, IdsOk, TakesLive;
    var next, rest := Apply(w, run[0]).world, run[1..];
    assert Before(w, run, 0) == w;
    if IsLive(next, v) {
      OnlyPublicationAndRollbackGoLive(w, run[0], v);
      PublisherOf(w, run[0], v);
    } else {
      StepKeepsInv(w, run[0]);
      LiveVersionsWereTakenLive(next, rest, v);
      var i :| 0 <= i < |rest| && (var before := Before(next, rest, i);
              && TakesLive(before, rest[i], v)
              && (rest[i].APublish? ==>
                    v in before.versions && (before.versions[v].creator != rest[i].actor || rest[i].bypass)));
      assert Before(w, run, i + 1) == Before(next, rest, i) && run[i + 1] == rest[i];
    }
  }

  lemma PublisherOf(w: World, a: Action, v: Id)
    requires IdsOk(w) && Legal(w, a) && TakesLive(w, a, v)
    ensures a.APublish? ==> v in w.versions && (w.versions[v].creator != a.actor || a.bypass)
  {
    if a.APublish? {
      PublishDoneIff(w, a.v, a.actor, a.bypass, a.ok);
    }
  }
}
