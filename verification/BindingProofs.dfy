/** Separation of duties and the settled state of published versions, over all runs of the
    binding endpoints (backend/app/api/admin_agents.py). */
module BindingProofs {
  import opened Bindings
  import opened Wrappers

  // ----- The invariant -----

  /** Requester, Knowledge approver and, where one is needed, domain approver are three people. */
  predicate Separated(b: Binding, sensitive: bool) {
    && b.kbApprover.Some? && b.kbApprover.value != b.requester
    && (sensitive ==> b.domainApprover.Some? && b.domainApprover.value !in {b.requester, b.kbApprover.value})
  }

  /** Separation is judged by the sensitivity that the Knowledge approval read. */
  predicate RowOk(b: Binding) {
    match b.status
    case PendingKb => b.kbApprover.None? && b.domainApprover.None?
    case PendingDomain =>
      && b.wasSensitive && b.kbApprover.Some? && b.domainApprover.None?
      && (b.bypassed || b.kbApprover.value != b.requester)
    case Approved => b.bypassed || Separated(b, b.wasSensitive)
    case Published => b.bypassed || Separated(b, b.wasSensitive)
    case Revoked => true
    case _ => false
  }

  predicate VersionOk(v: Version) {
    && (v.active <==> v.status == Live)
    && (v.status in {Draft, Review} ==> !v.everPublished)
    && (v.status == Live ==> v.everPublished)
  }

  ghost predicate RowsInv(w: World) {
    && IdsOk(w)
    && (forall b | b in w.bindings :: RowInv(w, w.bindings[b]))
    && (forall b, c | b in w.bindings && c in w.bindings && b != c :: !SamePair(w.bindings[b], w.bindings[c]))
  }

  predicate RowInv(w: World, row: Binding) {
    && row.kb in w.kbs && row.version in w.versions
    && RowOk(row)
    && (row.status == Published ==> w.versions[row.version].everPublished)
  }

  predicate SamePair(b: Binding, c: Binding) {
    b.version == c.version && b.kb == c.kb
  }

  ghost predicate VersionsInv(versions: map<Id, Version>) {
    && (forall v | v in versions :: VersionOk(versions[v]))
    && (forall u, v | u in versions && v in versions && u != v ::
          versions[u].agent == versions[v].agent ==> !versions[u].active || !versions[v].active)
  }

  ghost predicate Inv(w: World) {
    RowsInv(w) && VersionsInv(w.versions)
  }

  /** Every binding of a version that was ever published, other than those in `x`, is published or revoked. */
  ghost predicate Clean(w: World, x: set<Id>)
    requires IdsOk(w)
  {
    forall b | b in w.bindings ::
      (w.bindings[b].version !in x && w.versions[w.bindings[b].version].everPublished) ==>
        w.bindings[b].status in {Published, Revoked}
  }

  // ----- One step keeps the invariant -----

  /** A row put in place of one for the same pair, or on a new id for a pair that has none. */
  lemma PutKeeps(w: World, b: Id, row: Binding, nextId: Id)
    requires RowsInv(w) && RowInv(w, row) && w.nextId <= nextId && b < nextId
    requires forall c | c in w.bindings && c != b :: !SamePair(w.bindings[c], row)
    ensures RowsInv(w.(bindings := w.bindings[b := row], nextId := nextId))
  {
    hide RowOk;
  }

  lemma ExistingIs(w: World, v: Id, kb: Id)
    requires RowsInv(w)
    ensures match Existing(w, v, kb)
            case Some(b) => OfVersion(w, b, v) && w.bindings[b].kb == kb
                            && forall c | c in w.bindings && c != b :: !(w.bindings[c].version == v && w.bindings[c].kb == kb)
            case None => forall c | c in w.bindings :: !(w.bindings[c].version == v && w.bindings[c].kb == kb)
  {
    hide RowInv, IdsOk;
    if Existing(w, v, kb).None? {
      forall c | c in w.bindings ensures !(w.bindings[c].version == v && w.bindings[c].kb == kb) {
        assert OfVersion(w, c, w.bindings[c].version);
      }
    } else {
      var b := Existing(w, v, kb).value;
      forall c | c in w.bindings && c != b ensures !(w.bindings[c].version == v && w.bindings[c].kb == kb) {
        assert !SamePair(w.bindings[b], w.bindings[c]);
      }
    }
  }

  lemma BindKeeps(w: World, v: Id, kb: Id, actor: User, bypass: bool, ok: bool)
    requires Inv(w)
    ensures Inv(Bind(w, v, kb, actor, bypass, ok).world)
  {
    hide Existing, RowsInv;
    if Bind(w, v, kb, actor, bypass, ok).reply == Done {
      ExistingIs(w, v, kb);
      var row := Request(v, kb, actor, bypass, w.kbs[kb].sensitive);
      assert RowInv(w, row);
      hide RowInv;
      match Existing(w, v, kb)
      case Some(b) =>
        BelowNext(w, b);
        PutKeeps(w, b, row, w.nextId);
      case None =>
        PutKeeps(w, w.nextId, row, w.nextId + 1);
    }
  }

  lemma BelowNext(w: World, b: Id)
    requires RowsInv(w) && b in w.bindings
    ensures b < w.nextId && RowInv(w, w.bindings[b])
    ensures forall c | c in w.bindings && c != b :: !SamePair(w.bindings[c], w.bindings[b])
  {
  }

  lemma ApprovalsKeep(w: World, b: Id, actor: User, bypass: bool, ok: bool)
    requires Inv(w)
    ensures Inv(ApproveKnowledge(w, b, actor, bypass).world)
    ensures Inv(ApproveDomain(w, b, actor, bypass).world)
    ensures Inv(Revoke(w, b, ok).world)
  {
    hide RowsInv, VersionsInv;
    if b in w.bindings {
      BelowNext(w, b);
      if ApproveKnowledge(w, b, actor, bypass).reply == Done {
        OneRow(w, b, ApproveKnowledge(w, b, actor, bypass).world.bindings[b]);
      }
      if ApproveDomain(w, b, actor, bypass).reply == Done {
        OneRow(w, b, ApproveDomain(w, b, actor, bypass).world.bindings[b]);
      }
      if Revoke(w, b, ok).reply == Done {
        OneRow(w, b, Revoke(w, b, ok).world.bindings[b]);
      }
    }
  }

  lemma OneRow(w: World, b: Id, row: Binding)
    requires Inv(w) && b in w.bindings && SamePair(row, w.bindings[b])
    requires RowOk(row)
    requires row.status == Published ==> w.versions[row.version].status == Live || w.bindings[b].status == Published
    ensures Inv(w.(bindings := w.bindings[b := row]))
  {
    BelowNext(w, b);
    hide RowOk;
    assert RowInv(w, row);
    hide RowsInv, RowInv;
    PutKeeps(w, b, row, w.nextId);
  }

  /** Versions may change as long as none disappears and none forgets having been published. */
  lemma VersionsMove(w: World, w': World)
    requires RowsInv(w) && w'.bindings == w.bindings && w'.kbs == w.kbs && w.nextId <= w'.nextId
    requires forall v | v in w'.versions :: v < w'.nextId
    requires forall v | v in w.versions :: v in w'.versions && (w.versions[v].everPublished ==> w'.versions[v].everPublished)
    ensures RowsInv(w')
  {
    hide RowOk;
  }

  lemma SubmitKeeps(w: World, v: Id, ok: bool)
    requires Inv(w)
    ensures Inv(Submit(w, v, ok).world)
  {
    VersionsMove(w, Submit(w, v, ok).world);
    hide RowsInv;
  }

  lemma DiscardKeeps(w: World, v: Id)
    requires Inv(w)
    ensures Inv(Discard(w, v).world)
  {
    VersionsMove(w, Discard(w, v).world);
    hide RowsInv, HasSibling;
  }

  lemma ActivateKeeps(w: World, v: Id)
    requires Inv(w) && v in w.versions
    ensures Inv(w.(versions := Activate(w, v))) && Activate(w, v)[v].everPublished
    ensures forall u | u in w.versions :: w.versions[u].everPublished ==> Activate(w, v)[u].everPublished
    ensures forall u | u in w.versions && u != v :: Activate(w, v)[u].everPublished == w.versions[u].everPublished
  {
    VersionsMove(w, w.(versions := Activate(w, v)));
    hide RowsInv;
  }

  lemma PublishKeeps(w: World, v: Id, actor: User, bypass: bool, ok: bool)
    requires Inv(w)
    ensures Inv(Publish(w, v, actor, bypass, ok).world)
  {
    if Publish(w, v, actor, bypass, ok).reply == Done {
      ActivateKeeps(w, v);
      hide Activate, VersionsInv;
      PublishRowsKeep(w.(versions := Activate(w, v)), v);
    }
  }

  lemma PublishRowsKeep(w: World, v: Id)
    requires RowsInv(w) && v in w.versions && w.versions[v].everPublished
    ensures RowsInv(w.(bindings := map b | b in w.bindings :: PublishRow(w.bindings[b], v)))
  {
    var w' := w.(bindings := map b | b in w.bindings :: PublishRow(w.bindings[b], v));
    forall b | b in w.bindings ensures RowInv(w', w'.bindings[b]) && SamePair(w.bindings[b], w'.bindings[b]) {
      assert RowInv(w, w.bindings[b]);
    }
    hide RowInv, PublishRow;
    assert forall b, c | b in w.bindings && c in w.bindings && b != c :: !SamePair(w.bindings[b], w.bindings[c]);
  }

  lemma RollbackKeeps(w: World, v: Id, reasonOk: bool, ok: bool)
    requires Inv(w)
    ensures Inv(Rollback(w, v, reasonOk, ok).world)
  {
    if Rollback(w, v, reasonOk, ok).reply == Done {
      ActivateKeeps(w, v);
    }
  }

  lemma UpdateKbKeeps(w: World, kb: Id, active: Option<bool>, sensitive: Option<bool>)
    requires Inv(w)
    ensures Inv(UpdateKb(w, kb, active, sensitive).world)
  {
    hide RowOk;
  }

  // ----- Creating and cloning -----

  /** After n clones every row is an old one or the copy of one of the first n rows. */
  lemma {:induction false} CloneSource(w: World, v: Id, rows: seq<Id>, n: nat, actor: User, bypass: bool, c: Id)
    requires n <= |rows| && (forall b <- rows :: b in w.bindings && b < w.nextId)
    requires forall b | b in w.bindings :: b < w.nextId
    requires c in CloneRows(w, v, rows, n, actor, bypass).bindings
    ensures var r := CloneRows(w, v, rows, n, actor, bypass);
            && (c in w.bindings ==> r.bindings[c] == w.bindings[c])
            && (c !in w.bindings ==>
                  && w.nextId <= c < w.nextId + n
                  && r.bindings[c] == Copy(w.bindings[rows[c - w.nextId]], v, actor, bypass))
  {
    hide Copy;
    if n > 0 {
      var before := CloneRows(w, v, rows, n - 1, actor, bypass);
      if c != before.nextId {
        CloneSource(w, v, rows, n - 1, actor, bypass, c);
      }
    }
  }

  lemma FreshDraftKeeps(w: World, agent: Id, actor: User, recycled: Option<Id>)
    requires Inv(w) && IsRecycled(w, agent, recycled)
    ensures var (w', v) := FreshDraft(w, agent, actor, recycled);
            && Inv(w') && v in w'.versions && w'.versions[v].status == Draft
            && (forall b :: !OfVersion(w', b, v))
  {
    hide RowOk;
    var (w', v) := FreshDraft(w, agent, actor, recycled);
    assert RowsInv(w');
    hide RowsInv;
    assert VersionsInv(w'.versions);
  }

  /** What a clone may assume: a draft without bindings, and the query's rows. */
  ghost predicate Clonable(w: World, v: Id, source: Id, rows: seq<Id>) {
    && v in w.versions && w.versions[v].status == Draft && (forall b :: !OfVersion(w, b, v))
    && IsCloneQuery(w, source, rows)
    && (forall b <- rows :: b in w.bindings && b < w.nextId)
    && (forall i, j | 0 <= i < j < |rows| :: !SamePair(w.bindings[rows[i]], w.bindings[rows[j]]))
  }

  lemma QueryIsClonable(w: World, v: Id, source: Id, rows: seq<Id>)
    requires RowsInv(w) && IsCloneQuery(w, source, rows)
    requires v in w.versions && w.versions[v].status == Draft && (forall b :: !OfVersion(w, b, v))
    ensures Clonable(w, v, source, rows)
  {
    hide RowInv;
    forall b | b in rows ensures b in w.bindings && b < w.nextId && w.bindings[b].version == source {
      assert Cloneable(w, source, b);
    }
  }

  lemma CloneFacts(w: World, v: Id, source: Id, rows: seq<Id>, n: nat, actor: User, bypass: bool, c: Id)
    requires IdsOk(w) && Clonable(w, v, source, rows) && n < |rows|
    requires c in CloneRows(w, v, rows, n, actor, bypass).bindings
    ensures rows[n] in w.bindings
    ensures var row := CloneRows(w, v, rows, n, actor, bypass).bindings[c];
            if c in w.bindings then row.version != v
            else (exists b :: b in w.bindings && !SamePair(w.bindings[b], w.bindings[rows[n]])
                    && w.bindings[b].version == w.bindings[rows[n]].version && row == Copy(w.bindings[b], v, actor, bypass))
  {
    CloneSource(w, v, rows, n, actor, bypass, c);
    hide CloneRows, SamePair, Copy;
    if c in w.bindings {
      assert !OfVersion(w, c, v);
    } else {
      var b := rows[c - w.nextId];
      assert Cloneable(w, source, b) && Cloneable(w, source, rows[n]);
    }
  }

  lemma CloneDiffers(w: World, v: Id, source: Id, rows: seq<Id>, n: nat, actor: User, bypass: bool, c: Id)
    requires IdsOk(w) && Clonable(w, v, source, rows) && n < |rows|
    requires c in CloneRows(w, v, rows, n, actor, bypass).bindings
    ensures rows[n] in w.bindings
    ensures !SamePair(CloneRows(w, v, rows, n, actor, bypass).bindings[c], Copy(w.bindings[rows[n]], v, actor, bypass))
  {
    hide CloneRows, IdsOk, Clonable;
    CloneFacts(w, v, source, rows, n, actor, bypass, c);
  }

  lemma CopyIsInv(w: World, w': World, b: Id, v: Id, actor: User, bypass: bool)
    requires RowsInv(w) && b in w.bindings && v in w'.versions && w'.kbs == w.kbs
    ensures RowInv(w', Copy(w.bindings[b], v, actor, bypass))
  {
    BelowNext(w, b);
    hide RowsInv;
  }

  lemma OneClone(w: World, before: World, v: Id, source: Id, rows: seq<Id>, n: nat, actor: User, bypass: bool)
    requires Inv(w) && IdsOk(w) && Clonable(w, v, source, rows) && n < |rows|
    requires before == CloneRows(w, v, rows, n, actor, bypass) && Inv(before)
    ensures var copy := Copy(w.bindings[rows[n]], v, actor, bypass);
            Inv(before.(bindings := before.bindings[before.nextId := copy], nextId := before.nextId + 1))
  {
    var copy := Copy(w.bindings[rows[n]], v, actor, bypass);
    CopyIsInv(w, before, rows[n], v, actor, bypass);
    hide RowsInv, RowInv, SamePair, Copy, VersionsInv, Clonable, CloneRows, IdsOk;
    forall c | c in before.bindings && c != before.nextId ensures !SamePair(before.bindings[c], copy) {
      CloneDiffers(w, v, source, rows, n, actor, bypass, c);
    }
    PutKeeps(before, before.nextId, copy, before.nextId + 1);
  }

  lemma CloneUnfolds(w: World, v: Id, rows: seq<Id>, n: nat, actor: User, bypass: bool)
    requires n < |rows| && forall b <- rows :: b in w.bindings && b < w.nextId
    ensures var before := CloneRows(w, v, rows, n, actor, bypass);
            var copy := Copy(w.bindings[rows[n]], v, actor, bypass);
            CloneRows(w, v, rows, n + 1, actor, bypass)
            == before.(bindings := before.bindings[before.nextId := copy], nextId := before.nextId + 1)
  {
  }

  lemma NoClones(w: World, v: Id, rows: seq<Id>, actor: User, bypass: bool)
    requires forall b <- rows :: b in w.bindings && b < w.nextId
    ensures CloneRows(w, v, rows, 0, actor, bypass) == w
  {
  }

  lemma {:induction false} ClonesKeep(w: World, v: Id, source: Id, rows: seq<Id>, n: nat, actor: User, bypass: bool)
    requires Inv(w) && Clonable(w, v, source, rows) && n <= |rows|
    ensures Inv(CloneRows(w, v, rows, n, actor, bypass))
  {
    hide Inv, IdsOk, CloneRows, Copy;
    if n == 0 {
      NoClones(w, v, rows, actor, bypass);
    } else {
      ClonesKeep(w, v, source, rows, n - 1, actor, bypass);
      IdsOfInv(w);
      OneClone(w, CloneRows(w, v, rows, n - 1, actor, bypass), v, source, rows, n - 1, actor, bypass);
      CloneUnfolds(w, v, rows, n - 1, actor, bypass);
    }
  }

  lemma IdsOfInv(w: World)
    requires Inv(w)
    ensures IdsOk(w)
  {
  }

  lemma IdsOfRows(w: World)
    requires RowsInv(w)
    ensures IdsOk(w)
  {
  }

  lemma CreateKeeps(w: World, agent: Id, clone: Option<Id>, actor: User, bypass: bool, ok: bool, recycled: Option<Id>, rows: seq<Id>)
    requires Inv(w) && IsRecycled(w, agent, recycled)
    requires clone.Some? ==> IsCloneQuery(FreshDraft(w, agent, actor, recycled).0, clone.value, rows)
    ensures Inv(CreateVersion(w, agent, clone, actor, bypass, ok, recycled, rows).world)
  {
    FreshDraftKeeps(w, agent, actor, recycled);
    hide FreshDraft, RowsInv, VersionsInv, IsCloneQuery;
    var (w', v) := FreshDraft(w, agent, actor, recycled);
    if clone.Some? {
      QueryIsClonable(w', v, clone.value, rows);
      ClonesKeep(w', v, clone.value, rows, |rows|, actor, bypass);
    }
  }

  lemma StepKeepsInv(w: World, a: Action)
    requires Inv(w) && Legal(w, a)
    ensures Inv(Apply(w, a).world)
  {
    hide RowsInv, VersionsInv, IsRecycled, IsCloneQuery, FreshDraft;
    match a
    case ABind(v, kb, actor, bypass, ok) => BindKeeps(w, v, kb, actor, bypass, ok);
    case AApproveKnowledge(b, actor, bypass) => ApprovalsKeep(w, b, actor, bypass, true);
    case AApproveDomain(b, actor, bypass) => ApprovalsKeep(w, b, actor, bypass, true);
    case ARevoke(b, ok) => ApprovalsKeep(w, b, 0, false, ok);
    case ACreate(agent, clone, actor, bypass, ok, recycled, rows) =>
      CreateKeeps(w, agent, clone, actor, bypass, ok, recycled, rows);
    case ASubmit(v, ok) => SubmitKeeps(w, v, ok);
    case ADiscard(v) => DiscardKeeps(w, v);
    case APublish(v, actor, bypass, ok) => PublishKeeps(w, v, actor, bypass, ok);
    case ARollback(v, reasonOk, ok) => RollbackKeeps(w, v, reasonOk, ok);
    case AUpdateKb(kb, active, sensitive) => UpdateKbKeeps(w, kb, active, sensitive);
  }
}
