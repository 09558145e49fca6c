/** The tables as the endpoints update them, row by row; each method is proved to do what the
    transition system says (backend/app/api/admin_agents.py,
    backend/app/services/agent_definition_service.py). Query results are parameters. */
module BindingDesk {
  import opened Bindings
  import opened BindingProofs
  import opened Wrappers

  class Tables {
    var agents: set<Id>
    var kbs: map<Id, KnowledgeBase>
    var versions: map<Id, Version>
    var bindings: map<Id, Binding>
    var nextId: Id

    function View(): World
      reads this
    {
      World(agents, kbs, versions, bindings, nextId)
    }

    method CreateKnowledgeBinding(v: Id, kb: Id, actor: User, bypass: bool, releaseOk: bool) returns (reply: Reply)
      requires Inv(View())
      modifies this
      ensures View() == old(Bind(View(), v, kb, actor, bypass, releaseOk).world)
      ensures reply == old(Bind(View(), v, kb, actor, bypass, releaseOk).reply)
      ensures Inv(View())
    {
      BindKeeps(View(), v, kb, actor, bypass, releaseOk);
      ExistingIs(View(), v, kb);
      hide Inv, Existing, OfVersion;
      if v !in versions {
        return NotFound;
      }
      if versions[v].status != Draft {
        return Conflict;
      }
      if kb !in kbs || !kbs[kb].active {
        return NotFound;
      }
      var found, id := FindBinding(v, kb);
      if found && bindings[id].status != Revoked {
        return Conflict;
      }
      if !releaseOk {
        return BadRequest;
      }
      if !found {
        id := nextId;
        nextId := nextId + 1;
      }
      var row := Binding(v, kb, PendingKb, actor, None, None, bypass && kbs[kb].sensitive, bypass);
      if bypass {
        row := row.(kbApprover := Some(actor));
        if kbs[kb].sensitive {
          row := row.(domainApprover := Some(actor));
        }
        row := row.(status := if versions[v].status == Live then Published else Approved);
      }
      bindings := bindings[id := row];
      reply := Done;
    }

    /** The lookup by the unique pair. */
    method FindBinding(v: Id, kb: Id) returns (found: bool, id: Id)
      ensures found ==> OfVersion(View(), id, v) && bindings[id].kb == kb
      ensures !found ==> forall b | b in bindings :: !(bindings[b].version == v && bindings[b].kb == kb)
    {
      var left := bindings.Keys;
      while left != {}
        invariant left <= bindings.Keys
        invariant forall b | b in bindings && b !in left :: !(bindings[b].version == v && bindings[b].kb == kb)
        decreases |left|
      {
        var b :| b in left;
        if bindings[b].version == v && bindings[b].kb == kb {
          return true, b;
        }
        left := left - {b};
      }
      found, id := false, 0;
    }

    method ApproveKnowledgeBinding(b: Id, actor: User, bypass: bool) returns (reply: Reply)
      requires Inv(View())
      modifies this`bindings
      ensures View() == old(ApproveKnowledge(View(), b, actor, bypass).world)
      ensures reply == old(ApproveKnowledge(View(), b, actor, bypass).reply)
      ensures Inv(View())
    {
      ApprovalsKeep(View(), b, actor, bypass, true);
      hide Inv;
      if b !in bindings {
        return NotFound;
      }
      var row := bindings[b];
      if row.status != PendingKb {
        return Conflict;
      }
      if row.requester == actor && !bypass {
        return Conflict;
      }
      if row.kb !in kbs || row.version !in versions {
        return NotFound;
      }
      row := row.(kbApprover := Some(actor), wasSensitive := kbs[row.kb].sensitive,
                  bypassed := row.bypassed || row.requester == actor);
      if kbs[row.kb].sensitive {
        row := row.(status := PendingDomain);
      } else if versions[row.version].status == Live {
        row := row.(status := Published);
      } else {
        row := row.(status := Approved);
      }
      bindings := bindings[b := row];
      reply := Done;
    }

    method ApproveDomainBinding(b: Id, actor: User, bypass: bool) returns (reply: Reply)
      requires Inv(View())
      modifies this`bindings
      ensures View() == old(ApproveDomain(View(), b, actor, bypass).world)
      ensures reply == old(ApproveDomain(View(), b, actor, bypass).reply)
      ensures Inv(View())
    {
      ApprovalsKeep(View(), b, actor, bypass, true);
      hide Inv;
      if b !in bindings {
        return NotFound;
      }
      var row := bindings[b];
      if row.status != PendingDomain {
        return Conflict;
      }
      if (actor == row.requester || Some(actor) == row.kbApprover) && !bypass {
        return Conflict;
      }
      if row.version !in versions {
        return NotFound;
      }
      row := row.(domainApprover := Some(actor),
                  bypassed := row.bypassed || row.requester == actor || row.kbApprover == Some(actor));
      row := row.(status := if versions[row.version].status == Live then Published else Approved);
      bindings := bindings[b := row];
      reply := Done;
    }

    method RevokeKnowledgeBinding(b: Id, reasonOk: bool) returns (reply: Reply)
      requires Inv(View())
      modifies this`bindings
      ensures View() == old(Revoke(View(), b, reasonOk).world) && reply == old(Revoke(View(), b, reasonOk).reply)
      ensures Inv(View())
    {
      ApprovalsKeep(View(), b, 0, false, reasonOk);
      hide Inv;
      if b !in bindings || bindings[b].version !in versions {
        return NotFound;
      }
      if versions[bindings[b].version].status != Draft || bindings[b].status == Revoked || !reasonOk {
        return Conflict;
      }
      bindings := bindings[b := bindings[b].(status := Revoked)];
      reply := Done;
    }

    method CreateAgentVersion(
      agent: Id, clone: Option<Id>, actor: User, bypass: bool, promptOk: bool, recycled: Option<Id>, rows: seq<Id>)
      returns (reply: Reply)
      requires Inv(View()) && IsRecycled(View(), agent, recycled)
      requires clone.Some? ==> IsCloneQuery(FreshDraft(View(), agent, actor, recycled).0, clone.value, rows)
      modifies this
      ensures View() == old(CreateVersion(View(), agent, clone, actor, bypass, promptOk, recycled, rows).world)
      ensures reply == old(CreateVersion(View(), agent, clone, actor, bypass, promptOk, recycled, rows).reply)
      ensures Inv(View())
    {
      CreateKeeps(View(), agent, clone, actor, bypass, promptOk, recycled, rows);
      hide RowsInv, VersionsInv, IsRecycled;
      if agent !in agents || (clone.Some? && clone.value !in versions) {
        return NotFound;
      }
      if (clone.Some? && versions[clone.value].agent != agent) || !promptOk {
        return BadRequest;
      }
      ghost var (drafted, v0) := FreshDraft(View(), agent, actor, recycled);
      var v: Id;
      if recycled.Some? {
        v := recycled.value;
        bindings := map b | b in bindings && bindings[b].version != v :: bindings[b];
      } else {
        v := nextId;
        nextId := nextId + 1;
      }
      versions := versions[v := Version(agent, Draft, false, false, actor)];
      assert View() == drafted && v == v0;
      if clone.Some? {
        assert forall b <- rows :: Cloneable(drafted, clone.value, b);
        CloneBindings(v, rows, actor, bypass);
      }
      reply := Done;
    }

    method CloneBindings(v: Id, rows: seq<Id>, actor: User, bypass: bool)
      requires forall b <- rows :: b in bindings && b < nextId
      modifies this`bindings, this`nextId
      ensures View() == old(CloneRows(View(), v, rows, |rows|, actor, bypass))
    {
      ghost var start := View();
      for k := 0 to |rows|
        invariant View() == CloneRows(start, v, rows, k, actor, bypass)
      {
        assert rows[k] in rows;
        var source := bindings[rows[k]];
        var cloned := Binding(v, source.kb, PendingKb, actor, None, None, false, bypass);
        if bypass {
          cloned := cloned.(kbApprover := Some(actor), domainApprover := Some(actor), status := Approved);
        }
        bindings, nextId := bindings[nextId := cloned], nextId + 1;
      }
    }

    method SubmitAgentVersion(v: Id, gate: bool) returns (reply: Reply)
      requires Inv(View())
      modifies this`versions
      ensures View() == old(Submit(View(), v, gate).world) && reply == old(Submit(View(), v, gate).reply)
      ensures Inv(View())
    {
      SubmitKeeps(View(), v, gate);
      hide Inv;
      if v !in versions {
        return NotFound;
      }
      if versions[v].status != Draft || !gate {
        return Conflict;
      }
      versions := versions[v := versions[v].(status := Review)];
      reply := Done;
    }

    method DiscardAgentDraft(v: Id) returns (reply: Reply)
      requires Inv(View())
      modifies this`versions
      ensures View() == old(Discard(View(), v).world) && reply == old(Discard(View(), v).reply)
      ensures Inv(View())
    {
      DiscardKeeps(View(), v);
      hide Inv;
      if v !in versions {
        return NotFound;
      }
      if versions[v].status != Draft || !HasSibling(View(), v) {
        return Conflict;
      }
      versions := versions[v := versions[v].(status := Archived, active := false)];
      reply := Done;
    }

    /** The version that holds the agent's active scope gives it up, then `v` takes it. */
    method TakeActiveScope(v: Id, current: Option<Id>)
      requires Inv(View()) && v in versions && IsCurrent(View(), versions[v].agent, current)
      modifies this`versions
      ensures versions == old(Activate(View(), v))
    {
      hide RowsInv;
      ActiveIsUnique(View(), versions[v].agent, current);
      hide VersionsInv;
      if current.Some? && current.value != v {
        versions := versions[current.value := versions[current.value].(status := Archived, active := false)];
      }
      versions := versions[v := versions[v].(status := Live, everPublished := true, active := true)];
    }

    /** `rows` are all bindings of the version, `current` the holder of the active scope. */
    method PublishAgentVersion(v: Id, actor: User, bypass: bool, gate: bool, rows: seq<Id>, current: Option<Id>)
      returns (reply: Reply)
      requires Inv(View()) && (v in versions ==> IsCurrent(View(), versions[v].agent, current))
      requires forall b :: b in rows <==> OfVersion(View(), b, v)
      modifies this`versions, this`bindings
      ensures View() == old(Publish(View(), v, actor, bypass, gate).world)
      ensures reply == old(Publish(View(), v, actor, bypass, gate).reply)
      ensures Inv(View())
    {
      PublishKeeps(View(), v, actor, bypass, gate);
      hide RowsInv, VersionsInv, Activate, IsCurrent, AnyAwaiting, OfVersion, PublishRow;
      if v !in versions {
        return NotFound;
      }
      var pending := CheckPending(v, rows);
      if pending {
        return Conflict;
      }
      if versions[v].status != Review || !gate || (versions[v].creator == actor && !bypass) {
        return Conflict;
      }
      TakeActiveScope(v, current);
      ReleaseRows(v, rows);
      reply := Done;
    }

    method CheckPending(v: Id, rows: seq<Id>) returns (pending: bool)
      requires forall b :: b in rows <==> OfVersion(View(), b, v)
      ensures pending <==> AnyAwaiting(View(), v)
    {
      for k := 0 to |rows|
        invariant forall i | 0 <= i < k :: rows[i] in bindings && !Awaiting(bindings[rows[i]])
      {
        assert OfVersion(View(), rows[k], v);
        if Awaiting(bindings[rows[k]]) {
          return true;
        }
      }
      forall b | b in bindings && bindings[b].version == v ensures !Awaiting(bindings[b]) {
        assert OfVersion(View(), b, v);
      }
      pending := false;
    }

    method ReleaseRows(v: Id, rows: seq<Id>)
      requires forall b :: b in rows <==> OfVersion(View(), b, v)
      modifies this`bindings
      ensures bindings == old(map b | b in bindings :: PublishRow(bindings[b], v))
    {
      ghost var before := bindings;
      for k := 0 to |rows|
        invariant bindings.Keys == before.Keys
        invariant forall b | b in before ::
          bindings[b] == if b in rows[..k] then PublishRow(before[b], v) else before[b]
      {
        assert rows[k] in rows && OfVersion(old(View()), rows[k], v);
        if bindings[rows[k]].status == Approved {
          bindings := bindings[rows[k] := bindings[rows[k]].(status := Published)];
        }
        assert rows[..k + 1] == rows[..k] + [rows[k]];
      }
      assert rows[..|rows|] == rows;
      forall b | b in before ensures bindings[b] == PublishRow(before[b], v) {
        assert b in rows <==> OfVersion(old(View()), b, v);
      }
    }

    method RollbackAgentVersion(v: Id, reasonOk: bool, gate: bool, current: Option<Id>) returns (reply: Reply)
      requires Inv(View()) && (v in versions ==> IsCurrent(View(), versions[v].agent, current))
      modifies this`versions
      ensures View() == old(Rollback(View(), v, reasonOk, gate).world)
      ensures reply == old(Rollback(View(), v, reasonOk, gate).reply)
      ensures Inv(View())
    {
      RollbackKeeps(View(), v, reasonOk, gate);
      hide RowsInv, VersionsInv, Activate, IsCurrent;
      if v !in versions {
        return NotFound;
      }
      if !reasonOk || versions[v].status !in {Live, Archived} || !gate {
        return Conflict;
      }
      TakeActiveScope(v, current);
      reply := Done;
    }

    /** The fields the request names are set one after the other. */
    method UpdateKnowledgeBase(kb: Id, active: Option<bool>, sensitive: Option<bool>) returns (reply: Reply)
      requires Inv(View())
      modifies this`kbs
      ensures View() == old(UpdateKb(View(), kb, active, sensitive).world)
      ensures reply == old(UpdateKb(View(), kb, active, sensitive).reply)
      ensures Inv(View())
    {
      UpdateKbKeeps(View(), kb, active, sensitive);
      hide Inv;
      if kb !in kbs {
        return NotFound;
      }
      if active.Some? {
        kbs := kbs[kb := kbs[kb].(active := active.value)];
      }
      if sensitive.Some? {
        kbs := kbs[kb := kbs[kb].(sensitive := sensitive.value)];
      }
      if active.None? && sensitive.None? {
        assert kbs == kbs[kb := kbs[kb]];
      }
      reply := Done;
    }
  }

  /** The database's answer to "the published version holding the agent's active scope". */
  ghost predicate IsCurrent(w: World, agent: Id, current: Option<Id>) {
    match current
    case None => forall v :: !Current(w, agent, v)
    case Some(v) => Current(w, agent, v)
  }

  lemma ActiveIsUnique(w: World, agent: Id, current: Option<Id>)
    requires VersionsInv(w.versions) && IsCurrent(w, agent, current)
    ensures forall u: Id :: Current(w, agent, u) <==> (current.Some? && current.value == u)
  {
  }
}
