/** Agent versions and their Knowledge bindings: every endpoint and service call that changes them,
    as a step from one state of the tables to the next (backend/app/api/admin_agents.py,
    backend/app/services/agent_definition_service.py), and the update of a Knowledge Base
    (backend/app/api/admin_knowledge.py). */
module Bindings {
  import opened Wrappers

  type Id = nat
  type User = nat

  datatype BindingStatus = Unset | PendingKb | PendingDomain | Approved | Published | Suspended | Revoked

  /** The last two fields are history: whether the base was sensitive when the Knowledge approval was
      given, and whether an approval of this request stood only because its actor is exempt
      from maker-checker. */
  datatype Binding = Binding(
    version: Id, kb: Id, status: BindingStatus, requester: User,
    kbApprover: Option<User>, domainApprover: Option<User>, wasSensitive: bool, bypassed: bool)

  datatype VersionStatus = Draft | Review | Live | Archived

  /** `everPublished` is published_at not being null; `active` is the active scope key being held. */
  datatype Version = Version(agent: Id, status: VersionStatus, everPublished: bool, active: bool, creator: User)

  datatype KnowledgeBase = KnowledgeBase(active: bool, sensitive: bool)

  datatype World = World(
    agents: set<Id>, kbs: map<Id, KnowledgeBase>, versions: map<Id, Version>, bindings: map<Id, Binding>, nextId: Id)

  datatype Reply = Done | BadRequest | NotFound | Conflict
  datatype Outcome = Outcome(world: World, reply: Reply)

  predicate OfVersion(w: World, b: Id, v: Id) {
    b in w.bindings && w.bindings[b].version == v
  }

  /** What the publish endpoint calls pending. */
  predicate Awaiting(b: Binding) {
    b.status !in {Approved, Published, Revoked}
  }

  // ----- Bindings -----

  /** The row the unique constraint allows for a version and a knowledge base. */
  ghost function Existing(w: World, v: Id, kb: Id): Option<Id> {
    if b :| OfVersion(w, b, v) && w.bindings[b].kb == kb then Some(b) else None
  }

  /** A request on a draft, new or reactivated; a bypassing requester completes it at once. */
  function Request(v: Id, kb: Id, actor: User, bypass: bool, sensitive: bool): Binding {
    Binding(v, kb, if bypass then Approved else PendingKb, actor,
            if bypass then Some(actor) else None, if bypass && sensitive then Some(actor) else None,
            bypass && sensitive, bypass)
  }

  ghost function Bind(w: World, v: Id, kb: Id, actor: User, bypass: bool, releaseOk: bool): Outcome {
    if v !in w.versions then Outcome(w, NotFound)
    else if w.versions[v].status != Draft then Outcome(w, Conflict)
    else if kb !in w.kbs || !w.kbs[kb].active then Outcome(w, NotFound)
    else
      var existing := Existing(w, v, kb);
      if existing.Some? && w.bindings[existing.value].status != Revoked then Outcome(w, Conflict)
      else if !releaseOk then Outcome(w, BadRequest)
      else
        var row := Request(v, kb, actor, bypass, w.kbs[kb].sensitive);
        if existing.Some? then Outcome(w.(bindings := w.bindings[existing.value := row]), Done)
        else Outcome(w.(bindings := w.bindings[w.nextId := row], nextId := w.nextId + 1), Done)
  }

  /** Where an approval leads once no further one is needed. */
  function Settled(w: World, b: Binding): BindingStatus
    requires b.version in w.versions
  {
    if w.versions[b.version].status == Live then Published else Approved
  }

  function ApproveKnowledge(w: World, b: Id, actor: User, bypass: bool): Outcome {
    if b !in w.bindings then Outcome(w, NotFound)
    else
      var row := w.bindings[b];
      if row.status != PendingKb || (row.requester == actor && !bypass) then Outcome(w, Conflict)
      else if row.kb !in w.kbs || row.version !in w.versions then Outcome(w, NotFound)
      else
        var sensitive := w.kbs[row.kb].sensitive;
        var row' := row.(kbApprover := Some(actor), wasSensitive := sensitive,
                         status := if sensitive then PendingDomain else Settled(w, row),
                         bypassed := row.bypassed || row.requester == actor);
        Outcome(w.(bindings := w.bindings[b := row']), Done)
  }

  function ApproveDomain(w: World, b: Id, actor: User, bypass: bool): Outcome {
    if b !in w.bindings then Outcome(w, NotFound)
    else
      var row := w.bindings[b];
      if row.status != PendingDomain then Outcome(w, Conflict)
      else if (row.requester == actor || row.kbApprover == Some(actor)) && !bypass then Outcome(w, Conflict)
      else if row.version !in w.versions then Outcome(w, NotFound)
      else
        var row' := row.(domainApprover := Some(actor), status := Settled(w, row),
                         bypassed := row.bypassed || row.requester == actor || row.kbApprover == Some(actor));
        Outcome(w.(bindings := w.bindings[b := row']), Done)
  }

  function Revoke(w: World, b: Id, reasonOk: bool): Outcome {
    if b !in w.bindings || w.bindings[b].version !in w.versions then Outcome(w, NotFound)
    else if w.versions[w.bindings[b].version].status != Draft || w.bindings[b].status == Revoked || !reasonOk
    then Outcome(w, Conflict)
    else Outcome(w.(bindings := w.bindings[b := w.bindings[b].(status := Revoked)]), Done)
  }

  // ----- Versions -----

  predicate Recyclable(w: World, agent: Id, v: Id) {
    v in w.versions && w.versions[v].agent == agent && w.versions[v].status == Archived && !w.versions[v].everPublished
  }

  /** The database's answer to "the first discarded draft of this agent". */
  ghost predicate IsRecycled(w: World, agent: Id, recycled: Option<Id>) {
    match recycled
    case None => forall v :: !Recyclable(w, agent, v)
    case Some(v) => Recyclable(w, agent, v)
  }

  /** A new draft, on a recycled row whose old bindings go, or on a new one. */
  function FreshDraft(w: World, agent: Id, actor: User, recycled: Option<Id>): (r: (World, Id)) {
    var row := Version(agent, Draft, false, false, actor);
    match recycled
    case Some(v) =>
      var kept := map b | b in w.bindings && w.bindings[b].version != v :: w.bindings[b];
      (w.(versions := w.versions[v := row], bindings := kept), v)
    case None => (w.(versions := w.versions[w.nextId := row], nextId := w.nextId + 1), w.nextId)
  }

  predicate Cloneable(w: World, source: Id, b: Id) {
    OfVersion(w, b, source) && w.bindings[b].status !in {Revoked, Suspended}
  }

  /** The rows the clone query returns, in some order. */
  ghost predicate IsCloneQuery(w: World, source: Id, rows: seq<Id>) {
    && (forall b :: b in rows <==> Cloneable(w, source, b))
    && (forall i, j | 0 <= i < j < |rows| :: rows[i] != rows[j])
  }

  /** A copy keeps what is bound, never who approved it. */
  function Copy(row: Binding, v: Id, actor: User, bypass: bool): Binding {
    Binding(v, row.kb, if bypass then Approved else PendingKb, actor,
            if bypass then Some(actor) else None, if bypass then Some(actor) else None, false, bypass)
  }

  function CloneRows(w: World, v: Id, rows: seq<Id>, n: nat, actor: User, bypass: bool): (r: World)
    requires n <= |rows| && forall b <- rows :: b in w.bindings && b < w.nextId
    ensures r.versions == w.versions && r.kbs == w.kbs && r.agents == w.agents && r.nextId == w.nextId + n
    ensures forall b | b in w.bindings && b < w.nextId :: b in r.bindings && r.bindings[b] == w.bindings[b]
  {
    if n == 0 then w
    else
      var before := CloneRows(w, v, rows, n - 1, actor, bypass);
      before.(bindings := before.bindings[before.nextId := Copy(w.bindings[rows[n - 1]], v, actor, bypass)],
              nextId := before.nextId + 1)
  }

  ghost function CreateVersion(
    w: World, agent: Id, clone: Option<Id>, actor: User, bypass: bool, promptOk: bool, recycled: Option<Id>, rows: seq<Id>): Outcome
    requires IdsOk(w) && IsRecycled(w, agent, recycled)
    requires clone.Some? ==> IsCloneQuery(FreshDraft(w, agent, actor, recycled).0, clone.value, rows)
  {
    if agent !in w.agents || (clone.Some? && clone.value !in w.versions) then Outcome(w, NotFound)
    else if (clone.Some? && w.versions[clone.value].agent != agent) || !promptOk then Outcome(w, BadRequest)
    else
      var (w', v) := FreshDraft(w, agent, actor, recycled);
      if clone.None? then Outcome(w', Done)
      else
        assert forall b <- rows :: Cloneable(w', clone.value, b);
        Outcome(CloneRows(w', v, rows, |rows|, actor, bypass), Done)
  }

  function Submit(w: World, v: Id, gate: bool): Outcome {
    if v !in w.versions then Outcome(w, NotFound)
    else if w.versions[v].status != Draft || !gate then Outcome(w, Conflict)
    else Outcome(w.(versions := w.versions[v := w.versions[v].(status := Review)]), Done)
  }

  predicate HasSibling(w: World, v: Id)
    requires v in w.versions
  {
    exists u :: u in w.versions && u != v && w.versions[u].agent == w.versions[v].agent
  }

  function Discard(w: World, v: Id): Outcome {
    if v !in w.versions then Outcome(w, NotFound)
    else if w.versions[v].status != Draft || !HasSibling(w, v) then Outcome(w, Conflict)
    else Outcome(w.(versions := w.versions[v := w.versions[v].(status := Archived, active := false)]), Done)
  }

  predicate Current(w: World, agent: Id, v: Id) {
    v in w.versions && w.versions[v].agent == agent && w.versions[v].active && w.versions[v].status == Live
  }

  /** The version takes the agent's active scope from whichever held it. */
  function Activate(w: World, v: Id): (r: map<Id, Version>)
    requires v in w.versions
  {
    map u | u in w.versions ::
      if u == v then w.versions[v].(status := Live, everPublished := true, active := true)
      else if Current(w, w.versions[v].agent, u) then w.versions[u].(status := Archived, active := false)
      else w.versions[u]
  }

  function PublishRow(b: Binding, v: Id): Binding {
    if b.version == v && b.status == Approved then b.(status := Published) else b
  }

  predicate AnyAwaiting(w: World, v: Id) {
    exists b :: b in w.bindings && w.bindings[b].version == v && Awaiting(w.bindings[b])
  }

  function Publish(w: World, v: Id, actor: User, bypass: bool, gate: bool): Outcome {
    if v !in w.versions then Outcome(w, NotFound)
    else if AnyAwaiting(w, v) || w.versions[v].status != Review || !gate then Outcome(w, Conflict)
    else if w.versions[v].creator == actor && !bypass then Outcome(w, Conflict)
    else
      var rows := map b | b in w.bindings :: PublishRow(w.bindings[b], v);
      Outcome(w.(versions := Activate(w, v), bindings := rows), Done)
  }

  function Rollback(w: World, v: Id, reasonOk: bool, gate: bool): Outcome {
    if v !in w.versions then Outcome(w, NotFound)
    else if !reasonOk || w.versions[v].status !in {Live, Archived} || !gate then Outcome(w, Conflict)
    else Outcome(w.(versions := Activate(w, v)), Done)
  }

  // ----- Runs -----

  datatype Action =
    | ABind(v: Id, kb: Id, actor: User, bypass: bool, ok: bool)
    | AApproveKnowledge(b: Id, actor: User, bypass: bool)
    | AApproveDomain(b: Id, actor: User, bypass: bool)
    | ARevoke(b: Id, ok: bool)
    | ACreate(agent: Id, clone: Option<Id>, actor: User, bypass: bool, ok: bool, recycled: Option<Id>, rows: seq<Id>)
    | ASubmit(v: Id, ok: bool)
    | ADiscard(v: Id)
    | APublish(v: Id, actor: User, bypass: bool, ok: bool)
    | ARollback(v: Id, reasonOk: bool, ok: bool)
    | AUpdateKb(kb: Id, active: Option<bool>, sensitive: Option<bool>)

  ghost predicate IdsOk(w: World) {
    && (forall v | v in w.versions :: v < w.nextId)
    && (forall b | b in w.bindings ::
          b < w.nextId && w.bindings[b].version in w.versions && w.bindings[b].kb in w.kbs)
  }

  ghost predicate Legal(w: World, a: Action) {
    a.ACreate? ==>
      && IsRecycled(w, a.agent, a.recycled)
      && (a.clone.Some? ==> IsCloneQuery(FreshDraft(w, a.agent, a.actor, a.recycled).0, a.clone.value, a.rows))
  }

  /** The update of a Knowledge Base sets the fields the request names, and looks at no binding. */
  function UpdateKb(w: World, kb: Id, active: Option<bool>, sensitive: Option<bool>): Outcome {
    if kb !in w.kbs then Outcome(w, NotFound)
    else
      var row := KnowledgeBase(if active.Some? then active.value else w.kbs[kb].active,
                               if sensitive.Some? then sensitive.value else w.kbs[kb].sensitive);
      Outcome(w.(kbs := w.kbs[kb := row]), Done)
  }

  ghost function Apply(w: World, a: Action): Outcome
    requires IdsOk(w) && Legal(w, a)
  {
    match a
    case ABind(v, kb, actor, bypass, ok) => Bind(w, v, kb, actor, bypass, ok)
    case AApproveKnowledge(b, actor, bypass) => ApproveKnowledge(w, b, actor, bypass)
    case AApproveDomain(b, actor, bypass) => ApproveDomain(w, b, actor, bypass)
    case ARevoke(b, ok) => Revoke(w, b, ok)
    case ACreate(agent, clone, actor, bypass, ok, recycled, rows) =>
      CreateVersion(w, agent, clone, actor, bypass, ok, recycled, rows)
    case ASubmit(v, ok) => Submit(w, v, ok)
    case ADiscard(v) => Discard(w, v)
    case APublish(v, actor, bypass, ok) => Publish(w, v, actor, bypass, ok)
    case ARollback(v, reasonOk, ok) => Rollback(w, v, reasonOk, ok)
    case AUpdateKb(kb, active, sensitive) => UpdateKb(w, kb, active, sensitive)
  }

  ghost predicate LegalRun(w: World, run: seq<Action>)
    decreases |run|
  {
    && IdsOk(w)
    && (run != [] ==> Legal(w, run[0]) && LegalRun(Apply(w, run[0]).world, run[1..]))
  }

  ghost function Final(w: World, run: seq<Action>): World
    requires LegalRun(w, run)
    decreases |run|
  {
    if run == [] then w else Final(Apply(w, run[0]).world, run[1..])
  }

  predicate Initial(w: World) {
    w.versions == map[] && w.bindings == map[]
  }
}
