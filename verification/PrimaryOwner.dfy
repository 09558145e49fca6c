/** The primary-owner backfill and the partial unique index that follows it
    (backend/alembic/versions/b7c8d9e0f1a2_add_project_primary_owner.py). */
module PrimaryOwner {
  import opened Wrappers

  type Id = nat
  type User = nat

  datatype Role = Primary | Owner | Contributor | Viewer
  datatype Member = Member(role: Role, createdAt: int)
  datatype Key = Key(project: Id, user: User)
  type Members = map<Key, Member>

  datatype Project = Project(id: Id, creator: Option<User>)

  // ----- One project -----

  predicate IsPrimary(m: Members, p: Id, u: User) {
    Key(p, u) in m && m[Key(p, u)].role == Primary
  }

  ghost predicate HasPrimary(m: Members, p: Id) {
    exists u :: IsPrimary(m, p, u)
  }

  ghost predicate AtMostOnePrimary(m: Members, p: Id) {
    forall u, v | IsPrimary(m, p, u) && IsPrimary(m, p, v) :: u == v
  }

  predicate IsMember(m: Members, p: Id, u: User) {
    Key(p, u) in m
  }

  /** ORDER BY owners first, created_at, user_id */
  predicate Precedes(m: Members, p: Id, u: User, v: User)
    requires IsMember(m, p, u) && IsMember(m, p, v)
  {
    var a, b := m[Key(p, u)], m[Key(p, v)];
    var x, y := if a.role == Owner then 0 else 1, if b.role == Owner then 0 else 1;
    x < y || (x == y && (a.createdAt < b.createdAt || (a.createdAt == b.createdAt && u <= v)))
  }

  ghost predicate IsSuccessor(m: Members, p: Id, u: User) {
    IsMember(m, p, u) && forall v | IsMember(m, p, v) :: Precedes(m, p, u, v)
  }

  function Promoted(m: Members, p: Id, u: User): Members
    requires IsMember(m, p, u)
  {
    m[Key(p, u) := m[Key(p, u)].(role := Primary)]
  }

  /** One turn of the loop. */
  ghost predicate IsTurn(m: Members, project: Project, m': Members) {
    var p := project.id;
    if HasPrimary(m, p) then m' == m
    else if project.creator.Some? && IsMember(m, p, project.creator.value) && m[Key(p, project.creator.value)].role == Owner
    then m' == Promoted(m, p, project.creator.value)
    else if exists u :: IsMember(m, p, u) then exists u :: IsSuccessor(m, p, u) && m' == Promoted(m, p, u)
    else m' == m
  }

  /** The whole loop, turn by turn. */
  ghost predicate IsRun(states: seq<Members>, projects: seq<Project>) {
    |states| == |projects| + 1 && forall k | 0 <= k < |projects| :: IsTurn(states[k], projects[k], states[k + 1])
  }

  class Table {
    var members: Members

    method FindPrimary(p: Id) returns (found: bool)
      ensures found <==> HasPrimary(members, p)
    {
      var left := members.Keys;
      while left != {}
        invariant left <= members.Keys
        invariant forall u :: IsPrimary(members, p, u) ==> Key(p, u) in left
        decreases |left|
      {
        var key :| key in left;
        if key.project == p && members[key].role == Primary {
          assert IsPrimary(members, p, key.user);
          return true;
        }
        left := left - {key};
      }
      found := false;
    }

    /** The successor query. */
    method FindSuccessor(p: Id) returns (successor: Option<User>)
      ensures successor.None? <==> !exists u :: IsMember(members, p, u)
      ensures successor.Some? ==> IsSuccessor(members, p, successor.value)
    {
      successor := None;
      var left := members.Keys;
      while left != {}
        invariant left <= members.Keys
        invariant successor.None? ==> forall u :: IsMember(members, p, u) ==> Key(p, u) in left
        invariant successor.Some? ==> IsMember(members, p, successor.value)
        invariant successor.Some? ==> forall u ::
          IsMember(members, p, u) && Key(p, u) !in left ==> Precedes(members, p, successor.value, u)
        decreases |left|
      {
        var key :| key in left;
        if key.project == p {
          assert IsMember(members, p, key.user) && key == Key(p, key.user);
          if successor.None? || Precedes(members, p, key.user, successor.value) {
            successor := Some(key.user);
          }
        }
        left := left - {key};
      }
    }

    method TakeTurn(project: Project)
      modifies this
      ensures IsTurn(old(members), project, members)
    {
      var p := project.id;
      var existing := FindPrimary(p);
      if existing {
        return;
      }
      var promoted := false;
      if project.creator.Some? {
        var key := Key(p, project.creator.value);
        if key in members && members[key].role == Owner {
          members := members[key := members[key].(role := Primary)];
          promoted := true;
        }
      }
      if promoted {
        return;
      }
      var successor := FindSuccessor(p);
      if successor.None? {
        return;
      }
      var key := Key(p, successor.value);
      members := members[key := members[key].(role := Primary)];
    }

    /** `_backfill_primary_owners` */
    method BackfillPrimaryOwners(projects: seq<Project>) returns (ghost states: seq<Members>)
      modifies this
      ensures IsRun(states, projects) && states[0] == old(members) && states[|projects|] == members
    {
      states := [members];
      for k := 0 to |projects|
        invariant |states| == k + 1 && states[0] == old(members) && states[k] == members
        invariant forall i | 0 <= i < k :: IsTurn(states[i], projects[i], states[i + 1])
      {
        TakeTurn(projects[k]);
        states := states + [members];
      }
    }
  }

  // ----- What a run does to one project -----

  ghost predicate HasMember(m: Members, p: Id) {
    exists u :: IsMember(m, p, u)
  }

  /** Only promotions, and only where there was no primary owner. */
  ghost predicate OnlyPromotes(m: Members, m': Members) {
    && m'.Keys == m.Keys
    && forall key | key in m :: m'[key] == m[key]
         || (m'[key] == m[key].(role := Primary) && !HasPrimary(m, key.project))
  }

  predicate SameOn(m: Members, m': Members, p: Id)
    requires m'.Keys == m.Keys
  {
    forall key | key in m && key.project == p :: m'[key] == m[key]
  }

  lemma PromotionFacts(m: Members, p: Id, u: User, q: Id)
    requires IsMember(m, p, u) && !HasPrimary(m, p)
    ensures var m' := Promoted(m, p, u);
            && OnlyPromotes(m, m') && HasPrimary(m', p)
            && (AtMostOnePrimary(m', q) <==> AtMostOnePrimary(m, q))
            && (q != p ==> SameOn(m, m', q))
  {
    var m' := Promoted(m, p, u);
    assert IsPrimary(m', p, u);
    assert forall v :: IsPrimary(m', q, v) <==> IsPrimary(m, q, v) || (q == p && v == u);
  }

  lemma TurnFacts(m: Members, project: Project, m': Members, q: Id)
    requires IsTurn(m, project, m')
    ensures OnlyPromotes(m, m')
    ensures HasPrimary(m', project.id) <==> HasMember(m', project.id)
    ensures AtMostOnePrimary(m', q) <==> AtMostOnePrimary(m, q)
    ensures q != project.id || HasPrimary(m, q) ==> SameOn(m, m', q)
  {
    var p := project.id;
    hide OnlyPromotes, Promoted, AtMostOnePrimary, Precedes, HasPrimary;
    if HasPrimary(m, p) {
      PrimaryIsMember(m, p);
      NothingPromoted(m);
    } else if project.creator.Some? && IsMember(m, p, project.creator.value) && m[Key(p, project.creator.value)].role == Owner {
      PromotionFacts(m, p, project.creator.value, q);
      PrimaryIsMember(m', p);
    } else if u :| IsMember(m, p, u) {
      var s :| IsSuccessor(m, p, s) && m' == Promoted(m, p, s);
      PromotionFacts(m, p, s, q);
      PrimaryIsMember(m', p);
    } else {
      NothingPromoted(m);
    }
  }

  lemma PrimaryIsMember(m: Members, p: Id)
    requires HasPrimary(m, p)
    ensures HasMember(m, p)
  {
    var u :| IsPrimary(m, p, u);
    assert IsMember(m, p, u);
  }

  lemma NothingPromoted(m: Members)
    ensures OnlyPromotes(m, m)
  {
  }

  /** What n turns have done, seen from one project. */
  ghost predicate Seen(m: Members, m': Members, q: Id, visited: bool) {
    && OnlyPromotes(m, m')
    && (AtMostOnePrimary(m', q) <==> AtMostOnePrimary(m, q))
    && (visited ==> (HasPrimary(m', q) <==> HasMember(m', q)))
    && (!visited || HasPrimary(m, q) ==> SameOn(m, m', q))
  }

  lemma {:induction false} RunFacts(states: seq<Members>, projects: seq<Project>, n: nat, q: Id)
    requires IsRun(states, projects) && n <= |projects|
    ensures Seen(states[0], states[n], q, exists k :: 0 <= k < n && projects[k].id == q)
  {
    hide HasPrimary, AtMostOnePrimary, OnlyPromotes, HasMember;
    if n == 0 {
      NothingPromoted(states[0]);
      SameOnItself(states[0], q);
    } else {
      RunFacts(states, projects, n - 1, q);
      var m, project, m' := states[n - 1], projects[n - 1], states[n];
      assert IsTurn(m, project, m');
      hide IsTurn, IsRun;
      TurnFacts(m, project, m', q);
      Compose(states[0], m, m', q, project.id);
    }
  }

  lemma SameOnItself(m: Members, q: Id)
    ensures OnlyPromotes(m, m) && SameOn(m, m, q)
  {
  }

  lemma Compose(m0: Members, m: Members, m': Members, q: Id, p: Id)
    requires OnlyPromotes(m0, m) && OnlyPromotes(m, m')
    requires q != p || HasPrimary(m, q) ==> SameOn(m, m', q)
    ensures OnlyPromotes(m0, m')
    ensures SameOn(m0, m, q) && SameOn(m, m', q) ==> SameOn(m0, m', q)
    ensures SameOn(m, m', q) ==> (HasPrimary(m', q) <==> HasPrimary(m, q)) && (HasMember(m', q) <==> HasMember(m, q))
    ensures HasPrimary(m0, q) && SameOn(m0, m, q) ==> HasPrimary(m, q)
    ensures q != p ==> SameOn(m, m', q)
  {
    forall key | key in m0
      ensures m'[key] == m0[key] || (m'[key] == m0[key].(role := Primary) && !HasPrimary(m0, key.project))
    {
      if HasPrimary(m0, key.project) {
        PrimariesStay(m0, m, key.project);
      }
    }
    if SameOn(m, m', q) {
      assert forall u :: IsPrimary(m', q, u) <==> IsPrimary(m, q, u);
      assert forall u :: IsMember(m', q, u) <==> IsMember(m, q, u);
    }
    if HasPrimary(m0, q) && SameOn(m0, m, q) {
      PrimariesStay(m0, m, q);
    }
  }

  lemma PrimariesStay(m: Members, m': Members, p: Id)
    requires OnlyPromotes(m, m') && HasPrimary(m, p)
    ensures HasPrimary(m', p)
  {
    var u :| IsPrimary(m, p, u);
    assert IsPrimary(m', p, u);
  }

  // ----- The run -----

  /** Every project with members is in the projects table: the foreign key. */
  ghost predicate Covers(projects: seq<Project>, m: Members) {
    forall key | key in m :: exists k :: 0 <= k < |projects| && projects[k].id == key.project
  }

  /** What the partial unique index demands. */
  ghost predicate IndexCanBeBuilt(m: Members) {
    forall p :: AtMostOnePrimary(m, p)
  }

  /** The index can be built after the backfill if and only if no project had two primary owners
      before it. */
  lemma IndexIff(states: seq<Members>, projects: seq<Project>)
    requires IsRun(states, projects)
    ensures IndexCanBeBuilt(states[|projects|]) <==> IndexCanBeBuilt(states[0])
  {
    hide AtMostOnePrimary, OnlyPromotes, HasPrimary, HasMember;
    forall p ensures AtMostOnePrimary(states[|projects|], p) <==> AtMostOnePrimary(states[0], p) {
      RunFacts(states, projects, |projects|, p);
    }
  }

  /** A project with members then has exactly one primary owner, if it had at most one before. */
  lemma ExactlyOnePrimary(states: seq<Members>, projects: seq<Project>, key: Key)
    requires IsRun(states, projects) && Covers(projects, states[0]) && key in states[0]
    requires AtMostOnePrimary(states[0], key.project)
    ensures exists u :: IsPrimary(states[|projects|], key.project, u)
                        && forall v :: IsPrimary(states[|projects|], key.project, v) <==> v == u
  {
    RunFacts(states, projects, |projects|, key.project);
    hide IsRun, Covers;
    var f := states[|projects|];
    assert IsMember(f, key.project, key.user);
    assert HasMember(f, key.project);
    assert AtMostOnePrimary(f, key.project);
    var u :| IsPrimary(f, key.project, u);
    assert forall v :: IsPrimary(f, key.project, v) <==> v == u;
  }

  /** Nothing else changes: the rows and their dates stay, a changed role became the primary
      owner's in a project that had none, and at most one role changes in a project. */
  lemma OtherRolesUnchanged(states: seq<Members>, projects: seq<Project>, a: Key, b: Key)
    requires IsRun(states, projects) && a in states[0]
    ensures states[|projects|].Keys == states[0].Keys
    ensures var m, f := states[0], states[|projects|];
            f[a] == m[a] || (f[a] == m[a].(role := Primary) && !HasPrimary(m, a.project))
    ensures var m, f := states[0], states[|projects|];
            (b in m && a.project == b.project && f[a] != m[a] && f[b] != m[b]) ==> a == b
  {
    var m, f := states[0], states[|projects|];
    RunFacts(states, projects, |projects|, a.project);
    hide IsRun;
    if b in m && a.project == b.project && f[a] != m[a] && f[b] != m[b] {
      assert AtMostOnePrimary(m, a.project) by {
        assert forall u :: !IsPrimary(m, a.project, u);
      }
      assert IsPrimary(f, a.project, a.user) && IsPrimary(f, a.project, b.user);
    }
  }

  // ----- Who is promoted -----

  predicate IsOwner(m: Members, p: Id, u: User) {
    Key(p, u) in m && m[Key(p, u)].role == Owner
  }

  /** A member of longer standing; at the same date, the smaller id. */
  predicate Earlier(m: Members, p: Id, u: User, v: User)
    requires IsMember(m, p, u) && IsMember(m, p, v)
  {
    var t, t' := m[Key(p, u)].createdAt, m[Key(p, v)].createdAt;
    t < t' || (t == t' && u <= v)
  }

  ghost predicate HasOwner(m: Members, p: Id) {
    exists v :: IsOwner(m, p, v)
  }

  /** The creator, if an owner; else the owner of longest standing; else, where there is no owner, the member of
      longest standing. */
  ghost predicate Chosen(m: Members, project: Project, u: User) {
    var p := project.id;
    if project.creator.Some? && IsOwner(m, p, project.creator.value) then u == project.creator.value
    else if HasOwner(m, p) then IsOwner(m, p, u) && forall v | IsOwner(m, p, v) :: Earlier(m, p, u, v)
    else IsMember(m, p, u) && forall v | IsMember(m, p, v) :: Earlier(m, p, u, v)
  }

  lemma SuccessorIs(m: Members, p: Id, u: User)
    ensures IsSuccessor(m, p, u) <==>
            if HasOwner(m, p) then IsOwner(m, p, u) && forall v | IsOwner(m, p, v) :: Earlier(m, p, u, v)
            else IsMember(m, p, u) && forall v | IsMember(m, p, v) :: Earlier(m, p, u, v)
  {
    if HasOwner(m, p) {
      var o :| IsOwner(m, p, o);
      assert IsMember(m, p, o);
      if IsSuccessor(m, p, u) {
        assert Precedes(m, p, u, o);
        forall v | IsOwner(m, p, v) ensures Earlier(m, p, u, v) {
          assert IsMember(m, p, v);
        }
      } else if IsOwner(m, p, u) && forall v | IsOwner(m, p, v) :: Earlier(m, p, u, v) {
        var v :| IsMember(m, p, v) && !Precedes(m, p, u, v);
        assert IsOwner(m, p, v);
        assert false;
      }
    } else {
      forall v | IsMember(m, p, v) ensures !IsOwner(m, p, v) {
      }
    }
  }

  lemma TurnPromotes(m: Members, project: Project, m': Members, u: User)
    requires IsTurn(m, project, m') && !HasPrimary(m, project.id)
    ensures IsPrimary(m', project.id, u) <==> Chosen(m, project, u)
  {
    var p := project.id;
    assert forall v :: !IsPrimary(m, p, v);
    SuccessorIs(m, p, u);
    hide Precedes, IsSuccessor;
    if project.creator.Some? && IsOwner(m, p, project.creator.value) {
      assert IsMember(m, p, project.creator.value);
      PromotedIsPrimary(m, p, project.creator.value, u);
    } else if HasMember(m, p) {
      var s :| IsSuccessor(m, p, s) && m' == Promoted(m, p, s);
      SuccessorIs(m, p, s);
      assert Chosen(m, project, s);
      if Chosen(m, project, u) {
        ChosenIsUnique(m, project, u, s);
      }
      PromotedIsPrimary(m, p, s, u);
    } else {
      assert !IsMember(m, p, u);
      assert forall v :: IsOwner(m, p, v) ==> IsMember(m, p, v);
    }
  }

  lemma PromotedIsPrimary(m: Members, p: Id, s: User, u: User)
    requires IsMember(m, p, s) && !HasPrimary(m, p)
    ensures IsPrimary(Promoted(m, p, s), p, u) <==> u == s
  {
    assert !IsPrimary(m, p, u);
  }

  lemma ChosenIsUnique(m: Members, project: Project, u: User, v: User)
    requires Chosen(m, project, u) && Chosen(m, project, v)
    ensures u == v
  {
    var p := project.id;
    if HasOwner(m, p) {
      var o :| IsOwner(m, p, o);
    }
  }

  lemma TailIsRun(states: seq<Members>, projects: seq<Project>, k: nat)
    requires IsRun(states, projects) && k <= |projects|
    ensures IsRun(states[k..], projects[k..])
  {
  }

  /** Over the whole run, a project that had no primary owner gets the member chosen on its first turn, by the
      members as they were before the run. */
  lemma ChosenIsPromoted(states: seq<Members>, projects: seq<Project>, k: nat, u: User)
    requires IsRun(states, projects) && k < |projects|
    requires forall i | 0 <= i < k :: projects[i].id != projects[k].id
    requires !HasPrimary(states[0], projects[k].id)
    ensures IsPrimary(states[|projects|], projects[k].id, u) <==> Chosen(states[0], projects[k], u)
  {
    var q := projects[k].id;
    RunFacts(states, projects, k, q);
    assert IsTurn(states[k], projects[k], states[k + 1]);
    TailIsRun(states, projects, k + 1);
    RunFacts(states[k + 1..], projects[k + 1..], |projects| - k - 1, q);
    TurnFacts(states[k], projects[k], states[k + 1], q);
    var m, f := states[k + 1], states[|projects|];
    assert states[k + 1..][0] == m && states[k + 1..][|projects| - k - 1] == f;
    hide IsRun, IsTurn, Chosen;
    SameMeansSame(states[0], states[k], projects[k], u);
    TurnPromotes(states[k], projects[k], m, u);
    if HasMember(m, q) {
      SameMeansSame(m, f, projects[k], u);
    } else {
      NobodyIsPrimary(m, f, q, u);
    }
  }

  lemma NobodyIsPrimary(m: Members, f: Members, q: Id, u: User)
    requires OnlyPromotes(m, f) && !HasMember(m, q)
    ensures !IsPrimary(m, q, u) && !IsPrimary(f, q, u)
  {
    assert !IsMember(m, q, u);
  }

  /** What is decided by the members of the project only. */
  lemma SameMeansSame(m: Members, m': Members, project: Project, u: User)
    requires OnlyPromotes(m, m') && SameOn(m, m', project.id)
    ensures IsPrimary(m', project.id, u) <==> IsPrimary(m, project.id, u)
    ensures HasPrimary(m', project.id) <==> HasPrimary(m, project.id)
    ensures Chosen(m', project, u) <==> Chosen(m, project, u)
  {
    var p := project.id;
    assert forall v :: IsPrimary(m', p, v) <==> IsPrimary(m, p, v);
    assert forall v :: IsOwner(m', p, v) <==> IsOwner(m, p, v);
    assert forall v :: IsMember(m', p, v) <==> IsMember(m, p, v);
    assert forall v, w | IsMember(m, p, v) && IsMember(m, p, w) :: Earlier(m', p, v, w) <==> Earlier(m, p, v, w);
    assert forall v :: IsOwner(m, p, v) ==> IsMember(m, p, v);
    assert HasOwner(m', p) <==> HasOwner(m, p);
  }

  /** A second run, over whatever list of projects, changes nothing. */
  lemma SecondRunChangesNothing(states: seq<Members>, projects: seq<Project>, again: seq<Members>, projects': seq<Project>)
    requires IsRun(states, projects) && Covers(projects, states[0])
    requires IsRun(again, projects') && again[0] == states[|projects|]
    ensures again[|projects'|] == again[0]
  {
    var m, f, g := states[0], again[0], again[|projects'|];
    forall key | key in f ensures key in g && g[key] == f[key] {
      RunFacts(states, projects, |projects|, key.project);
      RunFacts(again, projects', |projects'|, key.project);
      assert key in m && IsMember(f, key.project, key.user);
      assert HasMember(f, key.project) && HasPrimary(f, key.project);
    }
    RunFacts(again, projects', |projects'|, 0);
    assert g.Keys == f.Keys;
  }
}
