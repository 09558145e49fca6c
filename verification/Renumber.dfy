/** Renumbering duplicate revisions before the unique constraint is added
    (backend/alembic/versions/d2b3c4e5f6a7_project_config_revision_unique.py). */
module Renumber {

  type Id = nat

  datatype Row = Row(id: Id, project: Id, revision: int, createdAt: int)

  /** ORDER BY project_id, revision, created_at, id */
  predicate Less(a: Row, b: Row) {
    a.project < b.project
    || (a.project == b.project &&
        (a.revision < b.revision
         || (a.revision == b.revision &&
             (a.createdAt < b.createdAt || (a.createdAt == b.createdAt && a.id < b.id)))))
  }

  predicate Ordered(rows: seq<Row>) {
    forall i, j | 0 <= i < j < |rows| :: Less(rows[i], rows[j])
  }

  ghost predicate Keyed(table: map<Id, Row>) {
    forall id | id in table :: table[id].id == id
  }

  /** The select: every row, once, in order. */
  ghost predicate IsSelect(table: map<Id, Row>, rows: seq<Row>) {
    && Ordered(rows)
    && (forall r :: r in rows <==> r.id in table && table[r.id] == r)
  }

  /** The rows of the project among the first k. */
  function Earlier(rows: seq<Row>, k: nat, project: Id): nat
    requires k <= |rows|
  {
    if k == 0 then 0
    else Earlier(rows, k - 1, project) + if rows[k - 1].project == project then 1 else 0
  }

  function Renumbered(rows: seq<Row>, k: nat): Row
    requires k < |rows|
  {
    rows[k].(revision := Earlier(rows, k, rows[k].project) + 1)
  }

  predicate DistinctIds(rows: seq<Row>) {
    forall i, j | 0 <= i < j < |rows| :: rows[i].id != rows[j].id
  }

  lemma SelectedOnce(table: map<Id, Row>, rows: seq<Row>)
    requires Keyed(table) && IsSelect(table, rows)
    ensures DistinctIds(rows)
    ensures forall k | 0 <= k < |rows| :: rows[k].id in table && table[rows[k].id] == rows[k]
    ensures forall id | id in table :: exists k | 0 <= k < |rows| :: rows[k].id == id
  {
    forall i, j | 0 <= i < j < |rows| ensures rows[i].id != rows[j].id {
      assert Less(rows[i], rows[j]) && rows[i] in rows && rows[j] in rows;
    }
    forall k | 0 <= k < |rows| ensures rows[k].id in table && table[rows[k].id] == rows[k] {
      assert rows[k] in rows;
    }
    forall id | id in table ensures exists k | 0 <= k < |rows| :: rows[k].id == id {
      assert table[id] in rows;
    }
  }

  /** The dictionary of next numbers after k rows. */
  ghost predicate Counts(next: map<Id, nat>, rows: seq<Row>, k: nat)
    requires k <= |rows|
  {
    forall p: Id :: (if p in next then next[p] else 1) == Earlier(rows, k, p) + 1
  }

  /** The table and the updates after k rows of the select. */
  function Updated(table: map<Id, Row>, rows: seq<Row>, k: nat): map<Id, Row>
    requires k <= |rows|
  {
    if k == 0 then table
    else
      var before := Updated(table, rows, k - 1);
      if Renumbered(rows, k - 1) == rows[k - 1] then before else before[rows[k - 1].id := Renumbered(rows, k - 1)]
  }

  function Writes(rows: seq<Row>, k: nat): seq<Id>
    requires k <= |rows|
  {
    if k == 0 then []
    else Writes(rows, k - 1) + if Renumbered(rows, k - 1) == rows[k - 1] then [] else [rows[k - 1].id]
  }

  class Table {
    var rows: map<Id, Row>

    /** `_renumber_duplicates`; `writes` are the ids it updated. */
    method RenumberDuplicates(selected: seq<Row>) returns (writes: seq<Id>)
      modifies this
      ensures rows == Updated(old(rows), selected, |selected|)
      ensures writes == Writes(selected, |selected|)
    {
      ghost var before := rows;
      var nextByProject: map<Id, nat> := map[];
      writes := [];
      for k := 0 to |selected|
        invariant Counts(nextByProject, selected, k)
        invariant rows == Updated(before, selected, k) && writes == Writes(selected, k)
      {
        var row := selected[k];
        var expected := if row.project in nextByProject then nextByProject[row.project] else 1;
        assert expected == Earlier(selected, k, row.project) + 1;
        if row.revision != expected {
          rows := rows[row.id := row.(revision := expected)];
          writes := writes + [row.id];
        }
        nextByProject := nextByProject[row.project := expected + 1];
      }
    }
  }

  // ----- What the table is afterwards -----

  lemma {:induction false} UpdatedAt(table: map<Id, Row>, rows: seq<Row>, k: nat, i: nat)
    requires DistinctIds(rows) && k <= |rows| && i < |rows|
    requires rows[i].id in table && table[rows[i].id] == rows[i]
    ensures var t := Updated(table, rows, k);
            rows[i].id in t && t[rows[i].id] == if i < k then Renumbered(rows, i) else rows[i]
  {
    hide Earlier;
    if k > 0 {
      UpdatedAt(table, rows, k - 1, i);
      assert i != k - 1 ==> rows[i].id != rows[k - 1].id;
    }
  }

  lemma {:induction false} UpdatedKeys(table: map<Id, Row>, rows: seq<Row>, k: nat)
    requires k <= |rows| && Keyed(table) && forall i | 0 <= i < |rows| :: rows[i].id in table
    ensures Updated(table, rows, k).Keys == table.Keys && Keyed(Updated(table, rows, k))
  {
    hide Earlier;
    if k > 0 {
      UpdatedKeys(table, rows, k - 1);
    }
  }

  /** The select after the renumbering: the same rows in the same order, each with its number. */
  function AfterRows(rows: seq<Row>): (r: seq<Row>)
    ensures |r| == |rows| && forall k | 0 <= k < |r| :: r[k] == Renumbered(rows, k)
  {
    seq(|rows|, k requires 0 <= k < |rows| => Renumbered(rows, k))
  }

  lemma {:induction false} EarlierGrows(rows: seq<Row>, i: nat, j: nat, p: Id)
    requires i <= j <= |rows|
    ensures Earlier(rows, i, p) <= Earlier(rows, j, p)
    ensures i < j && rows[i].project == p ==> Earlier(rows, i, p) < Earlier(rows, j, p)
  {
    if i < j {
      EarlierGrows(rows, i, j - 1, p);
    }
  }

  lemma AfterRowsAreOrdered(rows: seq<Row>)
    requires Ordered(rows)
    ensures Ordered(AfterRows(rows))
  {
    var r := AfterRows(rows);
    forall i, j | 0 <= i < j < |r| ensures Less(r[i], r[j]) {
      assert Less(rows[i], rows[j]);
      if rows[i].project == rows[j].project {
        EarlierGrows(rows, i, j, rows[i].project);
      }
    }
  }

  lemma SelectAfter(table: map<Id, Row>, rows: seq<Row>)
    requires Keyed(table) && IsSelect(table, rows)
    ensures Keyed(Updated(table, rows, |rows|)) && IsSelect(Updated(table, rows, |rows|), AfterRows(rows))
    ensures Updated(table, rows, |rows|).Keys == table.Keys
  {
    SelectedOnce(table, rows);
    AfterRowsAreOrdered(rows);
    UpdatedKeys(table, rows, |rows|);
    hide Earlier, Updated, Less, Ordered, IsSelect;
    var t, r := Updated(table, rows, |rows|), AfterRows(rows);
    forall x: Row | x in r ensures x.id in t && t[x.id] == x {
      var k :| 0 <= k < |r| && r[k] == x;
      UpdatedAt(table, rows, |rows|, k);
    }
    forall x: Row | x.id in t && t[x.id] == x ensures x in r {
      var k :| 0 <= k < |rows| && rows[k].id == x.id;
      UpdatedAt(table, rows, |rows|, k);
      assert r[k] == x;
    }
    MakeSelect(t, r);
  }

  lemma MakeSelect(t: map<Id, Row>, r: seq<Row>)
    requires Ordered(r) && (forall x: Row | x in r :: x.id in t && t[x.id] == x)
    requires forall x: Row | x.id in t && t[x.id] == x :: x in r
    ensures IsSelect(t, r)
  {
  }

  // ----- The constraint holds, and a second run writes nothing -----

  lemma LessIsStrict(a: Row, b: Row)
    requires Less(a, b)
    ensures !Less(b, a) && a != b
  {
  }

  /** The order leaves one select only. */
  lemma {:induction false} SelectIsUnique(a: seq<Row>, b: seq<Row>)
    requires Ordered(a) && Ordered(b) && forall r :: r in a <==> r in b
    ensures a == b
    decreases |a|
  {
    hide Less;
    assert b != [] ==> b[0] in b;
    if a != [] {
      assert a[0] in b;
      FirstIsLeast(a, b);
      assert forall r :: r in a[1..] <==> r in a && r != a[0] by {
        RestIsOthers(a);
      }
      assert forall r :: r in b[1..] <==> r in b && r != b[0] by {
        RestIsOthers(b);
      }
      SelectIsUnique(a[1..], b[1..]);
      assert a == [a[0]] + a[1..] && b == [b[0]] + b[1..];
    }
  }

  lemma FirstIsLeast(a: seq<Row>, b: seq<Row>)
    requires Ordered(a) && Ordered(b) && a != [] && (forall r :: r in a <==> r in b)
    ensures b != [] && a[0] == b[0]
  {
    assert a[0] in b;
    assert b[0] in a;
    var i :| 0 <= i < |b| && b[i] == a[0];
    var j :| 0 <= j < |a| && a[j] == b[0];
    assert i > 0 ==> Less(b[0], b[i]);
    assert j > 0 ==> Less(a[0], a[j]);
  }

  lemma RestIsOthers(a: seq<Row>)
    requires Ordered(a) && a != []
    ensures forall r :: r in a[1..] <==> r in a && r != a[0]
  {
    forall k | 1 <= k < |a| ensures a[k] != a[0] {
      assert Less(a[0], a[k]);
      LessIsStrict(a[0], a[k]);
    }
    assert a == [a[0]] + a[1..];
  }

  lemma {:induction false} EarlierOfAfter(rows: seq<Row>, k: nat, p: Id)
    requires k <= |rows|
    ensures Earlier(AfterRows(rows), k, p) == Earlier(rows, k, p)
  {
    if k > 0 {
      EarlierOfAfter(rows, k - 1, p);
    }
  }

  lemma {:induction false} NothingToWrite(rows: seq<Row>, k: nat)
    requires k <= |rows|
    ensures Writes(AfterRows(rows), k) == []
  {
    if k > 0 {
      NothingToWrite(rows, k - 1);
      EarlierOfAfter(rows, k - 1, rows[k - 1].project);
    }
  }

  /** Whatever the database returns for the second select, the second run updates no row. */
  lemma SecondRunWritesNothing(table: map<Id, Row>, rows: seq<Row>, again: seq<Row>)
    requires Keyed(table) && IsSelect(table, rows)
    requires IsSelect(Updated(table, rows, |rows|), again)
    ensures Writes(again, |again|) == []
  {
    SelectAfter(table, rows);
    SelectIsUnique(again, AfterRows(rows));
    NothingToWrite(rows, |rows|);
  }

  lemma {:induction false} WritesAre(rows: seq<Row>, k: nat, id: Id)
    requires k <= |rows|
    ensures id in Writes(rows, k) <==> exists i | 0 <= i < k :: rows[i].id == id && Renumbered(rows, i) != rows[i]
  {
    hide Earlier;
    if k > 0 {
      WritesAre(rows, k - 1, id);
    }
  }

  /** A row is written exactly when its number was wrong. */
  lemma OnlyWrongNumbersAreWritten(table: map<Id, Row>, rows: seq<Row>, id: Id)
    requires Keyed(table) && IsSelect(table, rows) && id in table
    ensures id in Updated(table, rows, |rows|)
    ensures id in Writes(rows, |rows|) <==> Updated(table, rows, |rows|)[id] != table[id]
    ensures Updated(table, rows, |rows|)[id] == table[id].(revision := Updated(table, rows, |rows|)[id].revision)
  {
    SelectedOnce(table, rows);
    var k :| 0 <= k < |rows| && rows[k].id == id;
    UpdatedAt(table, rows, |rows|, k);
    WritesAre(rows, |rows|, id);
    hide Updated, Writes, IsSelect, Earlier;
    assert forall i | 0 <= i < |rows| && rows[i].id == id :: i == k;
  }

  lemma {:induction false} EarlierReaches(rows: seq<Row>, k: nat, p: Id, n: nat) returns (i: nat)
    requires k <= |rows| && n < Earlier(rows, k, p)
    ensures i < k && rows[i].project == p && Earlier(rows, i, p) == n
  {
    if Earlier(rows, k - 1, p) > n {
      i := EarlierReaches(rows, k - 1, p, n);
    } else {
      i := k - 1;
    }
  }

  predicate HasRevision(t: map<Id, Row>, p: Id, v: int) {
    exists a :: a in t && t[a].project == p && t[a].revision == v
  }

  /** After the run a project's rows carry exactly the numbers 1 to their count, each once, and the
      old order decides who gets which. */
  lemma RevisionsAreOneToN(table: map<Id, Row>, rows: seq<Row>, p: Id)
    requires Keyed(table) && IsSelect(table, rows)
    ensures var t, n := Updated(table, rows, |rows|), Earlier(rows, |rows|, p);
            && t.Keys == table.Keys
            && (forall a | a in t && t[a].project == p :: 1 <= t[a].revision <= n)
            && (forall v | 1 <= v <= n :: HasRevision(t, p, v))
            && (forall a, b | a in t && b in t && t[a].project == t[b].project == p ::
                  t[a].revision < t[b].revision <==>
                  (|| table[a].revision < table[b].revision
                   || (table[a].revision == table[b].revision && table[a].createdAt < table[b].createdAt)
                   || (table[a].revision == table[b].revision && table[a].createdAt == table[b].createdAt && a < b)))
            && (forall a, b | a in t && b in t && t[a].project == t[b].project == p && a != b ::
                  t[a].revision != t[b].revision)
  {
    SelectedOnce(table, rows);
    UpdatedKeys(table, rows, |rows|);
    hide Updated, Earlier, Less, Ordered, DistinctIds;
    var t, n := Updated(table, rows, |rows|), Earlier(rows, |rows|, p);
    forall a | a in t && t[a].project == p ensures 1 <= t[a].revision <= n {
      var k := Place(table, rows, a);
      EarlierGrows(rows, k, |rows|, p);
    }
    forall v | 1 <= v <= n ensures HasRevision(t, p, v) {
      RevisionTaken(table, rows, p, v);
    }
    forall a, b | a in t && b in t && t[a].project == t[b].project == p
      ensures t[a].revision < t[b].revision <==>
                (|| table[a].revision < table[b].revision
                 || (table[a].revision == table[b].revision && table[a].createdAt < table[b].createdAt)
                 || (table[a].revision == table[b].revision && table[a].createdAt == table[b].createdAt && a < b))
      ensures a != b ==> t[a].revision != t[b].revision
    {
      PlacesAgree(table, rows, a, b, p);
    }
  }

  lemma RevisionTaken(table: map<Id, Row>, rows: seq<Row>, p: Id, v: int)
    requires Keyed(table) && IsSelect(table, rows) && 1 <= v <= Earlier(rows, |rows|, p)
    ensures HasRevision(Updated(table, rows, |rows|), p, v)
  {
    SelectedOnce(table, rows);
    var i := EarlierReaches(rows, |rows|, p, v - 1);
    UpdatedAt(table, rows, |rows|, i);
    hide Updated;
    assert Updated(table, rows, |rows|)[rows[i].id].revision == v;
  }

  lemma Place(table: map<Id, Row>, rows: seq<Row>, id: Id) returns (k: nat)
    requires Keyed(table) && IsSelect(table, rows) && id in table
    ensures k < |rows| && rows[k] == table[id]
    ensures id in Updated(table, rows, |rows|) && Updated(table, rows, |rows|)[id] == Renumbered(rows, k)
  {
    SelectedOnce(table, rows);
    k :| 0 <= k < |rows| && rows[k].id == id;
    UpdatedAt(table, rows, |rows|, k);
  }

  lemma PlacesAgree(table: map<Id, Row>, rows: seq<Row>, a: Id, b: Id, p: Id)
    requires Keyed(table) && IsSelect(table, rows) && a in table && b in table
    requires var t := Updated(table, rows, |rows|); a in t && b in t && t[a].project == t[b].project == p
    ensures var t := Updated(table, rows, |rows|);
            && (t[a].revision < t[b].revision <==>
                (|| table[a].revision < table[b].revision
                 || (table[a].revision == table[b].revision && table[a].createdAt < table[b].createdAt)
                 || (table[a].revision == table[b].revision && table[a].createdAt == table[b].createdAt && a < b)))
            && (a != b ==> t[a].revision != t[b].revision)
  {
    var i := Place(table, rows, a);
    var j := Place(table, rows, b);
    hide Updated;
    if i < j {
      assert Less(rows[i], rows[j]);
      EarlierGrows(rows, i, j, p);
    } else if j < i {
      assert Less(rows[j], rows[i]);
      LessIsStrict(rows[j], rows[i]);
      EarlierGrows(rows, j, i, p);
    }
  }
}
