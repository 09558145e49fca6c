/** Filling a new search column in batches, walking the ids forward
    (backend/alembic/versions/9240933e581a_memory_content_search.py). The folding is a parameter. */
module FoldBackfill {
  import opened Wrappers

  type Id = nat

  datatype Row = Row(content: Option<string>, search: Option<string>)
  type Rows = map<Id, Row>
  type Fold = Option<string> -> string

  /** Still NULL, and after the last id of the batch before. */
  predicate Due(rows: Rows, last: Option<Id>, id: Id) {
    id in rows && rows[id].search.None? && (last.None? || id > last.value)
  }

  predicate Increasing(ids: seq<Id>) {
    forall i, j | 0 <= i < j < |ids| :: ids[i] < ids[j]
  }

  /** WHERE column IS NULL AND id > last ORDER BY id LIMIT n */
  ghost predicate IsBatch(rows: Rows, last: Option<Id>, n: nat, batch: seq<Id>) {
    && Increasing(batch) && |batch| <= n
    && (forall id <- batch :: Due(rows, last, id))
    && (forall id | Due(rows, last, id) && id !in batch :: |batch| == n && forall b <- batch :: b < id)
  }

  /** Every NULL of the rows filled with the fold of its content, and nothing else touched. */
  function Filled(rows: Rows, fold: Fold): Rows {
    map id | id in rows :: FilledRow(rows[id], fold)
  }

  function FilledRow(row: Row, fold: Fold): Row {
    if row.search.None? then row.(search := Some(fold(row.content))) else row
  }

  class Table {
    var rows: Rows

    /** The least due id not yet taken. */
    method NextDue(last: Option<Id>) returns (next: Option<Id>)
      ensures next.None? ==> forall id :: !Due(rows, last, id)
      ensures next.Some? ==> Due(rows, last, next.value) && forall id | Due(rows, last, id) :: next.value <= id
    {
      next := None;
      var left := rows.Keys;
      while left != {}
        invariant left <= rows.Keys
        invariant next.None? ==> forall id | Due(rows, last, id) :: id in left
        invariant next.Some? ==> Due(rows, last, next.value)
        invariant next.Some? ==> forall id | Due(rows, last, id) && id !in left :: next.value <= id
        decreases |left|
      {
        var id :| id in left;
        if rows[id].search.None? && (last.None? || id > last.value) && (next.None? || id < next.value) {
          next := Some(id);
        }
        left := left - {id};
      }
    }

    /** The batch query. */
    method Select(last: Option<Id>, n: nat) returns (batch: seq<Id>)
      ensures IsBatch(rows, last, n, batch)
    {
      batch := [];
      var reached := last;
      while |batch| < n
        invariant |batch| <= n && Increasing(batch)
        invariant forall id <- batch :: Due(rows, last, id)
        invariant batch == [] ==> reached == last
        invariant batch != [] ==> reached == Some(batch[|batch| - 1])
        invariant forall id | Due(rows, last, id) && id !in batch :: Due(rows, reached, id)
        decreases n - |batch|
      {
        var next := NextDue(reached);
        if next.None? {
          break;
        }
        assert Due(rows, last, next.value) by {
          assert batch != [] ==> batch[|batch| - 1] in batch;
        }
        batch, reached := batch + [next.value], next;
      }
    }

    /** `_backfill`; `writes` are the ids it updated, in order. */
    method Backfill(fold: Fold, n: nat) returns (writes: seq<Id>)
      requires n >= 1
      modifies this
      ensures rows == Filled(old(rows), fold)
      ensures Increasing(writes)
      ensures forall id :: id in writes <==> id in old(rows) && old(rows)[id].search.None?
    {
      ghost var before := rows;
      writes := [];
      ghost var last: Option<Id> := None;
      var batch := Select(None, n);
      while batch != []
        invariant Progress(before, rows, last, fold)
        invariant IsBatch(rows, last, n, batch)
        invariant Increasing(writes) && (last.None? ==> writes == [])
        invariant last.Some? ==> forall w <- writes :: w <= last.value
        invariant forall id :: id in writes <==> Due(before, None, id) && !Due(before, last, id)
        decreases |DueSet(before, last)|
      {
        hide Progress, Due;
        Advance(before, rows, last, fold, n, batch);
        BatchIsAfter(rows, last, n, batch);
        AppendIncreasing(writes, batch);
        rows, writes := UpdateBatch(rows, fold, batch), writes + batch;
        last := Some(batch[|batch| - 1]);
        batch := Select(Some(batch[|batch| - 1]), n);
      }
      NothingDue(before, rows, last, fold, n);
    }
  }

  /** The update of one batch. */
  function UpdateBatch(rows: Rows, fold: Fold, batch: seq<Id>): Rows {
    map id | id in rows :: if id in batch then rows[id].(search := Some(fold(rows[id].content))) else rows[id]
  }

  // ----- The walk -----

  ghost function DueSet(rows: Rows, last: Option<Id>): set<Id> {
    set id | id in rows && Due(rows, last, id)
  }

  /** Everything due at the start and not after the last id is filled, the rest as it was. */
  ghost predicate Progress(before: Rows, rows: Rows, last: Option<Id>, fold: Fold) {
    && rows.Keys == before.Keys
    && forall id | id in before :: rows[id] == if Due(before, last, id) then before[id] else FilledRow(before[id], fold)
  }

  lemma StillDue(before: Rows, rows: Rows, last: Option<Id>, fold: Fold)
    requires Progress(before, rows, last, fold)
    ensures forall id :: Due(rows, last, id) <==> Due(before, last, id)
  {
  }

  lemma BatchIsAfter(rows: Rows, last: Option<Id>, n: nat, batch: seq<Id>)
    requires IsBatch(rows, last, n, batch)
    ensures last.Some? ==> forall id <- batch :: id > last.value
    ensures batch != [] ==> forall id <- batch :: id <= batch[|batch| - 1]
  {
  }

  lemma AppendIncreasing(a: seq<Id>, b: seq<Id>)
    requires Increasing(a) && Increasing(b) && forall x <- a, y <- b :: x < y
    ensures Increasing(a + b)
  {
    var c := a + b;
    forall i, j | 0 <= i < j < |c| ensures c[i] < c[j] {
      assert i < |a| ==> c[i] in a;
      assert j >= |a| ==> c[j] == b[j - |a|] && c[j] in b;
    }
  }

  /** What the batch took is no longer due; what is due after it was due before. */
  lemma BatchTakes(rows: Rows, last: Option<Id>, n: nat, batch: seq<Id>)
    requires IsBatch(rows, last, n, batch) && batch != []
    ensures var next := Some(batch[|batch| - 1]);
            && (forall id :: id in batch <==> Due(rows, last, id) && !Due(rows, next, id))
            && (forall id :: Due(rows, next, id) ==> Due(rows, last, id))
            && (last.Some? ==> last.value <= next.value)
  {
    BatchIsAfter(rows, last, n, batch);
    assert batch[|batch| - 1] in batch;
  }

  lemma FewerDue(before: Rows, last: Option<Id>, next: Option<Id>, taken: Id)
    requires Due(before, last, taken) && !Due(before, next, taken)
    requires forall id :: Due(before, next, id) ==> Due(before, last, id)
    ensures |DueSet(before, next)| < |DueSet(before, last)|
  {
    var a, b := DueSet(before, next), DueSet(before, last);
    assert a <= b && taken in b - a;
    assert b == a + (b - a);
  }

  lemma BatchProgress(before: Rows, rows: Rows, last: Option<Id>, next: Option<Id>, fold: Fold, batch: seq<Id>)
    requires Progress(before, rows, last, fold)
    requires forall id :: id in batch <==> Due(before, last, id) && !Due(before, next, id)
    requires forall id :: Due(before, next, id) ==> Due(before, last, id)
    ensures Progress(before, UpdateBatch(rows, fold, batch), next, fold)
  {
  }

  lemma Advance(before: Rows, rows: Rows, last: Option<Id>, fold: Fold, n: nat, batch: seq<Id>)
    requires Progress(before, rows, last, fold) && IsBatch(rows, last, n, batch) && batch != []
    ensures var next := Some(batch[|batch| - 1]);
            && Progress(before, UpdateBatch(rows, fold, batch), next, fold)
            && (forall id :: id in batch <==> Due(before, last, id) && !Due(before, next, id))
            && (forall id :: Due(before, next, id) ==> Due(before, last, id))
            && |DueSet(before, next)| < |DueSet(before, last)|
  {
    var next := Some(batch[|batch| - 1]);
    BatchTakes(rows, last, n, batch);
    assert forall id :: Due(rows, last, id) <==> Due(before, last, id) by {
      StillDue(before, rows, last, fold);
    }
    assert forall id :: Due(rows, next, id) <==> Due(before, next, id) by {
      DueLater(before, rows, last, next, fold);
    }
    hide Due, Progress, IsBatch, UpdateBatch, DueSet;
    assert batch[0] in batch;
    FewerDue(before, last, next, batch[0]);
    BatchProgress(before, rows, last, next, fold, batch);
  }

  lemma DueLater(before: Rows, rows: Rows, last: Option<Id>, next: Option<Id>, fold: Fold)
    requires Progress(before, rows, last, fold) && next.Some? && (last.Some? ==> last.value <= next.value)
    ensures forall id :: Due(rows, next, id) <==> Due(before, next, id)
  {
  }

  lemma NothingDue(before: Rows, rows: Rows, last: Option<Id>, fold: Fold, n: nat)
    requires n >= 1 && Progress(before, rows, last, fold) && IsBatch(rows, last, n, [])
    ensures rows == Filled(before, fold)
    ensures forall id :: !Due(before, last, id)
  {
    StillDue(before, rows, last, fold);
    assert forall id :: !Due(rows, last, id);
  }

  /** A second run, with any fold and any batch size, has nothing to fill. */
  lemma SecondRunFillsNothing(rows: Rows, fold: Fold, other: Fold)
    ensures Filled(Filled(rows, fold), other) == Filled(rows, fold)
  {
    var once := Filled(rows, fold);
    forall id | id in rows ensures Filled(once, other)[id] == once[id] {
      assert once[id].search.Some?;
    }
  }
}
