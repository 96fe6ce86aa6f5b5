/**
 The reaper trims proxy_sessions to its newest rows.  Counting, selecting and
 deleting are separate statements, and other goroutines write the table between them.
 */
module Reaper {
  import opened Lists
  import opened SessionDb

  // What the rest of the program does to the table in between.
  datatype Other = Added(row: Session, p: nat) | Removed(id: string)

  ghost predicate CanHappen(db: Table, e: Other) {
    match e
    case Added(row, p) => !HasId(db, row.id) && p <= |db| && NewestFirst(Insert(db, p, row))
    case Removed(id) => HasId(db, id)
  }

  ghost function Happen(db: Table, e: Other): Table
    requires CanHappen(db, e)
  {
    match e
    case Added(row, p) => Insert(db, p, row)
    case Removed(id) => Delete(db, {id})
  }

  ghost predicate AllHappen(db: Table, es: seq<Other>)
    decreases |es|
  {
    es == [] || (CanHappen(db, es[0]) && AllHappen(Happen(db, es[0]), es[1..]))
  }

  ghost function After(db: Table, es: seq<Other>): Table
    requires AllHappen(db, es)
    decreases |es|
  {
    if es == [] then db else After(Happen(db, es[0]), es[1..])
  }

  function Additions(es: seq<Other>): nat {
    if es == [] then 0 else (if es[0].Added? then 1 else 0) + Additions(es[1..])
  }

  function Removals(es: seq<Other>): nat {
    if es == [] then 0 else (if es[0].Removed? then 1 else 0) + Removals(es[1..])
  }

  lemma RemoveOne(db: Table, id: string)
    requires Distinct(db) && HasId(db, id)
    ensures |Delete(db, {id})| == |db| - 1
  {
    var i :| 0 <= i < |db| && db[i].id == id;
    assert db[i] in Filter(db, IsIn({id}));
    AtMostOnePerId(db, {id});
    DeleteCount(db, {id});
  }

  lemma StepKeepsTable(db: Table, e: Other)
    requires Distinct(db) && NewestFirst(db) && CanHappen(db, e)
    ensures Distinct(Happen(db, e)) && NewestFirst(Happen(db, e))
    ensures |Happen(db, e)| == |db| + (if e.Added? then 1 else -1)
  {
    match e
    case Added(row, p) => SaveDistinct(db, p, row);
    case Removed(id) =>
      FilterDistinct(db, NotIn({id}));
      FilterNewestFirst(db, NotIn({id}));
      RemoveOne(db, id);
  }

  // A step takes away at most one of the rows with ids in `sel`.
  lemma StepKeepsSelected(db: Table, e: Other, sel: set<string>)
    requires Distinct(db) && CanHappen(db, e)
    ensures |Filter(Happen(db, e), IsIn(sel))| >= |Filter(db, IsIn(sel))| - (if e.Removed? then 1 else 0)
  {
    match e
    case Added(row, p) => FilterInsert(db, p, row, IsIn(sel));
    case Removed(id) =>
      FilterFilter(db, NotIn({id}), IsIn(sel));
      FilterDistinct(db, IsIn(sel));
      RemoveAtMostOne(Filter(db, IsIn(sel)), id);
  }

  lemma RemoveAtMostOne(db: Table, id: string)
    requires Distinct(db)
    ensures |Delete(db, {id})| >= |db| - 1
  {
    if HasId(db, id) {
      RemoveOne(db, id);
    } else {
      forall s | s in db ensures s.id !in {id} {
        var k :| 0 <= k < |db| && db[k] == s;
      }
      FilterAll(db, NotIn({id}));
    }
  }

  lemma {:induction false} RunKeepsTable(db: Table, es: seq<Other>)
    requires Distinct(db) && NewestFirst(db) && AllHappen(db, es)
    ensures Distinct(After(db, es)) && NewestFirst(After(db, es))
    ensures |After(db, es)| == |db| + Additions(es) - Removals(es)
    decreases |es|
  {
    if es != [] {
      StepKeepsTable(db, es[0]);
      RunKeepsTable(Happen(db, es[0]), es[1..]);
    }
  }

  lemma {:induction false} RunKeepsSelected(db: Table, es: seq<Other>, sel: set<string>)
    requires Distinct(db) && NewestFirst(db) && AllHappen(db, es)
    ensures |Filter(After(db, es), IsIn(sel))| >= |Filter(db, IsIn(sel))| - Removals(es)
    decreases |es|
  {
    if es != [] {
      StepKeepsTable(db, es[0]);
      StepKeepsSelected(db, es[0], sel);
      RunKeepsSelected(Happen(db, es[0]), es[1..], sel);
    }
  }

  lemma {:induction false} AtMostOnePerId(db: Table, sel: set<string>)
    requires Distinct(db)
    ensures |Filter(db, IsIn(sel))| <= |sel|
  {
    if db != [] {
      if db[0].id in sel {
        AtMostOnePerId(db[1..], sel - {db[0].id});
        SameFilter(db[1..], sel, db[0].id);
      } else {
        AtMostOnePerId(db[1..], sel);
      }
    }
  }

  lemma {:induction false} SameFilter(db: Table, sel: set<string>, id: string)
    requires !HasId(db, id)
    ensures Filter(db, IsIn(sel - {id})) == Filter(db, IsIn(sel))
  {
    if db != [] {
      assert db[0].id != id;
      forall i | 0 <= i < |db[1..]| ensures db[1..][i].id != id { assert db[i + 1].id != id; }
      SameFilter(db[1..], sel, id);
    }
  }

  lemma SelectionSize(db: Table, k: nat)
    requires Distinct(db)
    ensures |IdsOf(Oldest(db, k))| == |Oldest(db, k)| == |Filter(db, IsIn(IdsOf(Oldest(db, k))))| == Min(k, |db|)
  {
    var m := |db| - Min(k, |db|);
    var sel := IdsOf(db[m..]);
    DeleteOldest(db, m);
    DeleteCount(db, sel);
    AtMostOnePerId(db, sel);
    IdsAtMost(db[m..]);
  }

  lemma {:induction false} IdsAtMost(db: Table)
    ensures |IdsOf(db)| <= |db|
  {
    if db != [] {
      IdsAtMost(db[..|db| - 1]);
      assert IdsOf(db) == IdsOf(db[..|db| - 1]) + {db[|db| - 1].id};
    } else {
      assert IdsOf(db) == {};
    }
  }

  // With i rows added and d removed by others between the count and the delete,
  // what is left lies between maxRetain + i - d and maxRetain + i.
  lemma ReapBounds(db0: Table, beforeSelect: seq<Other>, beforeDelete: seq<Other>, maxRetain: nat)
    requires Distinct(db0) && NewestFirst(db0) && 0 < maxRetain < |db0|
    requires AllHappen(db0, beforeSelect) && AllHappen(After(db0, beforeSelect), beforeDelete)
    ensures
      var db1 := After(db0, beforeSelect);
      var sel := IdsOf(Oldest(db1, |db0| - maxRetain));
      var left := Delete(After(db1, beforeDelete), sel);
      var i, d := Additions(beforeSelect) + Additions(beforeDelete), Removals(beforeSelect) + Removals(beforeDelete);
      maxRetain + i - d <= |left| <= maxRetain + i
  {
    var db1, over := After(db0, beforeSelect), |db0| - maxRetain;
    RunKeepsTable(db0, beforeSelect);
    ReapAfterSelect(db1, over, beforeDelete);
  }

  lemma ReapAfterSelect(db1: Table, over: nat, beforeDelete: seq<Other>)
    requires Distinct(db1) && NewestFirst(db1) && AllHappen(db1, beforeDelete)
    ensures
      var left := |Delete(After(db1, beforeDelete), IdsOf(Oldest(db1, over)))|;
      var i, d := Additions(beforeDelete), Removals(beforeDelete);
      |db1| + i - d - over <= left <= |db1| + i - Min(over, |db1|)
  {
    RunKeepsTable(db1, beforeDelete);
    var sel, db2 := IdsOf(Oldest(db1, over)), After(db1, beforeDelete);
    SelectionSize(db1, over);
    RunKeepsSelected(db1, beforeDelete, sel);
    AtMostOnePerId(db2, sel);
    DeleteCount(db2, sel);
  }

  // No selected row is newer than a row left unselected, whatever happened before the select.
  lemma SelectsOldest(db0: Table, beforeSelect: seq<Other>, k: nat, chosen: Session, kept: Session)
    requires Distinct(db0) && NewestFirst(db0) && AllHappen(db0, beforeSelect)
    requires var db1 := After(db0, beforeSelect);
      chosen in db1 && chosen.id in IdsOf(Oldest(db1, k)) && kept in db1 && kept.id !in IdsOf(Oldest(db1, k))
    ensures chosen.timestamp <= kept.timestamp
  {
    RunKeepsTable(db0, beforeSelect);
    var db1 := After(db0, beforeSelect);
    var m := |db1| - Min(k, |db1|);
    var c :| 0 <= c < |db1| && db1[c] == chosen;
    var u :| 0 <= u < |db1| && db1[u] == kept;
    var j :| 0 <= j < |db1[m..]| && db1[m..][j].id == chosen.id;
    assert db1[m + j].id == db1[c].id;
    assert forall x :: m <= x < |db1| ==> db1[x] == db1[m..][x - m];
    assert u < m;
  }

  // ---------- The reaper itself ----------

  // The table as other goroutines see it.
  class SessionStore {
    var rows: Table

    constructor (initial: Table)
      ensures rows == initial
    {
      rows := initial;
    }
  }

  datatype Phase = Idle | Counted | Selected | Deleted

  // Oldest first, as the select returns them.
  function OldestIds(db: Table, k: nat): (ids: seq<string>)
    ensures |ids| == Min(k, |db|)
    ensures forall i :: 0 <= i < |ids| ==> ids[i] == db[|db| - 1 - i].id
  {
    seq(Min(k, |db|), i requires 0 <= i < Min(k, |db|) => db[|db| - 1 - i].id)
  }

  lemma OldestIdsAreOldest(db: Table, k: nat)
    ensures (set id | id in OldestIds(db, k)) == IdsOf(Oldest(db, k))
  {
    var ids, rows := OldestIds(db, k), Oldest(db, k);
    var n, m := |ids|, |db| - |ids|;
    assert rows == db[m..];
    forall i | 0 <= i < n ensures ids[i] in IdsOf(rows) {
      assert ids[i] == rows[n - 1 - i].id;
    }
    forall j | 0 <= j < n ensures rows[j].id in ids {
      assert ids[n - 1 - j] == rows[j].id;
    }
  }

  // The local variables of one `reap` call are fields, because the table can
  // change between its statements.  `ok` is false when the database reports an error.
  class MaxSessionRowsReaper {
    const db: SessionStore
    var phase: Phase
    var overLimit: nat
    var idsToDelete: seq<string>
    var published: seq<seq<string>>  // the delete_session messages sent so far

    constructor (store: SessionStore)
      ensures db == store && phase == Idle && published == []
    {
      db, phase, overLimit, idsToDelete, published := store, Idle, 0, [], [];
    }

    method CountRows(maxRetain: int, ok: bool)
      requires phase == Idle
      modifies this`phase, this`overLimit
      ensures phase == (if ok && 0 < maxRetain < |db.rows| then Counted else Idle)
      ensures phase == Counted ==> overLimit == |db.rows| - maxRetain
    {
      if maxRetain <= 0 || !ok || |db.rows| <= maxRetain { return; }
      overLimit := |db.rows| - maxRetain;
      phase := Counted;
    }

    method SelectOldest(ok: bool)
      requires phase == Counted
      modifies this`phase, this`idsToDelete
      ensures phase == (if ok && idsToDelete != [] then Selected else Idle)
      ensures ok ==> idsToDelete == OldestIds(db.rows, overLimit)
    {
      phase := Idle;
      if !ok { return; }
      idsToDelete := OldestIds(db.rows, overLimit);
      if idsToDelete != [] { phase := Selected; }
    }

    method DeleteSelected(ok: bool)
      requires phase == Selected
      modifies this`phase, db
      ensures phase == (if ok then Deleted else Idle)
      ensures db.rows == if ok then Delete(old(db.rows), set id | id in idsToDelete) else old(db.rows)
    {
      phase := Idle;
      if !ok { return; }
      db.rows := Delete(db.rows, set id | id in idsToDelete);
      phase := Deleted;
    }

    method Publish()
      requires phase == Deleted
      modifies this`phase, this`published
      ensures phase == Idle && published == old(published) + [idsToDelete]
    {
      published := published + [idsToDelete];
      phase := Idle;
    }

    // Undisturbed, a reap keeps exactly the newest maxRetain rows and publishes the ids of the others.
    method Reap(maxRetain: int)
      requires phase == Idle && Distinct(db.rows)
      modifies this, db
      ensures phase == Idle
      ensures maxRetain <= 0 || |old(db.rows)| <= maxRetain ==> db.rows == old(db.rows) && published == old(published)
      ensures 0 < maxRetain < |old(db.rows)| ==>
        && db.rows == old(db.rows)[..maxRetain]
        && published == old(published) + [OldestIds(old(db.rows), |old(db.rows)| - maxRetain)]
    {
      CountRows(maxRetain, true);
      if phase == Counted {
        SelectOldest(true);
        if phase == Selected {
          OldestIdsAreOldest(db.rows, overLimit);
          DeleteOldest(db.rows, maxRetain);
          DeleteSelected(true);
          Publish();
        }
      }
    }
  }
}
