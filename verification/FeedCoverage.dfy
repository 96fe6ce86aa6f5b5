/**
 No gap and no duplicate in the feed: over every run the list has distinct ids and,
 once all is published and received, holds every session among the first `merged` of
 the server's order, wherever sessions are inserted and whenever the reaper deletes,
 if pages are fetched at settled moments and deletions are published in time.
 */
module FeedCoverage {
  import opened Lists
  import opened Options
  import opened SessionDb
  import opened Feed

  ghost predicate Announces(q: Query, n: Notification, id: string) {
    n.NewSession? && n.stub.configId == q.configId && n.stub.id == id
  }

  // The session's announcement is still to be published.
  ghost predicate Coming(q: Query, s: System, id: string) {
    exists n :: n in s.outbox && Announces(q, n, id)
  }

  // The list will show this id after receiving what is in the inbox, or the outbox announces it.
  ghost predicate Loaded(q: Query, s: System, id: string) {
    Present(q.configId, id, s.inbox, HasStub(s.ui.list, id)) || Coming(q, s, id)
  }

  ghost predicate Covered(q: Query, s: System) {
    var v := View(s.db, q);
    forall i :: 0 <= i < |v| && i < s.merged ==> Loaded(q, s, v[i].id)
  }

  // Were the list to show this id now, nothing in flight would take it away for good.
  ghost predicate Safe(q: Query, s: System, id: string) {
    Present(q.configId, id, s.inbox, true) || Coming(q, s, id)
  }

  ghost predicate NotRevoked(q: Query, s: System) {
    var v := View(s.db, q);
    forall i :: 0 <= i < |v| ==> Safe(q, s, v[i].id)
  }

  // As if the reap under way had deleted its rows already.
  ghost function Reaped(s: System): System {
    s.(db := Delete(s.db, s.selected))
  }

  ghost predicate Bookkeeping(s: System) {
    && Distinct(s.db) && OpenOk(s.db, s.open) && DistinctStubs(s.ui.list)
    && (forall id :: id in s.selected ==> HasId(s.db, id))
    && (s.merged == s.ui.offset || s.merged == s.ui.offset + LIMIT)
    && (s.ui.page.Some? ==> s.merged == s.ui.offset + LIMIT && !s.ui.loading)
  }

  ghost predicate Inv(q: Query, s: System) {
    Bookkeeping(s) && NotRevoked(q, s) && Covered(q, s) && Covered(q, Reaped(s))
  }

  // The condition on fetching a page: each session that a reap under way will move to the
  // first offset + LIMIT is there now, or is listed or about to be announced.
  ghost predicate Settled(q: Query, s: System) {
    var w := View(Delete(s.db, s.selected), q);
    forall i :: 0 <= i < |w| && i < s.ui.offset + LIMIT ==> OnPageOrAnnounced(q, s, w[i].id)
  }

  ghost predicate OnPageOrAnnounced(q: Query, s: System, id: string) {
    var v := View(s.db, q);
    HasId(v[..Min(s.ui.offset + LIMIT, |v|)], id) || Announced(q, s, id)
  }

  ghost predicate Announced(q: Query, s: System, id: string) {
    Present(q.configId, id, s.inbox, s.ui.offset > 0 && HasStub(s.ui.list, id)) || Coming(q, s, id)
  }

  // The condition on publishing a deletion: no session it names is stored, unless stored again
  // so recently that its announcement is still to be published.
  ghost predicate Timely(q: Query, s: System, k: nat)
    requires k < |s.outbox|
  {
    var v := View(s.db, q);
    s.outbox[k].DeleteSession? ==>
      forall i :: 0 <= i < |v| && v[i].id in s.outbox[k].ids ==> Coming(q, s, v[i].id)
  }

  // ---------- How the server's view moves ----------

  lemma ViewInsert(db: Table, p: nat, row: Session, q: Query)
    requires p <= |db|
    ensures View(db, q) == View(db[..p], q) + View(db[p..], q)
    ensures View(Insert(db, p, row), q) == View(db[..p], q) + (if Matches(q, row) then [row] else []) + View(db[p..], q)
  {
    FilterInsert(db, p, row, Matching(q));
  }

  lemma {:induction false} ViewReplace(db: Table, row: Session, q: Query)
    requires forall i :: 0 <= i < |db| && db[i].id == row.id ==>
      db[i].configId == row.configId && db[i].timestamp == row.timestamp
    ensures View(Replace(db, row), q) == Replace(View(db, q), row)
  {
    if db != [] {
      ViewReplace(db[1..], row, q);
      assert db[0].id == row.id ==> Matches(q, db[0]) == Matches(q, row);
      ReplaceConcat(if Matches(q, db[0]) then [db[0]] else [], View(db[1..], q), row);
      assert Replace(db, row)[1..] == Replace(db[1..], row);
    }
  }

  lemma ReplaceConcat(xs: Table, ys: Table, row: Session)
    ensures Replace(xs + ys, row) == Replace(xs, row) + Replace(ys, row)
  {
  }

  lemma ViewDelete(db: Table, ids: set<string>, q: Query)
    ensures View(Delete(db, ids), q) == Delete(View(db, q), ids)
  {
    FilterFilter(db, NotIn(ids), Matching(q));
  }

  // ---------- Each step keeps the invariant ----------

  lemma ComingAfter(q: Query, s: System, n: Notification, s': System, id: string)
    requires s'.outbox == s.outbox + [n]
    ensures Coming(q, s', id) <==> Coming(q, s, id) || Announces(q, n, id)
  {
    assert n in s'.outbox;
  }

  // A row goes in (a new session, or one finished after it was reaped), to be announced.
  lemma InsertKeepsView(q: Query, s: System, row: Session, p: nat, s': System)
    requires Covered(q, s) && p <= |s.db| && s'.db == Insert(s.db, p, row) && s'.inbox == s.inbox
    requires s'.outbox == s.outbox + [NewSession(StubOf(row))] && s'.ui == s.ui && s'.merged == s.merged
    ensures Covered(q, s') && (NotRevoked(q, s) ==> NotRevoked(q, s'))
  {
    var v, v', a := View(s.db, q), View(s'.db, q), |View(s.db[..p], q)|;
    ViewInsert(s.db, p, row, q);
    forall i | 0 <= i < |v'|
      ensures i < s'.merged ==> Loaded(q, s', v'[i].id)
      ensures NotRevoked(q, s) ==> Safe(q, s', v'[i].id)
    {
      ComingAfter(q, s, NewSession(StubOf(row)), s', v'[i].id);
      if !Matches(q, row) || i < a {
        assert v'[i] == v[i];
      } else if i == a {
        assert v'[i] == row;
      } else {
        assert v'[i] == v[i - 1];
      }
    }
  }

  lemma InsertBetween(a: Table, b: Table, row: Session)
    ensures Insert(a + b, |a|, row) == a + [row] + b
  {
  }

  // Deleting after the insertion is inserting after the deletion.
  lemma ReapedInsert(s: System, row: Session, p: nat, s': System)
    requires p <= |s.db| && row.id !in s.selected && s'.db == Insert(s.db, p, row) && s'.selected == s.selected
    ensures var p' := |Delete(s.db[..p], s.selected)|;
      p' <= |Reaped(s).db| && Reaped(s').db == Insert(Reaped(s).db, p', row)
  {
    var a, b := Delete(s.db[..p], s.selected), Delete(s.db[p..], s.selected);
    FilterInsert(s.db, p, row, NotIn(s.selected));
    InsertBetween(a, b, row);
  }

  lemma InsertKeepsInv(q: Query, s: System, row: Session, p: nat, s': System)
    requires Inv(q, s) && p <= |s.db| && !HasId(s.db, row.id)
    requires s' == s.(db := Insert(s.db, p, row), open := s'.open, outbox := s.outbox + [NewSession(StubOf(row))])
    requires OpenOk(s'.db, s'.open)
    ensures Inv(q, s')
  {
    SaveDistinct(s.db, p, row);
    InsertKeepsIds(s.db, p, row, s.selected);
    InsertKeepsView(q, s, row, p, s');
    ReapedInsert(s, row, p, s');
    InsertKeepsView(q, Reaped(s), row, |Delete(s.db[..p], s.selected)|, Reaped(s'));
  }

  lemma InsertKeepsIds(db: Table, p: nat, row: Session, ids: set<string>)
    requires p <= |db| && forall id :: id in ids ==> HasId(db, id)
    ensures forall id :: id in ids ==> HasId(Insert(db, p, row), id)
  {
    forall id | id in ids ensures HasId(Insert(db, p, row), id) {
      var k :| 0 <= k < |db| && db[k].id == id;
      assert Insert(db, p, row)[if k < p then k else k + 1].id == id;
    }
  }

  // A stored row is overwritten in place, to be announced.
  lemma ReplaceKeepsView(q: Query, s: System, row: Session, s': System)
    requires Covered(q, s) && s'.db == Replace(s.db, row) && s'.inbox == s.inbox
    requires SameColumns(s.db, row)
    requires s'.outbox == s.outbox + [NewSession(StubOf(row))] && s'.ui == s.ui && s'.merged == s.merged
    ensures Covered(q, s') && (NotRevoked(q, s) ==> NotRevoked(q, s'))
  {
    var v, v' := View(s.db, q), View(s'.db, q);
    ViewReplace(s.db, row, q);
    forall i | 0 <= i < |v'|
      ensures i < s'.merged ==> Loaded(q, s', v'[i].id)
      ensures NotRevoked(q, s) ==> Safe(q, s', v'[i].id)
    {
      assert v'[i].id == v[i].id;
      ComingAfter(q, s, NewSession(StubOf(row)), s', v'[i].id);
    }
  }

  lemma {:induction false} ReapedReplace(db: Table, row: Session, ids: set<string>)
    ensures Delete(Replace(db, row), ids) == Replace(Delete(db, ids), row)
  {
    if db != [] {
      ReapedReplace(db[1..], row, ids);
      ReplaceConcat(if NotIn(ids)(db[0]) then [db[0]] else [], Delete(db[1..], ids), row);
      assert Replace(db, row)[1..] == Replace(db[1..], row);
    }
  }

  lemma ReplaceKeepsIds(db: Table, row: Session, ids: set<string>)
    requires forall id :: id in ids ==> HasId(db, id)
    ensures forall id :: id in ids ==> HasId(Replace(db, row), id)
  {
    forall id | id in ids ensures HasId(Replace(db, row), id) {
      var k :| 0 <= k < |db| && db[k].id == id;
      assert Replace(db, row)[k].id == id;
    }
  }

  lemma ReplaceKeepsInv(q: Query, s: System, row: Session, s': System)
    requires Inv(q, s) && SameColumns(s.db, row)
    requires s' == s.(db := Replace(s.db, row), open := s'.open, outbox := s.outbox + [NewSession(StubOf(row))])
    requires OpenOk(s'.db, s'.open)
    ensures Inv(q, s')
  {
    ReplaceKeepsIds(s.db, row, s.selected);
    ReplaceKeepsView(q, s, row, s');
    ReapedReplace(s.db, row, s.selected);
    ReapedColumns(s, row);
    ReplaceKeepsView(q, Reaped(s), row, Reaped(s'));
  }

  // Rows of this id agree with the row on what queries filter by.
  ghost predicate SameColumns(db: Table, row: Session) {
    forall i :: 0 <= i < |db| && db[i].id == row.id ==> db[i].configId == row.configId && db[i].timestamp == row.timestamp
  }

  lemma ReapedColumns(s: System, row: Session)
    requires SameColumns(s.db, row)
    ensures SameColumns(Reaped(s).db, row)
  {
    var w := Reaped(s).db;
    forall i | 0 <= i < |w| && w[i].id == row.id
      ensures w[i].configId == row.configId && w[i].timestamp == row.timestamp
    {
      assert w[i] in w && w[i] in s.db;
      var k :| 0 <= k < |s.db| && s.db[k] == w[i];
    }
  }

  lemma TailIds(db: Table, m: nat, x: Session)
    requires Distinct(db) && m <= |db| && x in db
    ensures x.id in IdsOf(db[m..]) <==> x in db[m..]
    ensures x in db[..m] ==> x.id !in IdsOf(db[m..])
  {
    DeleteOldest(db, m);
    assert db == db[..m] + db[m..];
    if x in db[..m] {
      assert x in Delete(db, IdsOf(db[m..]));
    } else {
      var j :| 0 <= j < |db[m..]| && db[m..][j] == x;
    }
  }

  // In the view too, the oldest rows of the table are a tail: without them it is a prefix.
  lemma OldestIsTail(q: Query, db: Table, k: nat)
    requires Distinct(db)
    ensures var w, v := View(Delete(db, IdsOf(Oldest(db, k))), q), View(db, q); |w| <= |v| && w == v[..|w|]
  {
    var m := |db| - Min(k, |db|);
    DeleteOldest(db, m);
    assert db == db[..m] + db[m..];
    FilterConcat(db[..m], db[m..], Matching(q));
  }

  lemma OldestIds(db: Table, k: nat, id: string)
    requires id in IdsOf(Oldest(db, k))
    ensures HasId(db, id)
  {
    var m := |db| - Min(k, |db|);
    var j :| 0 <= j < |db[m..]| && db[m..][j].id == id;
    assert db[m + j].id == id;
  }

  lemma SelectKeepsInv(q: Query, s: System, k: nat)
    requires Inv(q, s) && s.selected == {}
    ensures Inv(q, s.(selected := IdsOf(Oldest(s.db, k))))
  {
    var s' := s.(selected := IdsOf(Oldest(s.db, k)));
    OldestIsTail(q, s.db, k);
    var v := View(s.db, q);
    assert forall i :: 0 <= i < |v| ==> Loaded(q, s, v[i].id) == Loaded(q, s', v[i].id);
    forall id | id in s'.selected ensures HasId(s.db, id) {
      OldestIds(s.db, k, id);
    }
  }

  lemma DeleteKeepsView(q: Query, s: System)
    requires s.selected != {} && NotRevoked(q, s)
    ensures NotRevoked(q, Next(q, s, ReapDelete))
    ensures Covered(q, Next(q, s, ReapDelete)) <==> Covered(q, Reaped(s))
  {
    var s' := Next(q, s, ReapDelete);
    var v, v' := View(s.db, q), View(s'.db, q);
    ViewDelete(s.db, s.selected, q);
    forall i | 0 <= i < |v'|
      ensures Loaded(q, s', v'[i].id) <==> Loaded(q, Reaped(s), v'[i].id)
      ensures Safe(q, s', v'[i].id)
    {
      ComingAfter(q, s, DeleteSession(s.selected), s', v'[i].id);
      assert v'[i] in v' && v'[i] in v;
      var k :| 0 <= k < |v| && v[k] == v'[i];
      assert Safe(q, s, v[k].id);
    }
  }

  lemma DeleteKeepsOpen(db: Table, ids: set<string>, open: map<string, Session>)
    requires OpenOk(db, open)
    ensures OpenOk(Delete(db, ids), open)
  {
    var w := Delete(db, ids);
    forall i | 0 <= i < |w| && w[i].id in open
      ensures w[i].configId == open[w[i].id].configId && w[i].timestamp == open[w[i].id].timestamp
    {
      assert w[i] in w && w[i] in db;
      var k :| 0 <= k < |db| && db[k] == w[i];
    }
  }

  lemma DeleteKeepsInv(q: Query, s: System)
    requires Inv(q, s)
    ensures Inv(q, Next(q, s, ReapDelete))
  {
    if s.selected != {} {
      DeleteKeepsView(q, s);
      FilterDistinct(s.db, NotIn(s.selected));
      FilterAll(Next(q, s, ReapDelete).db, NotIn({}));
      DeleteKeepsOpen(s.db, s.selected, s.open);
    }
  }

  lemma ArriveLoaded(q: Query, s: System, id: string)
    requires s.inbox != []
    ensures Loaded(q, Next(q, s, Arrive), id) == Loaded(q, s, id)
    ensures Safe(q, s, id) ==> Safe(q, Next(q, s, Arrive), id)
  {
    assert Coming(q, Next(q, s, Arrive), id) == Coming(q, s, id);
    ReceivedStub(q.configId, s.ui.list, s.inbox[0], id);
    if Present(q.configId, id, s.inbox, true) {
      PresentMonotone(q.configId, id, s.inbox[1..], PresentOne(q.configId, id, s.inbox[0], true));
    }
  }

  lemma ArriveKeepsInv(q: Query, s: System)
    requires Inv(q, s) && s.inbox != []
    ensures Inv(q, Next(q, s, Arrive))
  {
    var s', v, w := Next(q, s, Arrive), View(s.db, q), View(Reaped(s).db, q);
    ReceiveDistinct(q.configId, s.ui.list, s.inbox[0]);
    forall i | 0 <= i < |v| ensures Loaded(q, s', v[i].id) == Loaded(q, s, v[i].id) && Safe(q, s', v[i].id) {
      ArriveLoaded(q, s, v[i].id);
    }
    forall i | 0 <= i < |w| ensures Loaded(q, Reaped(s'), w[i].id) == Loaded(q, Reaped(s), w[i].id) {
      ArriveLoaded(q, Reaped(s), w[i].id);
    }
  }

  // ---------- Publishing ----------

  lemma WithoutOne(outbox: seq<Notification>, k: nat, n: Notification)
    requires k < |outbox|
    ensures n in outbox <==> n == outbox[k] || n in outbox[..k] + outbox[k + 1..]
  {
    assert outbox == outbox[..k] + [outbox[k]] + outbox[k + 1..];
  }

  // What publishing one notification does to one id.
  lemma PublishedId(q: Query, s: System, k: nat, id: string)
    requires k < |s.outbox|
    ensures var s', n := Next(q, s, Publish(k)), s.outbox[k];
      && (n.DeleteSession? && id in n.ids ==> (Loaded(q, s', id) <==> Coming(q, s, id)) && (Safe(q, s', id) <==> Coming(q, s, id)))
      && (!(n.DeleteSession? && id in n.ids) ==>
            (Loaded(q, s, id) ==> Loaded(q, s', id)) && (Safe(q, s, id) ==> Safe(q, s', id)))
  {
    var s', n := Next(q, s, Publish(k)), s.outbox[k];
    PresentSnoc(q.configId, id, s.inbox, n, HasStub(s.ui.list, id));
    PresentSnoc(q.configId, id, s.inbox, n, true);
    forall m | Announces(q, m, id) ensures m in s.outbox <==> m == n || m in s'.outbox {
      WithoutOne(s.outbox, k, m);
    }
    if Coming(q, s, id) && !Announces(q, n, id) {
      var m :| m in s.outbox && Announces(q, m, id);
      assert m in s'.outbox;
    }
  }

  // Publishing keeps everything on course exactly when a deletion is published in time.
  lemma PublishKeepsInvIff(q: Query, s: System, k: nat)
    requires Inv(q, s) && k < |s.outbox|
    ensures Inv(q, Next(q, s, Publish(k))) <==> Timely(q, s, k)
  {
    var s', v := Next(q, s, Publish(k)), View(s.db, q);
    forall i | 0 <= i < |v|
      ensures Timely(q, s, k) ==> (Loaded(q, s, v[i].id) ==> Loaded(q, s', v[i].id)) && Safe(q, s', v[i].id)
      ensures s.outbox[k].DeleteSession? && v[i].id in s.outbox[k].ids ==> (Safe(q, s', v[i].id) <==> Coming(q, s, v[i].id))
    {
      assert Safe(q, s, v[i].id);
      PublishedId(q, s, k, v[i].id);
    }
    if Timely(q, s, k) {
      PublishKeepsReaped(q, s, k);
    }
  }

  lemma PublishKeepsReaped(q: Query, s: System, k: nat)
    requires Covered(q, Reaped(s)) && k < |s.outbox| && Timely(q, s, k)
    ensures Covered(q, Reaped(Next(q, s, Publish(k))))
  {
    var t, v, w := Reaped(Next(q, s, Publish(k))), View(s.db, q), View(Reaped(s).db, q);
    forall i | 0 <= i < |w| && i < s.merged ensures Loaded(q, t, w[i].id) {
      assert Loaded(q, Reaped(s), w[i].id);
      var j := LeftIsStored(q, s, i);
      PublishedId(q, Reaped(s), k, w[i].id);
      assert Coming(q, s, v[j].id) ==> Coming(q, Reaped(s), w[i].id);
    }
  }

  // Publishing a deletion hides one of the first `merged` sessions exactly when one is named
  // whose announcement is no longer to come: it was stored again and announced already.
  lemma PublishCoversIff(q: Query, s: System, k: nat)
    requires Inv(q, s) && k < |s.outbox| && s.outbox[k].DeleteSession?
    ensures var v := View(s.db, q);
      Covered(q, Next(q, s, Publish(k))) <==>
        forall i :: 0 <= i < |v| && i < s.merged && v[i].id in s.outbox[k].ids ==> Coming(q, s, v[i].id)
  {
    var s', v := Next(q, s, Publish(k)), View(s.db, q);
    forall i | 0 <= i < |v| && i < s.merged
      ensures Loaded(q, s', v[i].id) <==> (v[i].id in s.outbox[k].ids ==> Coming(q, s, v[i].id))
    {
      assert Loaded(q, s, v[i].id);
      PublishedId(q, s, k, v[i].id);
    }
  }

  // ---------- Fetching ----------

  lemma PagedStub(prev: seq<Stub>, rows: Table, offset: nat, id: string)
    ensures var r := MergePage(prev, Stubs(rows), offset);
      HasStub(r, id) <==> HasStub(Stubs(rows), id) || (offset > 0 && HasStub(prev, id))
  {
    var page := Stubs(rows);
    if offset > 0 {
      FilteredStub(page, NotShown(prev), id);
      HasInConcat(prev, Filter(page, NotShown(prev)), id);
    }
  }

  lemma HasInConcat(xs: seq<Stub>, ys: seq<Stub>, id: string)
    ensures HasStub(xs + ys, id) <==> HasStub(xs, id) || HasStub(ys, id)
  {
    var r := xs + ys;
    if HasStub(xs, id) {
      var i :| 0 <= i < |xs| && xs[i].id == id;
      assert r[i].id == id;
    } else if HasStub(ys, id) {
      var i :| 0 <= i < |ys| && ys[i].id == id;
      assert r[|xs| + i].id == id;
    }
  }

  // What the list will have after the page is merged: the first offset + LIMIT, and
  // what was announced.
  lemma FetchLoads(q: Query, s: System, i: nat)
    requires Distinct(s.db) && NotRevoked(q, s) && Covered(q, s) && s.merged >= s.ui.offset && i < |View(s.db, q)|
    ensures var id := View(s.db, q)[i].id;
      Loaded(q, Next(q, s, FetchPage), id) <==> i < s.ui.offset + LIMIT || Announced(q, s, id)
  {
    var v, s' := View(s.db, q), Next(q, s, FetchPage);
    var rows, id := Page(v, s.ui.offset, LIMIT), v[i].id;
    FilterDistinct(s.db, Matching(q));
    PagedStub(s.ui.list, rows, s.ui.offset, id);
    OnPage(v, s.ui.offset, i);
    assert Coming(q, s', id) == Coming(q, s, id);
    if s.ui.offset <= i < s.ui.offset + LIMIT {
      assert Safe(q, s, id);
    } else if i < s.ui.offset {
      assert Loaded(q, s, id);
    }
  }

  lemma OnPage(v: Table, offset: nat, i: nat)
    requires Distinct(v) && i < |v|
    ensures HasStub(Stubs(Page(v, offset, LIMIT)), v[i].id) <==> offset <= i < offset + LIMIT
  {
    var rows := Page(v, offset, LIMIT);
    if offset <= |v| {
      PageIsSlice(v, offset, LIMIT);
      assert forall k :: 0 <= k < |rows| ==> rows[k] == v[offset + k];
      if offset <= i < offset + LIMIT {
        assert Stubs(rows)[i - offset].id == v[i].id;
      }
    }
  }

  lemma FetchedPageDistinct(q: Query, s: System)
    requires Distinct(s.db) && DistinctStubs(s.ui.list)
    ensures DistinctStubs(Next(q, s, FetchPage).ui.list)
  {
    var v := View(s.db, q);
    var rows := Page(v, s.ui.offset, LIMIT);
    FilterDistinct(s.db, Matching(q));
    assert Distinct(rows) by {
      if s.ui.offset <= |v| { PageIsSlice(v, s.ui.offset, LIMIT); }
    }
    MergePageDistinct(s.ui.list, Stubs(rows), s.ui.offset);
  }

  lemma FetchCovers(q: Query, s: System)
    requires Inv(q, s)
    ensures Covered(q, Next(q, s, FetchPage)) && NotRevoked(q, Next(q, s, FetchPage))
  {
    var s', v, m := Next(q, s, FetchPage), View(s.db, q), s.ui.offset + LIMIT;
    forall i | 0 <= i < |v|
      ensures i < m ==> Loaded(q, s', v[i].id)
      ensures Safe(q, s', v[i].id)
    {
      FetchLoads(q, s, i);
      assert Safe(q, s, v[i].id);
    }
  }

  lemma FetchCoversIff(q: Query, s: System)
    requires Inv(q, s)
    ensures Covered(q, Reaped(Next(q, s, FetchPage))) <==> Settled(q, s)
  {
    var t, w, m := Reaped(Next(q, s, FetchPage)), View(Reaped(s).db, q), s.ui.offset + LIMIT;
    assert t.db == Reaped(s).db && t.merged == m;
    forall i | 0 <= i < |w| && i < m ensures Loaded(q, t, w[i].id) <==> OnPageOrAnnounced(q, s, w[i].id) {
      FetchedReapedId(q, s, i);
    }
  }

  lemma FetchedId(q: Query, s: System, k: nat)
    requires Distinct(s.db) && NotRevoked(q, s) && Covered(q, s) && s.merged >= s.ui.offset && k < |View(s.db, q)|
    ensures var id := View(s.db, q)[k].id;
      Loaded(q, Next(q, s, FetchPage), id) <==> OnPageOrAnnounced(q, s, id)
  {
    FetchLoads(q, s, k);
    OnPageIff(q, s, k);
  }

  lemma OnPageIff(q: Query, s: System, k: nat)
    requires Distinct(s.db) && k < |View(s.db, q)|
    ensures var id := View(s.db, q)[k].id;
      OnPageOrAnnounced(q, s, id) <==> k < s.ui.offset + LIMIT || Announced(q, s, id)
  {
    FilterDistinct(s.db, Matching(q));
    UpToIff(View(s.db, q), s.ui.offset + LIMIT, k);
  }

  lemma UpToIff(v: Table, m: nat, k: nat)
    requires Distinct(v) && k < |v|
    ensures HasId(v[..Min(m, |v|)], v[k].id) <==> k < m
  {
    AmongFirst(v, Min(m, |v|), k);
  }

  lemma LeftIsStored(q: Query, s: System, i: nat) returns (k: nat)
    requires i < |View(Reaped(s).db, q)|
    ensures k < |View(s.db, q)| && View(s.db, q)[k] == View(Reaped(s).db, q)[i]
  {
    var v, w := View(s.db, q), View(Reaped(s).db, q);
    ViewDelete(s.db, s.selected, q);
    assert w[i] in w && w[i] in v;
    k :| 0 <= k < |v| && v[k] == w[i];
  }

  lemma FetchedReapedId(q: Query, s: System, i: nat)
    requires Inv(q, s) && i < |View(Reaped(s).db, q)|
    ensures var id := View(Reaped(s).db, q)[i].id;
      Loaded(q, Reaped(Next(q, s, FetchPage)), id) <==> OnPageOrAnnounced(q, s, id)
  {
    var k := LeftIsStored(q, s, i);
    FetchedId(q, s, k);
    SameLoaded(q, Next(q, s, FetchPage), View(Reaped(s).db, q)[i].id);
  }

  lemma SameLoaded(q: Query, s: System, id: string)
    ensures Loaded(q, Reaped(s), id) == Loaded(q, s, id)
  {
  }

  lemma AmongFirst(v: Table, n: nat, k: nat)
    requires Distinct(v) && n <= |v| && k < |v|
    ensures HasId(v[..n], v[k].id) <==> k < n
  {
    if k < n {
      assert v[..n][k].id == v[k].id;
    }
  }

  // Fetching a page and then completing the reap leaves no gap exactly when the moment was settled.
  lemma FetchThenReapIff(q: Query, s: System)
    requires Inv(q, s) && s.selected != {}
    ensures Covered(q, Next(q, Next(q, s, FetchPage), ReapDelete)) <==> Settled(q, s)
  {
    FetchCovers(q, s);
    FetchCoversIff(q, s);
    DeleteKeepsView(q, Next(q, s, FetchPage));
  }

  lemma FetchKeepsInv(q: Query, s: System)
    requires Inv(q, s) && Settled(q, s)
    ensures Inv(q, Next(q, s, FetchPage))
  {
    FetchCovers(q, s);
    FetchCoversIff(q, s);
    FetchedPageDistinct(q, s);
  }

  lemma FinishKeepsInv(q: Query, s: System, id: string, r: Response, p: nat)
    requires Inv(q, s) && CanStep(s, Finish(id, r, p))
    ensures Inv(q, Next(q, s, Finish(id, r, p)))
  {
    var s', row := Next(q, s, Finish(id, r, p)), Finished(s.open[id], r);
    assert OpenOk(s'.db, s'.open);
    if HasId(s.db, id) {
      ReplaceKeepsInv(q, s, row, s');
    } else {
      InsertKeepsInv(q, s, row, p, s');
    }
  }

  // The conditions on a step.
  ghost predicate OnCourse(q: Query, s: System, step: Step)
    requires CanStep(s, step)
  {
    match step
    case FetchPage => Settled(q, s)
    case Publish(k) => Timely(q, s, k)
    case _ => true
  }

  lemma {:induction false} StepKeepsInv(q: Query, s: System, step: Step)
    requires Inv(q, s) && CanStep(s, step) && OnCourse(q, s, step)
    ensures Inv(q, Next(q, s, step))
  {
    match step
    case Start(row, p) => InsertKeepsInv(q, s, row, p, Next(q, s, step));
    case Finish(id, r, p) => FinishKeepsInv(q, s, id, r, p);
    case ReapSelect(k) => SelectKeepsInv(q, s, k);
    case ReapDelete => DeleteKeepsInv(q, s);
    case Publish(k) => PublishKeepsInvIff(q, s, k);
    case Arrive => ArriveKeepsInv(q, s);
    case LoadMore =>
    case FetchPage => FetchKeepsInv(q, s);
  }

  lemma {:induction false} AfterCons(q: Query, s: System, step: Step, steps: seq<Step>)
    requires CanStep(s, step)
    ensures After(q, s, [step] + steps) == After(q, Next(q, s, step), steps)
  {
    var all := [step] + steps;
    if steps == [] {
      assert all[..0] == [] && all == [step];
      assert After(q, s, []) == At(s);
    } else {
      var n := |steps| - 1;
      assert all[..n + 1] == [step] + steps[..n];
      AfterCons(q, s, step, steps[..n]);
    }
  }

  // The page was opened at s0, and every step since met its condition.
  ghost predicate Run(q: Query, s0: System, steps: seq<Step>) {
    Opening(s0) && After(q, s0, steps).At? && forall k: nat :: k < |steps| ==> OnCourseAt(q, s0, steps, k)
  }

  ghost predicate OnCourseAt(q: Query, s0: System, steps: seq<Step>, k: nat) {
    && k < |steps| && After(q, s0, steps[..k]).At? && CanStep(After(q, s0, steps[..k]).sys, steps[k])
    && OnCourse(q, After(q, s0, steps[..k]).sys, steps[k])
  }

  lemma RunFront(q: Query, s0: System, steps: seq<Step>)
    requires Run(q, s0, steps) && steps != []
    ensures Run(q, s0, steps[..|steps| - 1]) && OnCourseAt(q, s0, steps, |steps| - 1)
  {
    var front := steps[..|steps| - 1];
    forall k: nat | k < |front| ensures OnCourseAt(q, s0, front, k) {
      assert OnCourseAt(q, s0, steps, k) && front[..k] == steps[..k];
    }
  }

  lemma RunOneMore(q: Query, s0: System, steps: seq<Step>)
    requires steps != [] && Run(q, s0, steps[..|steps| - 1]) && OnCourseAt(q, s0, steps, |steps| - 1)
    ensures Run(q, s0, steps)
  {
    var front := steps[..|steps| - 1];
    forall k: nat | k < |steps| ensures OnCourseAt(q, s0, steps, k) {
      if k < |front| { assert OnCourseAt(q, s0, front, k) && front[..k] == steps[..k]; }
    }
  }

  lemma {:induction false} RunKeepsInv(q: Query, s0: System, steps: seq<Step>)
    requires Run(q, s0, steps)
    ensures Inv(q, After(q, s0, steps).sys)
  {
    if steps != [] {
      RunFront(q, s0, steps);
      RunKeepsInv(q, s0, steps[..|steps| - 1]);
      StepKeepsInv(q, After(q, s0, steps[..|steps| - 1]).sys, steps[|steps| - 1]);
    }
  }

  // ---------- The results ----------

  // With nothing to be published or received: no id twice, and every session among the
  // first offset + LIMIT of the server's order is shown (offset, while the next page loads).
  lemma NoGapNoDuplicate(q: Query, s0: System, steps: seq<Step>, i: nat)
    requires Run(q, s0, steps)
    requires After(q, s0, steps).sys.inbox == [] && After(q, s0, steps).sys.outbox == []
    ensures var s := After(q, s0, steps).sys;
      && DistinctStubs(s.ui.list)
      && (i < |View(s.db, q)| && i < s.ui.offset + (if s.ui.page.Some? then LIMIT else 0) ==>
            HasStub(s.ui.list, View(s.db, q)[i].id))
  {
    RunKeepsInv(q, s0, steps);
    var s := After(q, s0, steps).sys;
    assert i < |View(s.db, q)| && i < s.merged ==> Loaded(q, s, View(s.db, q)[i].id);
  }

  // At any moment: the list that the notifications in flight lead to has the session, or its
  // announcement is still to be published.
  lemma NoGapOnceReceived(q: Query, s0: System, steps: seq<Step>, i: nat)
    requires Run(q, s0, steps)
    ensures var s := After(q, s0, steps).sys;
      i < |View(s.db, q)| && i < s.merged ==>
        HasStub(ReceiveAll(q.configId, s.ui.list, s.inbox), View(s.db, q)[i].id) || Coming(q, s, View(s.db, q)[i].id)
  {
    RunKeepsInv(q, s0, steps);
    var s := After(q, s0, steps).sys;
    if i < |View(s.db, q)| && i < s.merged {
      assert Loaded(q, s, View(s.db, q)[i].id);
      PresentReceive(q.configId, s.ui.list, s.inbox, View(s.db, q)[i].id);
    }
  }

  // A page shorter than LIMIT is the last: the list that was then to come held every session.
  lemma ShortPageIsComplete(q: Query, s0: System, steps: seq<Step>, i: nat)
    requires Run(q, s0, steps + [FetchPage])
    requires i < |View(After(q, s0, steps + [FetchPage]).sys.db, q)|
    ensures var s := After(q, s0, steps + [FetchPage]).sys;
      && s.ui.page.Some? && s.ui.page.value <= 50 && (HasMore(s.ui) <==> s.ui.page.value == 50)
      && (s.ui.page.value < 50 ==>
            && (HasStub(ReceiveAll(q.configId, s.ui.list, s.inbox), View(s.db, q)[i].id) || Coming(q, s, View(s.db, q)[i].id))
            && (s.inbox == [] && s.outbox == [] ==> HasStub(s.ui.list, View(s.db, q)[i].id)))
  {
    assert (steps + [FetchPage])[..|steps + [FetchPage]| - 1] == steps;
    NoGapOnceReceived(q, s0, steps + [FetchPage], i);
  }
}
