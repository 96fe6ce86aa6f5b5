/**
 Exact order of the feed.  When sessions of the configuration arrive newest first, finished
 sessions are ones the list has, no notification is published out of turn, and no page is
 merged that notifications still to come would tear apart, the list (once all is published
 and received) is a prefix of the server's newest-first order, row for row.
 `StartOrderIff`, `FinishOrderIff`, `PublishOrderIff`, `FetchOrderIff` and
 `FirstPageOrderIff` say what one notification, one publication or one page needs.
 */
module FeedOrder {
  import opened Lists
  import opened Options
  import opened SessionDb
  import opened Feed
  import opened FeedCoverage
  import opened FeedFirstPage
  import opened FeedNewestFirst
  import opened FeedTurns

  ghost predicate ListOk(list: seq<Stub>, v: Table, merged: nat) {
    IsPrefixOf(list, v) && |list| >= Min(merged, |v|)
  }

  // What is still to be received, changes published in their order.
  ghost function Pending(s: System): seq<Notification> {
    s.inbox + s.outbox
  }

  ghost function Shown(q: Query, s: System): seq<Stub> {
    ReceiveAll(q.configId, s.ui.list, Pending(s))
  }

  // No deletion still to come names a stored session.
  ghost predicate NoneThreatened(db: Table, pending: seq<Notification>) {
    forall x :: x in db ==> !Condemned(pending, x.id)
  }

  // The last announcement still to come of a session says what is stored.
  ghost predicate UpToDate(q: Query, db: Table, pending: seq<Notification>) {
    forall x :: x in db && Matches(q, x) ==> Latest(q.configId, x.id, pending) in {None, Some(StubOf(x))}
  }

  ghost predicate Faithful(q: Query, db: Table, pending: seq<Notification>) {
    NoneThreatened(db, pending) && UpToDate(q, db, pending)
  }

  ghost predicate Grounded(q: Query, s: System) {
    && Distinct(s.db) && OpenOk(s.db, s.open) && SelectedIsTail(s) && Faithful(q, s.db, Pending(s))
    && (forall id :: id in s.selected ==> HasId(s.db, id))
  }

  // Before a page has been merged, nothing is said of the list.
  ghost predicate Ordered(q: Query, s: System) {
    && Grounded(q, s) && DistinctStubs(s.ui.list)
    && (s.merged > 0 ==> ListOk(Shown(q, s), View(s.db, q), s.merged))
    && (s.merged == s.ui.offset || s.merged == s.ui.offset + LIMIT)
    && (s.ui.page.Some? ==> s.merged == s.ui.offset + LIMIT && !s.ui.loading)
  }

  // A session stored now: ahead of the selected ones, under an id not about to be published as
  // deleted, and, if it is of this configuration, newer than all that match the query, as it does.
  ghost predicate StoredInOrder(q: Query, s: System, row: Session, p: nat)
    requires p <= |s.db|
  {
    && AheadOfSelected(s, p) && !Condemned(Pending(s), row.id)
    && (s.merged > 0 && row.configId == q.configId ==> Matches(q, row) && View(s.db[..p], q) == [])
  }

  // The conditions on a step.
  ghost predicate InOrder(q: Query, s: System, step: Step)
    requires CanStep(s, step)
  {
    match step
    case Start(row, p) => StoredInOrder(q, s, row, p)
    case Finish(id, r, p) =>
      if HasId(s.db, id) then s.merged > 0 && s.open[id].configId == q.configId ==> HasStub(Shown(q, s), id)
      else StoredInOrder(q, s, Finished(s.open[id], r), p)
    case Publish(k) => PublishedInTurn(q, s, k)
    case FetchPage =>
      var page := Stubs(RecentSessions(s.db, q, LIMIT, s.ui.offset));
      if s.ui.offset == 0 then FirstPageQuiet(q.configId, page, Pending(s)) else LaterPageQuiet(s.ui.list, Pending(s), page)
    case _ => true
  }

  // The condition on a publication: the notification may overtake the earlier ones.
  ghost predicate PublishedInTurn(q: Query, s: System, k: nat)
    requires k < |s.outbox|
  {
    var v, n, earlier, later := View(s.db, q), s.outbox[k], s.outbox[..k], s.outbox[k + 1..];
    if s.merged > 0 then InTurn(q.configId, ReceiveAll(q.configId, s.ui.list, s.inbox), v, earlier, n, later)
    else IsStoredNews(q.configId, n, IdsOf(v)) ==> KeepsContent(q.configId, n.stub, earlier, later)
  }

  // Each session of the page that is still to be announced is listed already.
  ghost predicate LaterPageQuiet(list: seq<Stub>, pending: seq<Notification>, page: seq<Stub>) {
    forall n :: n in pending && n.NewSession? && HasStub(page, n.stub.id) ==> HasStub(list, n.stub.id)
  }

  // ---------- One notification, exactly ----------

  lemma StubIndex(list: seq<Stub>, k: nat)
    requires DistinctStubs(list) && k < |list|
    ensures FindIndex(list, list[k].id) == k
  {
  }

  lemma PrefixDistinct(rows: Table, n: nat)
    requires Distinct(rows) && n <= |rows|
    ensures DistinctStubs(Stubs(rows[..n]))
  {
  }

  // A new session keeps the list a prefix exactly when it is the newest.
  lemma MergeOrderIff(v: Table, n: nat, row: Session, p: nat)
    requires Distinct(v) && 1 <= n <= |v| && p <= |v| && !HasId(v, row.id)
    ensures IsPrefixOf(MergeSession(Stubs(v[..n]), StubOf(row)), Insert(v, p, row)) <==> p == 0
  {
    var list := Stubs(v[..n]);
    forall i | 0 <= i < |list| ensures list[i].id != row.id { assert v[i].id != row.id; }
    var list', v' := MergeSession(list, StubOf(row)), Insert(v, p, row);
    assert list' == [StubOf(row)] + list;
    if p == 0 {
      assert list' == Stubs(v'[..n + 1]);
    } else {
      assert v'[0] == v[0] && v[0].id != row.id;
      assert list'[0].id != Stubs(v'[..|list'|])[0].id;
    }
  }

  lemma NotInView(q: Query, db: Table, id: string)
    requires !HasId(db, id)
    ensures !HasId(View(db, q), id)
  {
    var v := View(db, q);
    forall i | 0 <= i < |v| ensures v[i].id != id {
      assert v[i] in v;
      var k :| 0 <= k < |db| && db[k] == v[i];
    }
  }

  // A stored session, announced, keeps the list a prefix of what the query selects exactly when
  // it is of another configuration, or matches and is the newest of those that do.
  lemma StartOrderIff(q: Query, db: Table, n: nat, row: Session, p: nat)
    requires Distinct(db) && p <= |db| && !HasId(db, row.id) && n <= |View(db, q)| && (n == 0 ==> View(db, q) == [])
    ensures IsPrefixOf(Receive(q.configId, Stubs(View(db, q)[..n]), NewSession(StubOf(row))), View(Insert(db, p, row), q))
        <==> (row.configId == q.configId ==> Matches(q, row) && View(db[..p], q) == [])
  {
    NotInView(q, db, row.id);
    ViewInsert(db, p, row, q);
    var a, b := View(db[..p], q), View(db[p..], q);
    if Matches(q, row) {
      FilterDistinct(db, Matching(q));
      AnnouncedAmong(a, b, n, row);
    } else {
      assert a + [] + b == a + b;
      if row.configId == q.configId { OutsideIsShown(a + b, n, row); }
    }
  }

  lemma AnnouncedAmong(a: Table, b: Table, n: nat, row: Session)
    requires Distinct(a + b) && !HasId(a + b, row.id) && n <= |a + b| && (n == 0 ==> a + b == [])
    ensures IsPrefixOf(MergeSession(Stubs((a + b)[..n]), StubOf(row)), a + [row] + b) <==> a == []
  {
    InsertedBetween(a, b, row);
    if n == 0 {
      assert MergeSession([], StubOf(row)) == Stubs([row][..1]);
    } else {
      MergeOrderIff(a + b, n, row, |a|);
    }
  }

  lemma InsertedBetween(a: Table, b: Table, row: Session)
    ensures a + [row] + b == Insert(a + b, |a|, row)
  {
  }

  // A session that the query does not select is shown all the same.
  lemma OutsideIsShown(v: Table, n: nat, row: Session)
    requires n <= |v| && (n == 0 ==> v == []) && !HasId(v, row.id)
    ensures !IsPrefixOf(MergeSession(Stubs(v[..n]), StubOf(row)), v)
  {
    var list := Stubs(v[..n]);
    forall i | 0 <= i < |list| ensures list[i].id != row.id { assert v[i].id != row.id; }
    var list' := MergeSession(list, StubOf(row));
    assert list'[0].id == row.id;
    if |list'| <= |v| {
      assert Stubs(v[..|list'|])[0].id == v[0].id && v[0].id == list[0].id;
    }
  }

  // A finished session keeps the list a prefix exactly when the list has it.
  lemma FinishOrderIff(v: Table, n: nat, k: nat, row: Session)
    requires Distinct(v) && 1 <= n <= |v| && k < |v| && row.id == v[k].id
    ensures IsPrefixOf(MergeSession(Stubs(v[..n]), StubOf(row)), Replace(v, row)) <==> k < n
  {
    var list, v' := Stubs(v[..n]), Replace(v, row);
    PrefixDistinct(v, n);
    var list' := MergeSession(list, StubOf(row));
    if k < n {
      StubIndex(list, k);
      assert list' == Stubs(v'[..n]);
    } else {
      forall i | 0 <= i < n ensures list[i].id != row.id { assert v[i].id != v[k].id; }
      assert list'[0].id == row.id && v'[0].id == v[0].id;
      if |list'| <= |v'| { assert Stubs(v'[..|list'|])[0].id == v[0].id; }
    }
  }

  // ---------- Steps ----------

  lemma {:induction false} ReceiveSnoc(configId: string, list: seq<Stub>, inbox: seq<Notification>, n: Notification)
    ensures ReceiveAll(configId, list, inbox + [n]) == Receive(configId, ReceiveAll(configId, list, inbox), n)
    decreases |inbox|
  {
    if inbox == [] {
      assert [n][1..] == [];
    } else {
      assert (inbox + [n])[1..] == inbox[1..] + [n];
      ReceiveSnoc(configId, Receive(configId, list, inbox[0]), inbox[1..], n);
    }
  }

  lemma PrependOk(list: seq<Stub>, v: Table, merged: nat, row: Session)
    requires ListOk(list, v, merged) && !HasStub(list, row.id)
    ensures ListOk(MergeSession(list, StubOf(row)), [row] + v, merged)
  {
    assert MergeSession(list, StubOf(row)) == Stubs(([row] + v)[..|list| + 1]);
  }

  lemma PendingSnoc(s: System, n: Notification, s': System)
    requires s'.inbox == s.inbox && s'.outbox == s.outbox + [n]
    ensures Pending(s') == Pending(s) + [n]
  {
  }

  // A stored row and its announcement.
  lemma AnnounceKeepsFaithful(q: Query, db: Table, pending: seq<Notification>, row: Session, db': Table)
    requires Faithful(q, db, pending) && !Condemned(pending, row.id)
    requires forall x :: x in db' ==> x == row || (x in db && x.id != row.id)
    ensures Faithful(q, db', pending + [NewSession(StubOf(row))])
  {
    forall x | x in db'
      ensures !Condemned(pending + [NewSession(StubOf(row))], x.id)
      ensures Matches(q, x) ==> Latest(q.configId, x.id, pending + [NewSession(StubOf(row))]) in {None, Some(StubOf(x))}
    {
      AppendedNews(pending, StubOf(row), x.id);
      LatestSnoc(q.configId, x.id, pending, NewSession(StubOf(row)));
    }
  }

  // The newest of those that match is the first of them.
  lemma InsertedInView(q: Query, db: Table, row: Session, p: nat)
    requires p <= |db| && (row.configId == q.configId ==> Matches(q, row) && View(db[..p], q) == [])
    ensures View(Insert(db, p, row), q) == if row.configId == q.configId then [row] + View(db, q) else View(db, q)
  {
    ViewInsert(db, p, row, q);
    if row.configId == q.configId {
      assert [] + [row] == [row] && [] + View(db[p..], q) == View(db[p..], q);
    }
  }

  lemma NotShownYet(list: seq<Stub>, v: Table, merged: nat, id: string)
    requires ListOk(list, v, merged) && !HasId(v, id)
    ensures !HasStub(list, id)
  {
    forall i | 0 <= i < |list| ensures list[i].id != id { assert list[i].id == v[i].id; }
  }

  lemma StoreKeepsList(q: Query, s: System, row: Session, p: nat)
    requires s.merged > 0 && ListOk(Shown(q, s), View(s.db, q), s.merged) && !HasId(s.db, row.id)
    requires p <= |s.db| && StoredInOrder(q, s, row, p)
    ensures ListOk(Receive(q.configId, Shown(q, s), NewSession(StubOf(row))), View(Insert(s.db, p, row), q), s.merged)
  {
    InsertedInView(q, s.db, row, p);
    if row.configId == q.configId {
      NotInView(q, s.db, row.id);
      NotShownYet(Shown(q, s), View(s.db, q), s.merged, row.id);
      PrependOk(Shown(q, s), View(s.db, q), s.merged, row);
    }
  }

  lemma InsertedRows(db: Table, p: nat, row: Session, x: Session)
    requires p <= |db| && x in Insert(db, p, row)
    ensures x == row || x in db
  {
  }

  // s' is s with the row stored at p and its announcement still to be published.
  ghost predicate Stores(s: System, row: Session, p: nat, s': System) {
    && p <= |s.db| && !HasId(s.db, row.id) && s'.db == Insert(s.db, p, row)
    && s'.selected == s.selected && s'.inbox == s.inbox && s'.outbox == s.outbox + [NewSession(StubOf(row))]
    && s'.ui == s.ui && s'.merged == s.merged
  }

  lemma StoreKeepsGrounded(q: Query, s: System, row: Session, p: nat, s': System)
    requires Grounded(q, s) && Stores(s, row, p, s') && OpenOk(s'.db, s'.open)
    requires AheadOfSelected(s, p) && !Condemned(Pending(s), row.id)
    ensures Grounded(q, s')
  {
    PendingSnoc(s, NewSession(StubOf(row)), s');
    SaveDistinct(s.db, p, row);
    InsertTail(s, row, p);
    InsertKeepsIds(s.db, p, row, s.selected);
    forall x | x in s'.db ensures x == row || (x in s.db && x.id != row.id) { InsertedRows(s.db, p, row, x); }
    AnnounceKeepsFaithful(q, s.db, Pending(s), row, s'.db);
  }

  lemma StoreKeepsOrder(q: Query, s: System, row: Session, p: nat, s': System)
    requires Ordered(q, s) && Stores(s, row, p, s') && OpenOk(s'.db, s'.open) && StoredInOrder(q, s, row, p)
    ensures Ordered(q, s')
  {
    StoreKeepsGrounded(q, s, row, p, s');
    if s.merged > 0 {
      PendingSnoc(s, NewSession(StubOf(row)), s');
      ReceiveSnoc(q.configId, s.ui.list, Pending(s), NewSession(StubOf(row)));
      StoreKeepsList(q, s, row, p);
    }
  }

  lemma InsertKeepsOpen(db: Table, open: map<string, Session>, p: nat, row: Session)
    requires OpenOk(db, open) && p <= |db| && !HasId(db, row.id)
    ensures OpenOk(Insert(db, p, row), open[row.id := row]) && OpenOk(Insert(db, p, row), open - {row.id})
  {
    forall i: nat | i <= |db| && i != p ensures Insert(db, p, row)[i] in db { InsertedAt(db, p, row, i); }
  }

  lemma StartKeepsOrder(q: Query, s: System, row: Session, p: nat)
    requires Ordered(q, s) && CanStep(s, Start(row, p)) && InOrder(q, s, Start(row, p))
    ensures Ordered(q, Next(q, s, Start(row, p)))
  {
    InsertKeepsOpen(s.db, s.open, p, row);
    StoreKeepsOrder(q, s, row, p, Next(q, s, Start(row, p)));
  }

  lemma ReplaceOk(list: seq<Stub>, v: Table, merged: nat, row: Session)
    requires ListOk(list, v, merged) && HasStub(list, row.id) && Distinct(v)
    ensures ListOk(MergeSession(list, StubOf(row)), Replace(v, row), merged)
  {
    var k :| 0 <= k < |list| && list[k].id == row.id;
    assert v[k].id == row.id;
    FinishOrderIff(v, |list|, k, row);
    PrefixDistinct(v, |list|);
    StubIndex(list, k);
  }

  lemma ReplaceElsewhere(v: Table, row: Session)
    requires !HasId(v, row.id)
    ensures Replace(v, row) == v
  {
  }

  lemma FinishKeepsList(q: Query, s: System, row: Session)
    requires Distinct(s.db) && ListOk(Shown(q, s), View(s.db, q), s.merged)
    requires forall i :: 0 <= i < |s.db| && s.db[i].id == row.id ==>
      s.db[i].configId == row.configId && s.db[i].timestamp == row.timestamp
    requires row.configId == q.configId ==> HasStub(Shown(q, s), row.id)
    ensures ListOk(Receive(q.configId, Shown(q, s), NewSession(StubOf(row))), View(Replace(s.db, row), q), s.merged)
  {
    var v, list := View(s.db, q), Shown(q, s);
    ViewReplace(s.db, row, q);
    FilterDistinct(s.db, Matching(q));
    if row.configId == q.configId {
      ReplaceOk(list, v, s.merged, row);
    } else {
      forall i | 0 <= i < |v| ensures v[i].id != row.id {
        assert v[i] in v;
        var k :| 0 <= k < |s.db| && s.db[k] == v[i];
      }
      ReplaceElsewhere(v, row);
    }
  }

  lemma ReplacedRow(db: Table, row: Session, x: Session)
    requires x in Replace(db, row)
    ensures x == row || (x in db && x.id != row.id)
  {
    var db' := Replace(db, row);
    var i :| 0 <= i < |db'| && db'[i] == x;
  }

  lemma FinishKeepsFaithful(q: Query, db: Table, pending: seq<Notification>, row: Session)
    requires Faithful(q, db, pending) && HasId(db, row.id)
    ensures Faithful(q, Replace(db, row), pending + [NewSession(StubOf(row))])
  {
    var k :| 0 <= k < |db| && db[k].id == row.id;
    assert db[k] in db;
    forall x | x in Replace(db, row) ensures x == row || (x in db && x.id != row.id) {
      ReplacedRow(db, row, x);
    }
    AnnounceKeepsFaithful(q, db, pending, row, Replace(db, row));
  }

  lemma ReplaceKeepsRows(db: Table, open: map<string, Session>, id: string, row: Session)
    requires Distinct(db) && OpenOk(db, open) && row.id == id
    ensures Distinct(Replace(db, row)) && OpenOk(Replace(db, row), open - {id})
  {
    assert forall i :: 0 <= i < |db| ==> Replace(db, row)[i].id == db[i].id;
  }

  lemma FinishKeepsGrounded(q: Query, s: System, id: string, r: Response, p: nat)
    requires Grounded(q, s) && CanStep(s, Finish(id, r, p)) && HasId(s.db, id)
    ensures Grounded(q, Next(q, s, Finish(id, r, p)))
  {
    var s', row := Next(q, s, Finish(id, r, p)), Finished(s.open[id], r);
    PendingSnoc(s, NewSession(StubOf(row)), s');
    ReplaceTail(s.db, s.selected, row);
    ReplaceKeepsIds(s.db, row, s.selected);
    ReplaceKeepsRows(s.db, s.open, id, row);
    FinishKeepsFaithful(q, s.db, Pending(s), row);
  }

  lemma FinishKeepsOrder(q: Query, s: System, id: string, r: Response, p: nat)
    requires Ordered(q, s) && CanStep(s, Finish(id, r, p)) && InOrder(q, s, Finish(id, r, p)) && HasId(s.db, id)
    ensures Ordered(q, Next(q, s, Finish(id, r, p)))
  {
    var row := Finished(s.open[id], r);
    FinishKeepsGrounded(q, s, id, r, p);
    if s.merged > 0 {
      PendingSnoc(s, NewSession(StubOf(row)), Next(q, s, Finish(id, r, p)));
      ReceiveSnoc(q.configId, s.ui.list, Pending(s), NewSession(StubOf(row)));
      FinishKeepsList(q, s, row);
    }
  }

  // A session that was reaped while it was open is stored again.
  lemma FinishStoresAgain(q: Query, s: System, id: string, r: Response, p: nat)
    requires Ordered(q, s) && CanStep(s, Finish(id, r, p)) && InOrder(q, s, Finish(id, r, p)) && !HasId(s.db, id)
    ensures Ordered(q, Next(q, s, Finish(id, r, p)))
  {
    var row := Finished(s.open[id], r);
    InsertKeepsOpen(s.db, s.open, p, row);
    StoreKeepsOrder(q, s, row, p, Next(q, s, Finish(id, r, p)));
  }

  lemma CutList(list: seq<Stub>, v: Table, a: nat, selected: set<string>)
    requires IsPrefixOf(list, v) && TailAt(v, selected, a)
    ensures Filter(list, StubNotIn(selected)) == Stubs(v[..Min(|list|, a)])
  {
    var k := Min(|list|, a);
    forall i | 0 <= i < |list| ensures StubNotIn(selected)(list[i]) <==> i < k {
      assert list[i].id == v[i].id;
    }
    FilterCut(list, StubNotIn(selected), k);
    ShorterPrefix(v, |list|, k);
  }

  lemma ShorterPrefix(v: Table, n: nat, k: nat)
    requires k <= n <= |v|
    ensures Stubs(v[..n])[..k] == Stubs(v[..k])
  {
  }

  lemma DeletedStubs(list: seq<Stub>, v: Table, a: nat, selected: set<string>, merged: nat)
    requires ListOk(list, v, merged) && TailAt(v, selected, a)
    ensures ListOk(Filter(list, StubNotIn(selected)), Delete(v, selected), merged)
  {
    CutList(list, v, a, selected);
    FilterCut(v, NotIn(selected), a);
    assert v[..a][..Min(|list|, a)] == v[..Min(|list|, a)];
  }

  lemma InView(q: Query, part: Table, i: nat) returns (k: nat)
    requires i < |View(part, q)|
    ensures k < |part| && part[k] == View(part, q)[i]
  {
    assert View(part, q)[i] in View(part, q);
    k :| 0 <= k < |part| && part[k] == View(part, q)[i];
  }

  // A tail of the table is a tail of the view.
  lemma ViewTail(q: Query, db: Table, selected: set<string>, m: nat)
    requires TailAt(db, selected, m)
    ensures TailAt(View(db, q), selected, |View(db[..m], q)|)
  {
    assert db == db[..m] + db[m..];
    FilterConcat(db[..m], db[m..], Matching(q));
    var v, head, rest := View(db, q), View(db[..m], q), View(db[m..], q);
    forall i | 0 <= i < |head| ensures head[i].id !in selected {
      var k := InView(q, db[..m], i);
      assert db[k].id == head[i].id;
    }
    forall i | 0 <= i < |rest| ensures rest[i].id in selected {
      var k := InView(q, db[m..], i);
      assert db[m + k].id == rest[i].id;
    }
    TailOfParts(head, rest, selected);
  }

  lemma TailOfParts(head: Table, rest: Table, selected: set<string>)
    requires forall i :: 0 <= i < |head| ==> head[i].id !in selected
    requires forall i :: 0 <= i < |rest| ==> rest[i].id in selected
    ensures TailAt(head + rest, selected, |head|)
  {
  }

  lemma DeleteKeepsList(q: Query, s: System)
    requires ListOk(Shown(q, s), View(s.db, q), s.merged) && SelectedIsTail(s)
    ensures ListOk(Receive(q.configId, Shown(q, s), DeleteSession(s.selected)), View(Delete(s.db, s.selected), q), s.merged)
  {
    var m: int :| TailAt(s.db, s.selected, m);
    ViewTail(q, s.db, s.selected, m);
    DeletedStubs(Shown(q, s), View(s.db, q), |View(s.db[..m], q)|, s.selected, s.merged);
    ViewDelete(s.db, s.selected, q);
  }

  lemma DeleteKeepsFaithful(q: Query, s: System)
    requires Faithful(q, s.db, Pending(s))
    ensures Faithful(q, Delete(s.db, s.selected), Pending(s) + [DeleteSession(s.selected)])
  {
    forall x | x in Delete(s.db, s.selected)
      ensures !Condemned(Pending(s) + [DeleteSession(s.selected)], x.id)
      ensures Matches(q, x) ==>
        Latest(q.configId, x.id, Pending(s) + [DeleteSession(s.selected)]) in {None, Some(StubOf(x))}
    {
      assert x in s.db;
      LatestSnoc(q.configId, x.id, Pending(s), DeleteSession(s.selected));
    }
  }

  lemma DeleteKeepsOrder(q: Query, s: System)
    requires Ordered(q, s)
    ensures Ordered(q, Next(q, s, ReapDelete))
  {
    var s' := Next(q, s, ReapDelete);
    if s.selected != {} {
      PendingSnoc(s, DeleteSession(s.selected), s');
      if s.merged > 0 {
        ReceiveSnoc(q.configId, s.ui.list, Pending(s), DeleteSession(s.selected));
        DeleteKeepsList(q, s);
      }
      DeleteKeepsFaithful(q, s);
      FilterDistinct(s.db, NotIn(s.selected));
      DeleteKeepsOpen(s.db, s.selected, s.open);
      assert TailAt(s'.db, s'.selected, |s'.db|);
    }
  }

  lemma SelectKeepsOrder(q: Query, s: System, k: nat)
    requires Ordered(q, s) && s.selected == {}
    ensures Ordered(q, Next(q, s, ReapSelect(k)))
  {
    SelectIsTail(s, k);
    forall id | id in IdsOf(Oldest(s.db, k)) ensures HasId(s.db, id) { OldestIds(s.db, k, id); }
  }

  // ---------- Publishing ----------

  lemma OutboxParts(s: System, k: nat, s': System)
    requires k < |s.outbox| && s'.inbox == s.inbox + [s.outbox[k]] && s'.outbox == s.outbox[..k] + s.outbox[k + 1..]
    ensures Pending(s) == InOrderOf(s.inbox, s.outbox[..k], s.outbox[k], s.outbox[k + 1..])
    ensures Pending(s') == AheadOf(s.inbox, s.outbox[..k], s.outbox[k], s.outbox[k + 1..])
  {
    assert s.outbox == s.outbox[..k] + ([s.outbox[k]] + s.outbox[k + 1..]);
  }

  lemma UpToDateIsCurrent(q: Query, db: Table, pending: seq<Notification>)
    ensures UpToDate(q, db, pending) <==> Current(q.configId, View(db, q), pending)
  {
    var v := View(db, q);
    if UpToDate(q, db, pending) {
      forall i | 0 <= i < |v| ensures Latest(q.configId, v[i].id, pending) in {None, Some(StubOf(v[i]))} { assert v[i] in v; }
    }
    if Current(q.configId, v, pending) {
      forall x | x in db && Matches(q, x) ensures Latest(q.configId, x.id, pending) in {None, Some(StubOf(x))} {
        assert x in v;
        var i :| 0 <= i < |v| && v[i] == x;
      }
    }
  }

  lemma ThreatNamesStored(q: Query, db: Table, pending: seq<Notification>)
    requires NoneThreatened(db, pending)
    ensures Unnamed(IdsOf(View(db, q)), pending)
  {
    forall n | n in pending && n.DeleteSession? ensures n.ids !! IdsOf(View(db, q)) {
      forall id | id in IdsOf(View(db, q)) ensures id !in n.ids {
        var v := View(db, q);
        var i :| 0 <= i < |v| && v[i].id == id;
        assert v[i] in v && v[i] in db && !Condemned(pending, id);
      }
    }
  }

  lemma SameThreats(db: Table, pending: seq<Notification>, pending': seq<Notification>)
    requires NoneThreatened(db, pending) && forall n :: n in pending' ==> n in pending
    ensures NoneThreatened(db, pending')
  {
    forall x | x in db ensures !Condemned(pending', x.id) { assert !Condemned(pending, x.id); }
  }

  // Publishing any notification, first or not, keeps the order exactly when it is in turn.
  lemma PublishOrderIff(q: Query, s: System, k: nat)
    requires Ordered(q, s) && k < |s.outbox|
    ensures Ordered(q, Next(q, s, Publish(k))) <==> PublishedInTurn(q, s, k)
    ensures PublishedInTurn(q, s, k) && s.merged > 0 ==> Shown(q, Next(q, s, Publish(k))) == Shown(q, s)
  {
    var s', v := Next(q, s, Publish(k)), View(s.db, q);
    var earlier, n, later := s.outbox[..k], s.outbox[k], s.outbox[k + 1..];
    OutboxParts(s, k, s');
    SameTail(s, s');
    SameThreats(s.db, Pending(s), Pending(s'));
    UpToDateIsCurrent(q, s.db, Pending(s));
    UpToDateIsCurrent(q, s.db, Pending(s'));
    FilterDistinct(s.db, Matching(q));
    if s.merged > 0 {
      ThreatNamesStored(q, s.db, Pending(s));
      AheadIff(q.configId, s.ui.list, v, s.inbox, earlier, n, later);
    } else {
      CurrentIff(q.configId, v, s.inbox, earlier, n, later);
    }
  }

  // In the order of the changes every publication is in turn.
  lemma FirstIsInTurn(q: Query, s: System)
    requires s.outbox != []
    ensures PublishedInTurn(q, s, 0)
  {
    assert s.outbox[..0] == [];
  }

  lemma SameTail(s: System, s': System)
    requires SelectedIsTail(s) && s'.db == s.db && s'.selected == s.selected
    ensures SelectedIsTail(s')
  {
    var m :| TailAt(s.db, s.selected, m);
    assert TailAt(s'.db, s'.selected, m);
  }

  lemma ArriveKeepsOrder(q: Query, s: System)
    requires Ordered(q, s) && s.inbox != []
    ensures Ordered(q, Next(q, s, Arrive))
  {
    var s' := Next(q, s, Arrive);
    assert Pending(s)[0] == s.inbox[0] && Pending(s)[1..] == Pending(s');
    forall x | x in s.db
      ensures !Condemned(Pending(s'), x.id)
      ensures Matches(q, x) ==> Latest(q.configId, x.id, Pending(s')) in {None, Some(StubOf(x))}
    {
      assert !Condemned(Pending(s), x.id);
      assert forall n :: n in Pending(s') ==> n in Pending(s);
    }
    SameTail(s, s');
    ReceiveDistinct(q.configId, s.ui.list, s.inbox[0]);
  }

  // Appending the page at `offset` to a prefix that reaches it gives a longer prefix.
  lemma AppendPage(v: Table, n: nat, offset: nat)
    requires Distinct(v) && Min(offset, |v|) <= n <= |v| && offset > 0
    ensures ListOk(MergePage(Stubs(v[..n]), Stubs(Page(v, offset, LIMIT)), offset), v, offset + LIMIT)
  {
    var rows := Page(v, offset, LIMIT);
    if offset > |v| {
      assert rows == [];
      EmptyPage(Stubs(v[..n]), offset);
      PrefixOk(v, n, offset + LIMIT);
    } else {
      PageIsSlice(v, offset, LIMIT);
      AppendRows(v, n, offset, rows, offset + LIMIT);
    }
  }

  lemma AppendRows(v: Table, n: nat, lo: nat, rows: Table, merged: nat)
    requires Distinct(v) && 0 < lo <= n <= |v| && lo + |rows| <= |v| && rows == v[lo..lo + |rows|]
    requires Min(merged, |v|) <= lo + |rows|
    ensures ListOk(MergePage(Stubs(v[..n]), Stubs(rows), lo), v, merged)
  {
    var hi := lo + |rows|;
    var m := if n <= hi then hi else n;
    AppendSlice(v, n, lo, hi);
    assert MergePage(Stubs(v[..n]), Stubs(rows), lo) == Stubs(v[..m]);
    PrefixOk(v, m, merged);
  }

  lemma EmptyPage(list: seq<Stub>, offset: nat)
    requires offset > 0
    ensures MergePage(list, Stubs([]), offset) == list
  {
    assert Filter([], NotShown(list)) == [];
  }

  lemma AppendSlice(v: Table, n: nat, lo: nat, hi: nat)
    requires Distinct(v) && 0 < lo <= n <= |v| && lo <= hi <= |v|
    ensures MergePage(Stubs(v[..n]), Stubs(v[lo..hi]), lo) == Stubs(v[..if n <= hi then hi else n])
  {
    var m := if n <= hi then hi else n;
    assert v[0..n] == v[..n] && v[0..m] == v[..m];
    AppendFrom(v, 0, n, lo, hi);
  }

  lemma PrefixOk(v: Table, m: nat, merged: nat)
    requires Min(merged, |v|) <= m <= |v|
    ensures ListOk(Stubs(v[..m]), v, merged)
  {
  }

  // ---------- Merging a page while notifications are in flight ----------

  ghost predicate Spares(n: Notification, rows: seq<Stub>) {
    match n
    case NewSession(s) => !HasStub(rows, s.id)
    case DeleteSession(ids) => forall x :: x in rows ==> x.id !in ids
  }

  lemma FindInFront(list: seq<Stub>, more: seq<Stub>, id: string)
    requires !HasStub(more, id)
    ensures FindIndex(list + more, id) == FindIndex(list, id)
  {
    var k := FindIndex(list, id);
    if k >= 0 {
      assert (list + more)[k].id == id;
    }
    assert forall i :: |list| <= i < |list + more| ==> (list + more)[i] == more[i - |list|];
  }

  lemma ReceiveAppended(configId: string, list: seq<Stub>, more: seq<Stub>, n: Notification)
    requires Spares(n, more)
    ensures Receive(configId, list + more, n) == Receive(configId, list, n) + more
  {
    match n
    case NewSession(s) =>
      FindInFront(list, more, s.id);
      assert [s] + (list + more) == [s] + list + more;
    case DeleteSession(ids) =>
      FilterConcat(list, more, StubNotIn(ids));
      FilterAll(more, StubNotIn(ids));
  }

  lemma {:induction false} ReceiveAllAppended(configId: string, list: seq<Stub>, more: seq<Stub>, inbox: seq<Notification>)
    requires forall n :: n in inbox ==> Spares(n, more)
    ensures ReceiveAll(configId, list + more, inbox) == ReceiveAll(configId, list, inbox) + more
    decreases |inbox|
  {
    if inbox != [] {
      assert inbox[0] in inbox && Spares(inbox[0], more);
      ReceiveAppended(configId, list, more, inbox[0]);
      ReceiveAllAppended(configId, Receive(configId, list, inbox[0]), more, inbox[1..]);
    }
  }

  ghost predicate Leaves(n: Notification, id: string, shown: bool) {
    match n
    case NewSession(s) => s.id == id ==> shown
    case DeleteSession(ids) => id !in ids
  }

  lemma {:induction false} PresentStays(configId: string, id: string, inbox: seq<Notification>, shown: bool)
    requires forall n :: n in inbox ==> Leaves(n, id, shown)
    ensures Present(configId, id, inbox, shown) == shown
    decreases |inbox|
  {
    if inbox != [] {
      assert inbox[0] in inbox && Leaves(inbox[0], id, shown);
      PresentStays(configId, id, inbox[1..], shown);
    }
  }

  lemma {:induction false} SameNews(page: seq<Stub>, p: Stub -> bool, q: Stub -> bool)
    requires forall x :: x in page ==> p(x) == q(x)
    ensures Filter(page, p) == Filter(page, q)
  {
    if page != [] {
      SameNews(page[1..], p, q);
    }
  }

  lemma NotAmongNews(list: seq<Stub>, page: seq<Stub>, id: string)
    requires HasStub(page, id) ==> HasStub(list, id)
    ensures !HasStub(Filter(page, NotShown(list)), id)
  {
    FilteredStub(page, NotShown(list), id);
    if !HasStub(page, id) {
      assert forall x :: x in page ==> x.id != id;
    }
  }

  // Receiving then merging is merging then receiving.
  lemma QuietMerge(configId: string, list: seq<Stub>, inbox: seq<Notification>, page: seq<Stub>, offset: nat)
    requires offset > 0 && LaterPageQuiet(list, inbox, page) && Spared(page, inbox)
    ensures ReceiveAll(configId, MergePage(list, page, offset), inbox)
         == MergePage(ReceiveAll(configId, list, inbox), page, offset)
  {
    var more, shown := Filter(page, NotShown(list)), ReceiveAll(configId, list, inbox);
    forall n | n in inbox ensures Spares(n, more) {
      if n.NewSession? {
        NotAmongNews(list, page, n.stub.id);
      }
    }
    ReceiveAllAppended(configId, list, more, inbox);
    forall x | x in page ensures NotShown(list)(x) == NotShown(shown)(x) {
      assert HasStub(page, x.id);
      PresentReceive(configId, list, inbox, x.id);
      forall n | n in inbox ensures Leaves(n, x.id, HasStub(list, x.id)) {}
      PresentStays(configId, x.id, inbox, HasStub(list, x.id));
    }
    SameNews(page, NotShown(list), NotShown(shown));
  }

  // The announcements of the rows, oldest first.
  function News(rows: Table): seq<Notification>
    decreases |rows|
  {
    if rows == [] then [] else News(rows[1..]) + [NewSession(StubOf(rows[0]))]
  }

  lemma NewestInFront(v: Table, m: nat)
    requires Distinct(v) && 1 <= m <= |v|
    ensures MergeSession(Stubs(v[1..][..m - 1]), StubOf(v[0])) == Stubs(v[..m])
  {
    var list := Stubs(v[1..][..m - 1]);
    forall i | 0 <= i < |list| ensures list[i].id != v[0].id { assert list[i].id == v[i + 1].id; }
    assert [StubOf(v[0])] + list == Stubs(v[..m]);
  }

  lemma ShiftedSlice(v: Table, k: nat, m: nat)
    requires 1 <= k <= m <= |v|
    ensures v[1..][k - 1..m - 1] == v[k..m]
  {
  }

  lemma NewsSnoc(v: Table, k: nat)
    requires 1 <= k <= |v|
    ensures News(v[..k]) == News(v[1..][..k - 1]) + [NewSession(StubOf(v[0]))]
  {
    assert v[..k][1..] == v[1..][..k - 1];
  }

  lemma {:induction false} NewsPrepended(configId: string, v: Table, k: nat, m: nat)
    requires Distinct(v) && k <= m <= |v| && forall i :: 0 <= i < k ==> v[i].configId == configId
    ensures ReceiveAll(configId, Stubs(v[k..m]), News(v[..k])) == Stubs(v[..m])
    decreases k
  {
    if k == 0 {
      assert v[0..m] == v[..m];
    } else {
      var u := v[1..];
      NewsPrepended(configId, u, k - 1, m - 1);
      ShiftedSlice(v, k, m);
      NewsSnoc(v, k);
      ReceiveSnoc(configId, Stubs(v[k..m]), News(u[..k - 1]), NewSession(StubOf(v[0])));
      NewestInFront(v, m);
    }
  }

  ghost predicate Behind(list: seq<Stub>, a: string, b: string) {
    exists i, j :: 0 <= i < j < |list| && list[i].id == a && list[j].id == b
  }

  lemma MergedBehind(list: seq<Stub>, s: Stub, a: string, b: string)
    requires Behind(list, a, b)
    ensures Behind(MergeSession(list, s), a, b)
  {
    var i, j :| 0 <= i < j < |list| && list[i].id == a && list[j].id == b;
    var list' := MergeSession(list, s);
    var d := if FindIndex(list, s.id) > -1 then 0 else 1;
    assert list'[i + d].id == a && list'[j + d].id == b;
  }

  lemma {:induction false} StaysBehind(configId: string, list: seq<Stub>, inbox: seq<Notification>, a: string, b: string)
    requires Behind(list, a, b) && forall n :: n in inbox ==> n.NewSession?
    ensures Behind(ReceiveAll(configId, list, inbox), a, b)
    decreases |inbox|
  {
    if inbox != [] {
      assert inbox[0] in inbox;
      MergedBehind(list, inbox[0].stub, a, b);
      StaysBehind(configId, Receive(configId, list, inbox[0]), inbox[1..], a, b);
    }
  }

  // With the k newest sessions still to be announced, merging the page lo..hi behind them keeps
  // the order exactly when none of them is on that page; merging the first page exactly when
  // all of them are.
  lemma FetchOrderIff(configId: string, v: Table, k: nat, n: nat, lo: nat, hi: nat)
    requires Distinct(v) && k < n <= |v| && lo <= n && lo < hi <= |v|
    requires forall i :: 0 <= i < k ==> v[i].configId == configId
    ensures IsPrefixOf(ReceiveAll(configId, MergePage(Stubs(v[k..n]), Stubs(v[lo..hi]), lo), News(v[..k])), v)
        <==> if lo == 0 then k <= hi else k <= lo
  {
    if lo == 0 {
      assert v[0..hi] == v[..hi];
      FirstFetchOrderIff(configId, v, k, hi);
    } else {
      LaterFetchOrderIff(configId, v, k, n, lo, hi);
    }
  }

  lemma FirstFetchOrderIff(configId: string, v: Table, k: nat, hi: nat)
    requires Distinct(v) && k <= |v| && 0 < hi <= |v|
    requires forall i :: 0 <= i < k ==> v[i].configId == configId
    ensures IsPrefixOf(ReceiveAll(configId, Stubs(v[..hi]), News(v[..k])), v) <==> k <= hi
  {
    var page, pending := Stubs(v[..hi]), News(v[..k]);
    NewsOf(v[..k]);
    forall i | 0 <= i < hi ensures Latest(configId, v[i].id, pending) in {None, Some(StubOf(v[i]))} {
      LatestIsNews(configId, v[i].id, pending);
    }
    FirstPageOrderIff(configId, v, hi, pending);
    if k > hi {
      var n := NewSession(StubOf(v[hi]));
      assert v[..k][hi] == v[hi] && n in pending;
      PresentOfNews(configId, v[hi].id, pending);
      assert !HasStub(page, v[hi].id);
    } else {
      forall n | n in pending ensures HasStub(page, n.stub.id) {
        var i :| 0 <= i < k && n == NewSession(StubOf(v[i]));
        assert page[i].id == n.stub.id;
      }
    }
  }

  lemma {:induction false} NewsOf(rows: Table)
    ensures forall n :: n in News(rows) ==> exists i :: 0 <= i < |rows| && n == NewSession(StubOf(rows[i]))
    ensures forall i :: 0 <= i < |rows| ==> NewSession(StubOf(rows[i])) in News(rows)
    decreases |rows|
  {
    if rows != [] {
      NewsOf(rows[1..]);
      var front, last := News(rows[1..]), NewSession(StubOf(rows[0]));
      assert front + [last] == News(rows) && (front + [last])[|front|] == last;
      forall i | 0 <= i < |rows| ensures NewSession(StubOf(rows[i])) in News(rows) {
        if i > 0 { assert rows[1..][i - 1] == rows[i]; }
      }
      forall n | n in front ensures exists i :: 0 <= i < |rows| && n == NewSession(StubOf(rows[i])) {
        var i :| 0 <= i < |rows[1..]| && n == NewSession(StubOf(rows[1..][i]));
        assert n == NewSession(StubOf(rows[i + 1]));
      }
    }
  }

  lemma {:induction false} PresentOfNews(configId: string, id: string, pending: seq<Notification>)
    requires forall n :: n in pending ==> n.NewSession?
    requires exists n :: n in pending && IsNews(n, configId, id)
    ensures Present(configId, id, pending, false)
    decreases |pending|
  {
    var n :| n in pending && IsNews(n, configId, id);
    assert pending[0] in pending;
    if IsNews(pending[0], configId, id) {
      PresentStaysTrue(configId, id, pending[1..]);
    } else {
      assert n in pending[1..];
      PresentOfNews(configId, id, pending[1..]);
    }
  }

  lemma {:induction false} PresentStaysTrue(configId: string, id: string, pending: seq<Notification>)
    requires forall n :: n in pending ==> n.NewSession?
    ensures Present(configId, id, pending, true)
    decreases |pending|
  {
    if pending != [] {
      assert pending[0] in pending;
      PresentStaysTrue(configId, id, pending[1..]);
    }
  }

  // With the k newest sessions still to be announced, one that is published ahead of the earlier
  // ones keeps the order exactly when there are none.
  lemma NewsTurnIff(configId: string, v: Table, k: nat, n: nat, j: nat)
    requires Distinct(v) && j < k <= n <= |v|
    requires forall i :: 0 <= i < k ==> v[i].configId == configId
    ensures var news := News(v[..k]);
      |news| == k &&
      (IsPrefixOf(ReceiveAll(configId, Stubs(v[k..n]), [news[j]] + (news[..j] + news[j + 1..])), v) <==> j == 0)
  {
    var news, list := News(v[..k]), Stubs(v[k..n]);
    NewsAt(v[..k]);
    MovedToFront(news, j);
    var ahead := AheadOf([], news[..j], news[j], news[j + 1..]);
    NewsPrepended(configId, v, k, n);
    assert forall m :: m in news ==> IsNewsOf(v, m) by { NewsOfFirst(v, k); }
    NewsIsCurrent(configId, v, news);
    NewsIsCurrent(configId, v, ahead);
    SliceDistinct(v, k, n);
    AheadIff(configId, list, v, [], news[..j], news[j], news[j + 1..]);
    NewsInTurnIff(configId, v, k, n, j);
  }

  lemma MovedToFront(news: seq<Notification>, j: nat)
    requires j < |news|
    ensures InOrderOf([], news[..j], news[j], news[j + 1..]) == news
    ensures AheadOf([], news[..j], news[j], news[j + 1..]) == [news[j]] + (news[..j] + news[j + 1..])
    ensures forall m :: m in AheadOf([], news[..j], news[j], news[j + 1..]) ==> m in news
  {
    assert news == news[..j] + ([news[j]] + news[j + 1..]);
  }

  ghost predicate IsNewsOf(v: Table, m: Notification) {
    exists i :: 0 <= i < |v| && m == NewSession(StubOf(v[i]))
  }

  lemma NewsOfFirst(v: Table, k: nat)
    requires k <= |v|
    ensures forall m :: m in News(v[..k]) ==> IsNewsOf(v, m)
  {
    NewsOf(v[..k]);
    forall m | m in News(v[..k]) ensures IsNewsOf(v, m) {
      var i :| 0 <= i < k && m == NewSession(StubOf(v[..k][i]));
      assert m == NewSession(StubOf(v[i]));
    }
  }

  lemma {:induction false} NewsAt(rows: Table)
    ensures |News(rows)| == |rows|
    ensures forall j :: 0 <= j < |rows| ==> News(rows)[j] == NewSession(StubOf(rows[|rows| - 1 - j]))
    decreases |rows|
  {
    if rows != [] {
      NewsAt(rows[1..]);
    }
  }

  lemma SliceDistinct(v: Table, k: nat, n: nat)
    requires Distinct(v) && k <= n <= |v|
    ensures DistinctStubs(Stubs(v[k..n]))
  {
  }

  // Announcements of stored sessions say what is stored, in whatever order.
  lemma NewsIsCurrent(configId: string, v: Table, pending: seq<Notification>)
    requires Distinct(v) && forall m :: m in pending ==> IsNewsOf(v, m)
    ensures Current(configId, v, pending) && Unnamed(IdsOf(v), pending)
  {
    forall i | 0 <= i < |v| ensures Latest(configId, v[i].id, pending) in {None, Some(StubOf(v[i]))} {
      NewsSaysStored(configId, v, i, pending);
    }
  }

  lemma NewsSaysStored(configId: string, v: Table, i: nat, pending: seq<Notification>)
    requires Distinct(v) && i < |v| && forall m :: m in pending ==> IsNewsOf(v, m)
    ensures Latest(configId, v[i].id, pending) in {None, Some(StubOf(v[i]))}
  {
    LatestIsNews(configId, v[i].id, pending);
    if Latest(configId, v[i].id, pending).Some? {
      var m :| m in pending && IsNews(m, configId, v[i].id) && m.stub == Latest(configId, v[i].id, pending).value;
      assert IsNewsOf(v, m);
    }
  }

  lemma NewsInTurnIff(configId: string, v: Table, k: nat, n: nat, j: nat)
    requires Distinct(v) && j < k <= n <= |v| && |News(v[..k])| == k
    requires forall i :: 0 <= i < k ==> v[i].configId == configId
    ensures var news := News(v[..k]);
      InTurn(configId, Stubs(v[k..n]), v, news[..j], news[j], news[j + 1..]) <==> j == 0
  {
    var news, list, x := News(v[..k]), Stubs(v[k..n]), v[k - 1 - j];
    NewsAt(v[..k]);
    assert news[j] == NewSession(StubOf(x)) && x.id in IdsOf(v);
    NewsOfFirst(v, k);
    NewsSaysStored(configId, v, k - 1 - j, news[..j]);
    NotInSlice(v, k, n, k - 1 - j);
    if j > 0 {
      NotInSlice(v, k, n, k - 1);
      assert news[..j][0] == NewSession(StubOf(v[k - 1])) && v[k - 1].id in IdsOf(v);
      assert Overtaken(configId, x.id, news[..j], 0, IdsOf(v));
    }
  }

  lemma NotInSlice(v: Table, k: nat, n: nat, i: nat)
    requires Distinct(v) && i < k <= n <= |v|
    ensures !HasStub(Stubs(v[k..n]), v[i].id)
  {
    var list := Stubs(v[k..n]);
    forall m | 0 <= m < |list| ensures list[m].id != v[i].id { assert list[m].id == v[k + m].id; }
  }

  lemma LaterFetchOrderIff(configId: string, v: Table, k: nat, n: nat, lo: nat, hi: nat)
    requires Distinct(v) && k < n <= |v| && 0 < lo <= n && lo < hi <= |v|
    requires forall i :: 0 <= i < k ==> v[i].configId == configId
    ensures IsPrefixOf(ReceiveAll(configId, MergePage(Stubs(v[k..n]), Stubs(v[lo..hi]), lo), News(v[..k])), v) <==> k <= lo
  {
    var merged := MergePage(Stubs(v[k..n]), Stubs(v[lo..hi]), lo);
    if k <= lo {
      AppendFrom(v, k, n, lo, hi);
      NewsPrepended(configId, v, k, if n <= hi then hi else n);
    } else {
      LateRowBehind(v, k, n, lo, hi);
      NewsOf(v[..k]);
      StaysBehind(configId, merged, News(v[..k]), v[k].id, v[lo].id);
      if IsPrefixOf(ReceiveAll(configId, merged, News(v[..k])), v) {
        PrefixKeepsOrder(ReceiveAll(configId, merged, News(v[..k])), v, k, lo);
      }
    }
  }

  lemma PrefixKeepsOrder(list: seq<Stub>, v: Table, a: nat, b: nat)
    requires Distinct(v) && IsPrefixOf(list, v) && a < |v| && b < |v| && Behind(list, v[a].id, v[b].id)
    ensures a < b
  {
    var i, j :| 0 <= i < j < |list| && list[i].id == v[a].id && list[j].id == v[b].id;
    assert list[i].id == v[i].id && list[j].id == v[j].id;
  }

  lemma AppendFrom(v: Table, k: nat, n: nat, lo: nat, hi: nat)
    requires Distinct(v) && k <= lo <= n <= |v| && lo <= hi <= |v| && lo > 0
    ensures MergePage(Stubs(v[k..n]), Stubs(v[lo..hi]), lo) == Stubs(v[k..if n <= hi then hi else n])
  {
    var list, page, c := Stubs(v[k..n]), Stubs(v[lo..hi]), Min(n, hi) - lo;
    forall i | 0 <= i < |page| ensures NotShown(list)(page[i]) <==> i >= c {
      SliceHas(v, k, n, lo + i);
    }
    FilterCut(page, NotShown(list), c);
    if n <= hi {
      assert page[c..] == Stubs(v[n..hi]);
      JoinRows(v, k, n, hi);
    } else {
      assert page[c..] == [];
    }
  }

  lemma SliceHas(v: Table, k: nat, n: nat, i: nat)
    requires Distinct(v) && k <= n <= |v| && k <= i < |v|
    ensures HasStub(Stubs(v[k..n]), v[i].id) <==> i < n
  {
    if i < n {
      assert Stubs(v[k..n])[i - k].id == v[i].id;
    }
  }

  lemma JoinRows(v: Table, k: nat, n: nat, hi: nat)
    requires k <= n <= hi <= |v|
    ensures Stubs(v[k..n]) + Stubs(v[n..hi]) == Stubs(v[k..hi])
  {
  }

  lemma LateRowBehind(v: Table, k: nat, n: nat, lo: nat, hi: nat)
    requires Distinct(v) && lo < k < n <= |v| && 0 < lo < hi <= |v|
    ensures Behind(MergePage(Stubs(v[k..n]), Stubs(v[lo..hi]), lo), v[k].id, v[lo].id)
  {
    var list, page := Stubs(v[k..n]), Stubs(v[lo..hi]);
    var more := Filter(page, NotShown(list));
    forall i | 0 <= i < |list| ensures list[i].id != v[lo].id { assert list[i].id == v[k + i].id; }
    assert page[0] == StubOf(v[lo]) && page[0] in page && page[0] in more;
    var j :| 0 <= j < |more| && more[j] == page[0];
    assert (list + more)[0].id == v[k].id && (list + more)[|list| + j].id == v[lo].id;
  }

  // The rows of a page are stored.
  lemma PageSpared(q: Query, s: System, rows: Table)
    requires NoneThreatened(s.db, Pending(s)) && forall x :: x in rows ==> x in s.db
    ensures Spared(Stubs(rows), Pending(s))
  {
    forall n, x | n in Pending(s) && n.DeleteSession? && x in Stubs(rows) ensures x.id !in n.ids {
      var i :| 0 <= i < |rows| && Stubs(rows)[i] == x;
      assert rows[i] in rows && rows[i] in s.db && !Condemned(Pending(s), rows[i].id);
    }
  }

  lemma FirstPageKeepsList(q: Query, s: System)
    requires Ordered(q, s) && InOrder(q, s, FetchPage) && s.ui.offset == 0
    ensures ListOk(Shown(q, Next(q, s, FetchPage)), View(s.db, q), LIMIT)
  {
    var v := View(s.db, q);
    var c := Min(LIMIT, |v|);
    FilterDistinct(s.db, Matching(q));
    FirstRows(v, c);
    PageSpared(q, s, v[..c]);
    UpToDateIsCurrent(q, s.db, Pending(s));
    FirstPageOrderIff(q.configId, v, c, Pending(s));
    PrefixOk(v, c, LIMIT);
  }

  lemma FirstRows(v: Table, c: nat)
    requires c == Min(LIMIT, |v|)
    ensures Page(v, 0, LIMIT) == v[..c]
  {
    PageIsSlice(v, 0, LIMIT);
  }

  lemma LaterPageKeepsList(q: Query, s: System)
    requires Ordered(q, s) && InOrder(q, s, FetchPage) && s.ui.offset > 0
    ensures ListOk(Shown(q, Next(q, s, FetchPage)), View(s.db, q), s.ui.offset + LIMIT)
  {
    var v := View(s.db, q);
    var rows := Page(v, s.ui.offset, LIMIT);
    FilterDistinct(s.db, Matching(q));
    PageSpared(q, s, rows);
    QuietMerge(q.configId, s.ui.list, Pending(s), Stubs(rows), s.ui.offset);
    AppendPage(v, |Shown(q, s)|, s.ui.offset);
  }

  lemma FetchKeepsOrder(q: Query, s: System)
    requires Ordered(q, s) && InOrder(q, s, FetchPage)
    ensures Ordered(q, Next(q, s, FetchPage))
  {
    if s.ui.offset == 0 { FirstPageKeepsList(q, s); } else { LaterPageKeepsList(q, s); }
    FetchedPageDistinct(q, s);
    SameTail(s, Next(q, s, FetchPage));
  }

  lemma {:induction false} StepKeepsOrder(q: Query, s: System, step: Step)
    requires Ordered(q, s) && CanStep(s, step) && InOrder(q, s, step)
    ensures Ordered(q, Next(q, s, step))
  {
    match step
    case Start(row, p) => StartKeepsOrder(q, s, row, p);
    case Finish(id, r, p) =>
      if HasId(s.db, id) { FinishKeepsOrder(q, s, id, r, p); } else { FinishStoresAgain(q, s, id, r, p); }
    case ReapSelect(k) => SelectKeepsOrder(q, s, k);
    case ReapDelete => DeleteKeepsOrder(q, s);
    case Publish(k) => PublishOrderIff(q, s, k);
    case Arrive => ArriveKeepsOrder(q, s);
    case LoadMore => SameTail(s, Next(q, s, step));
    case FetchPage => FetchKeepsOrder(q, s);
  }

  // Every step of the run met its condition.
  ghost predicate AllInOrder(q: Query, s: System, steps: seq<Step>) {
    steps == [] ||
    (&& AllInOrder(q, s, steps[..|steps| - 1])
     && After(q, s, steps[..|steps| - 1]).At? && CanStep(After(q, s, steps[..|steps| - 1]).sys, steps[|steps| - 1])
     && InOrder(q, After(q, s, steps[..|steps| - 1]).sys, steps[|steps| - 1]))
  }

  // The page was opened on any state whose pending changes, if any, report what is stored.
  lemma {:induction false} ExactOrder(q: Query, s0: System, steps: seq<Step>)
    requires Opening(s0) && Grounded(q, s0)
    requires After(q, s0, steps).At? && AllInOrder(q, s0, steps)
    ensures Ordered(q, After(q, s0, steps).sys)
  {
    if steps != [] {
      ExactOrder(q, s0, steps[..|steps| - 1]);
      StepKeepsOrder(q, After(q, s0, steps[..|steps| - 1]).sys, steps[|steps| - 1]);
    }
  }

  // With nothing to be published or received, the list shown is a prefix of the server's order.
  lemma ListIsServerPrefix(q: Query, s0: System, steps: seq<Step>)
    requires Opening(s0) && Grounded(q, s0)
    requires After(q, s0, steps).At? && AllInOrder(q, s0, steps)
    requires var s := After(q, s0, steps).sys; s.inbox == [] && s.outbox == [] && s.ui.page.Some?
    ensures var s := After(q, s0, steps).sys;
      ListOk(s.ui.list, View(s.db, q), s.ui.offset + LIMIT)
  {
    ExactOrder(q, s0, steps);
    OrderedAtRest(q, After(q, s0, steps).sys);
  }

  // The columns that the list shows are the row's.
  ghost predicate Shows(stub: Stub, row: Session) {
    && stub.id == row.id && stub.configId == row.configId && stub.timestamp == row.timestamp
    && stub.requestMethod == row.requestMethod && stub.requestPath == row.requestPath
    && stub.statusCode == row.statusCode && stub.durationMs == row.durationMs
  }

  // Row by row: entry i of the list shows the columns of the row that stands at place i of the
  // answer without a limit, the rows asked for in the order of the table.
  lemma ListShowsServerRows(q: Query, s0: System, steps: seq<Step>)
    requires Opening(s0) && Grounded(q, s0)
    requires After(q, s0, steps).At? && AllInOrder(q, s0, steps)
    requires var s := After(q, s0, steps).sys; s.inbox == [] && s.outbox == [] && s.ui.page.Some?
    ensures var s := After(q, s0, steps).sys;
      var rows := RecentSessions(s.db, q, 0, 0);
      && Kept(s.db, rows, (x: Session) => Asked(q.configId, q.since, q.until, x))
      && |s.ui.list| <= |rows| && (|s.ui.list| < |rows| ==> |s.ui.list| >= s.ui.offset + 50)
      && forall i :: 0 <= i < |s.ui.list| ==> Shows(s.ui.list[i], rows[i])
  {
    ListIsServerPrefix(q, s0, steps);
    var s := After(q, s0, steps).sys;
    UnlimitedAnswer(s.db, q.configId, q.since, q.until, 0, 0);
    FilterKeeps(s.db, Matching(q), (x: Session) => Asked(q.configId, q.since, q.until, x));
    forall i | 0 <= i < |s.ui.list| ensures Shows(s.ui.list[i], View(s.db, q)[i]) {
      assert s.ui.list[i] == StubOf(View(s.db, q)[i]);
    }
  }

  // A request that finishes is announced with the status and the duration of its response, and with
  // the columns it was stored with.
  lemma FinishAnnounces(q: Query, s: System, id: string, r: Response, p: nat)
    requires CanStep(s, Finish(id, r, p)) && OpenOk(s.db, s.open)
    ensures var outbox, row := Next(q, s, Finish(id, r, p)).outbox, s.open[id];
      && outbox == s.outbox + [outbox[|s.outbox|]] && outbox[|s.outbox|].NewSession?
      && outbox[|s.outbox|].stub == Stub(id, row.configId, r.statusCode, row.requestMethod, row.requestPath, row.timestamp, r.durationMs)
    ensures HasId(Next(q, s, Finish(id, r, p)).db, id) && id !in Next(q, s, Finish(id, r, p)).open
  {
    var row := Finished(s.open[id], r);
    if HasId(s.db, id) {
      var k :| 0 <= k < |s.db| && s.db[k].id == id;
      assert Replace(s.db, row)[k].id == id;
    } else {
      assert Insert(s.db, p, row)[p].id == id;
    }
  }

  lemma OrderedAtRest(q: Query, s: System)
    requires Ordered(q, s) && s.inbox == [] && s.outbox == [] && s.ui.page.Some?
    ensures ListOk(s.ui.list, View(s.db, q), s.ui.offset + LIMIT)
  {
    assert Pending(s) == [];
  }
}
