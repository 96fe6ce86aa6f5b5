/**
 The proxy_sessions table.  A table value lists its rows in the order every
 query reads them: newest timestamp first, ties in one fixed order.
 */
module SessionDb {
  import opened Lists
  import opened Options

  datatype Session = Session(
    id: string, configId: string, timestamp: int, durationMs: int, statusCode: int,
    requestMethod: string, requestPath: string, requestQuery: Option<string>, requestHost: string,
    requestUrlFull: string, requestHeaders: Option<string>, requestBody: Option<string>,
    requestContentType: Option<string>,
    responseStatusText: Option<string>, responseHeaders: Option<string>, responseBody: Option<string>,
    responseContentType: Option<string>,
    unindexed: string)  // every other copied column

  datatype Response = Response(
    durationMs: int, statusCode: int, statusText: string, headers: string, body: Option<string>, contentType: string)

  type Table = seq<Session>

  ghost predicate Distinct(db: Table) {
    forall i, j :: 0 <= i < j < |db| ==> db[i].id != db[j].id
  }

  ghost predicate NewestFirst(db: Table) {
    forall i, j :: 0 <= i < j < |db| ==> db[i].timestamp >= db[j].timestamp
  }

  predicate HasId(db: Table, id: string) {
    exists i :: 0 <= i < |db| && db[i].id == id
  }

  // The row StartProxySession inserts: the request, and a pending response.
  predicate IsPending(s: Session) {
    s.durationMs == 0 && s.statusCode == 0
  }

  // FinishProxySession writes response columns only.
  function Finished(s: Session, r: Response): (f: Session)
    ensures f.id == s.id && f.configId == s.configId && f.timestamp == s.timestamp
  {
    s.(durationMs := r.durationMs, statusCode := r.statusCode, responseStatusText := Some(r.statusText),
       responseHeaders := Some(r.headers), responseBody := r.body, responseContentType := Some(r.contentType))
  }

  function Insert(db: Table, p: nat, row: Session): Table
    requires p <= |db|
  {
    db[..p] + [row] + db[p..]
  }

  function Replace(db: Table, row: Session): (r: Table)
    ensures |r| == |db|
    ensures forall i :: 0 <= i < |db| ==> r[i] == if db[i].id == row.id then row else db[i]
  {
    if db == [] then [] else [if db[0].id == row.id then row else db[0]] + Replace(db[1..], row)
  }

  // GORM's Save: update by primary key and, when that hits nothing, insert.
  function Save(db: Table, p: nat, row: Session): Table
    requires p <= |db|
  {
    if HasId(db, row.id) then Replace(db, row) else Insert(db, p, row)
  }

  function NotIn(ids: set<string>): Session -> bool {
    (s: Session) => s.id !in ids
  }

  function IsIn(ids: set<string>): Session -> bool {
    (s: Session) => s.id in ids
  }

  // DELETE ... WHERE id IN ids
  function Delete(db: Table, ids: set<string>): Table {
    Filter(db, NotIn(ids))
  }

  function IdsOf(db: Table): set<string> {
    set i | 0 <= i < |db| :: db[i].id
  }

  // The k oldest rows: ORDER BY timestamp ASC LIMIT k reads the table backwards.
  function Oldest(db: Table, k: nat): Table {
    db[|db| - Min(k, |db|)..]
  }

  datatype Query = Query(configId: string, since: Option<int>, until: Option<int>)

  predicate Matches(q: Query, s: Session) {
    && s.configId == q.configId
    && (q.since.Some? ==> s.timestamp >= q.since.value)
    && (q.until.Some? ==> s.timestamp <= q.until.value)
  }

  function Matching(q: Query): Session -> bool {
    (s: Session) => Matches(q, s)
  }

  function View(db: Table, q: Query): Table {
    Filter(db, Matching(q))
  }

  // GetRecentSessions; without a positive limit it returns everything.
  function RecentSessions(db: Table, q: Query, limit: int, offset: nat): Table {
    if limit > 0 then Page(View(db, q), offset, limit) else View(db, q)
  }

  // Saving a finished session, wherever its row is by then, leaves one row of its id, with the columns
  // of the response and the request as it was stored.
  lemma FinishStoresResponse(db: Table, p: nat, s: Session, r: Response)
    requires p <= |db|
    ensures exists x :: x in Save(db, p, Finished(s, r)) && HoldsResponse(x, s, r)
    ensures forall x: Session :: x.id != s.id ==> (x in Save(db, p, Finished(s, r)) <==> x in db)
  {
    var row := Finished(s, r);
    SavedIsThere(db, p, row);
    assert HoldsResponse(row, s, r);
    forall x: Session | x.id != s.id ensures x in Save(db, p, row) <==> x in db { OthersStay(db, p, row, x); }
  }

  lemma SavedIsThere(db: Table, p: nat, row: Session)
    requires p <= |db|
    ensures row in Save(db, p, row)
  {
    if HasId(db, row.id) {
      var k :| 0 <= k < |db| && db[k].id == row.id;
      assert Replace(db, row)[k] == row;
    } else {
      assert Insert(db, p, row)[p] == row;
    }
  }

  lemma OthersStay(db: Table, p: nat, row: Session, x: Session)
    requires p <= |db| && x.id != row.id
    ensures x in Save(db, p, row) <==> x in db
  {
    if HasId(db, row.id) {
      if x in db {
        var i :| 0 <= i < |db| && db[i] == x;
        assert Replace(db, row)[i] == x;
      }
      if x in Replace(db, row) {
        var i :| 0 <= i < |db| && Replace(db, row)[i] == x;
        assert db[i] == x;
      }
    } else {
      assert db == db[..p] + db[p..];
    }
  }

  ghost predicate HoldsResponse(x: Session, s: Session, r: Response) {
    && x.id == s.id && x.configId == s.configId && x.timestamp == s.timestamp && x.unindexed == s.unindexed
    && [x.requestMethod, x.requestPath, x.requestHost, x.requestUrlFull]
       == [s.requestMethod, s.requestPath, s.requestHost, s.requestUrlFull]
    && [x.requestQuery, x.requestHeaders, x.requestBody, x.requestContentType]
       == [s.requestQuery, s.requestHeaders, s.requestBody, s.requestContentType]
    && x.durationMs == r.durationMs && x.statusCode == r.statusCode
    && [x.responseStatusText, x.responseHeaders, x.responseBody, x.responseContentType]
       == [Some(r.statusText), Some(r.headers), r.body, Some(r.contentType)]
  }

  // What the query asks for: the configuration, and a timestamp within the bounds that are given,
  // both included.
  predicate Asked(configId: string, since: Option<int>, until: Option<int>, s: Session) {
    match (since, until)
    case (None, None) => s.configId == configId
    case (Some(lo), None) => s.configId == configId && lo <= s.timestamp
    case (None, Some(hi)) => s.configId == configId && s.timestamp <= hi
    case (Some(lo), Some(hi)) => s.configId == configId && lo <= s.timestamp <= hi
  }

  // Without a limit the answer is exactly the rows asked for, in the order of the table.
  lemma UnlimitedAnswer(db: Table, configId: string, since: Option<int>, until: Option<int>, limit: int, offset: nat)
    requires limit <= 0
    ensures Kept(db, RecentSessions(db, Query(configId, since, until), limit, offset), s => Asked(configId, since, until, s))
  {
    FilterKeeps(db, Matching(Query(configId, since, until)), s => Asked(configId, since, until, s));
  }

  // With a limit it is that answer from the offset on, up to the limit.
  lemma PagedAnswer(db: Table, q: Query, limit: int, offset: nat)
    requires limit > 0
    ensures var all, page := RecentSessions(db, q, 0, 0), RecentSessions(db, q, limit, offset);
      && |page| == (if |all| <= offset then 0 else if limit <= |all| - offset then limit else |all| - offset)
      && forall i :: 0 <= i < |page| ==> page[i] == all[offset + i]
  {
    PageRows(View(db, q), offset, limit);
  }

  // A stored row is on some page exactly when it is asked for.
  lemma OnSomePageIff(db: Table, configId: string, since: Option<int>, until: Option<int>, limit: int, s: Session)
    requires limit > 0 && s in db
    ensures (exists offset: nat :: s in RecentSessions(db, Query(configId, since, until), limit, offset))
        <==> Asked(configId, since, until, s)
  {
    var q := Query(configId, since, until);
    if Asked(configId, since, until, s) {
      assert s in View(db, q);
      var i :| 0 <= i < |View(db, q)| && View(db, q)[i] == s;
      assert s in RecentSessions(db, q, limit, i);
    }
  }

  lemma {:induction false} FilterDistinct(db: Table, p: Session -> bool)
    requires Distinct(db)
    ensures Distinct(Filter(db, p))
  {
    if db != [] {
      FilterDistinct(db[1..], p);
      var f := Filter(db[1..], p);
      forall i | 0 <= i < |f| ensures f[i].id != db[0].id {
        assert f[i] in db[1..];
        var k :| 0 <= k < |db[1..]| && db[1..][k] == f[i];
      }
    }
  }

  lemma {:induction false} FilterNewestFirst(db: Table, p: Session -> bool)
    requires NewestFirst(db)
    ensures NewestFirst(Filter(db, p))
  {
    if db != [] {
      FilterNewestFirst(db[1..], p);
      var f := Filter(db[1..], p);
      forall i | 0 <= i < |f| ensures f[i].timestamp <= db[0].timestamp {
        assert f[i] in db[1..];
        var k :| 0 <= k < |db[1..]| && db[1..][k] == f[i];
      }
    }
  }

  lemma FilterInsert(db: Table, p: nat, row: Session, keep: Session -> bool)
    requires p <= |db|
    ensures Filter(db, keep) == Filter(db[..p], keep) + Filter(db[p..], keep)
    ensures Filter(Insert(db, p, row), keep)
         == Filter(db[..p], keep) + (if keep(row) then [row] else []) + Filter(db[p..], keep)
  {
    var a, b := db[..p], db[p..];
    assert db == a + b;
    FilterConcat(a, b, keep);
    FilterConcat(a + [row], b, keep);
    FilterOneMore(a, row, keep);
  }

  lemma FilterOneMore(db: Table, row: Session, keep: Session -> bool)
    ensures Filter(db + [row], keep) == Filter(db, keep) + if keep(row) then [row] else []
  {
    FilterConcat(db, [row], keep);
  }

  lemma SaveDistinct(db: Table, p: nat, row: Session)
    requires Distinct(db) && p <= |db|
    ensures Distinct(Save(db, p, row))
  {
    if !HasId(db, row.id) {
      var r := Insert(db, p, row);
      forall i, j | 0 <= i < j < |r| ensures r[i].id != r[j].id {
        assert i < p ==> r[i] == db[i];
        assert j > p ==> r[j] == db[j - 1];
        assert i > p ==> r[i] == db[i - 1];
        assert j < p ==> r[j] == db[j];
      }
    }
  }

  lemma {:induction false} DeleteCount(db: Table, ids: set<string>)
    ensures |Delete(db, ids)| + |Filter(db, IsIn(ids))| == |db|
  {
    if db != [] {
      DeleteCount(db[1..], ids);
    }
  }

  // Deleting the oldest rows of a table leaves exactly the others.
  lemma DeleteOldest(db: Table, m: nat)
    requires Distinct(db) && m <= |db|
    ensures Delete(db, IdsOf(db[m..])) == db[..m]
  {
    var ids := IdsOf(db[m..]);
    assert db == db[..m] + db[m..];
    FilterConcat(db[..m], db[m..], NotIn(ids));
    forall s | s in db[..m] ensures s.id !in ids {
      var i :| 0 <= i < m && db[i] == s;
      forall j | 0 <= j < |db[m..]| ensures db[m..][j].id != s.id {
        assert db[m..][j] == db[m + j];
      }
    }
    FilterAll(db[..m], NotIn(ids));
    FilterNone(db[m..], NotIn(ids));
  }
}
