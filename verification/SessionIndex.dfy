/**
 The full-text index of proxy_sessions.  The index table has no key of its own:
 three row triggers keep it in step with the base table.
 */
module SessionIndex {
  import opened Lists
  import opened Options
  import opened SessionDb

  // The indexed columns.
  datatype Fields = Fields(
    configId: string, requestMethod: string, requestPath: string, requestQuery: Option<string>,
    requestHost: string, requestUrlFull: string, requestHeaders: Option<string>, requestBody: Option<string>,
    responseStatusText: Option<string>, responseHeaders: Option<string>, responseBody: Option<string>)

  datatype IndexRow = IndexRow(sessionId: string, fields: Fields)

  // ---------- The CASE projections ----------

  function Lower(c: char): char {
    if 'A' <= c <= 'Z' then (c - 'A') + 'a' else c
  }

  predicate MatchesAt(s: string, word: string, i: nat) {
    i + |word| <= |s| && forall k :: 0 <= k < |word| ==> Lower(s[i + k]) == word[k]
  }

  // column LIKE '%word%': ASCII letters match in either case, and NULL matches nothing.
  predicate Like(column: Option<string>, word: string) {
    column.Some? && exists i :: 0 <= i <= |column.value| && MatchesAt(column.value, word, i)
  }

  predicate IsTextual(contentType: Option<string>) {
    Like(contentType, "text") || Like(contentType, "json") || Like(contentType, "xml") || Like(contentType, "javascript")
  }

  function Project(s: Session): Fields {
    Fields(s.configId, s.requestMethod, s.requestPath, s.requestQuery, s.requestHost, s.requestUrlFull, s.requestHeaders,
           if IsTextual(s.requestContentType) || Like(s.requestContentType, "x-www-form-urlencoded") then s.requestBody else None,
           s.responseStatusText, s.responseHeaders,
           if IsTextual(s.responseContentType) then s.responseBody else None)
  }

  function LowerAll(s: string): (r: string)
    ensures |r| == |s| && forall k :: 0 <= k < |s| ==> r[k] == Lower(s[k])
  {
    seq(|s|, k requires 0 <= k < |s| => Lower(s[k]))
  }

  // LIKE '%word%' holds exactly when some part of the column is the word, case aside.
  lemma LikeIff(column: string, word: string)
    ensures Like(Some(column), word) <==> exists i, j :: 0 <= i <= j <= |column| && LowerAll(column[i..j]) == word
  {
    if Like(Some(column), word) {
      var i :| 0 <= i <= |column| && MatchesAt(column, word, i);
      assert LowerAll(column[i..i + |word|]) == word;
    }
    if i, j :| 0 <= i <= j <= |column| && LowerAll(column[i..j]) == word {
      assert MatchesAt(column, word, i) by {
        assert forall k :: 0 <= k < |word| ==> LowerAll(column[i..j])[k] == Lower(column[i..j][k]);
      }
    }
  }

  // Some part of the content type is one of the words, case aside.
  ghost predicate Mentions(contentType: Option<string>, words: set<string>) {
    contentType.Some? &&
    exists i, j :: 0 <= i <= j <= |contentType.value| && LowerAll(contentType.value[i..j]) in words
  }

  lemma TextualIff(contentType: Option<string>)
    ensures IsTextual(contentType) <==> Mentions(contentType, {"text", "json", "xml", "javascript"})
  {
    if contentType.Some? {
      LikeIff(contentType.value, "text");
      LikeIff(contentType.value, "json");
      LikeIff(contentType.value, "xml");
      LikeIff(contentType.value, "javascript");
    }
  }

  // Nine columns are indexed as they are; a body only when its content type says that it is text,
  // the request's also when it is a form.
  lemma IndexedColumns(s: Session)
    ensures var f := IndexOf(s).fields;
      && IndexOf(s).sessionId == s.id && f.configId == s.configId
      && [f.requestMethod, f.requestPath, f.requestHost, f.requestUrlFull]
         == [s.requestMethod, s.requestPath, s.requestHost, s.requestUrlFull]
      && [f.requestQuery, f.requestHeaders, f.responseStatusText, f.responseHeaders]
         == [s.requestQuery, s.requestHeaders, s.responseStatusText, s.responseHeaders]
      && f.requestBody == (if Mentions(s.requestContentType, {"text", "json", "xml", "javascript", "x-www-form-urlencoded"}) then s.requestBody else None)
      && f.responseBody == (if Mentions(s.responseContentType, {"text", "json", "xml", "javascript"}) then s.responseBody else None)
  {
    TextualIff(s.requestContentType);
    TextualIff(s.responseContentType);
    FormIff(s.requestContentType);
  }

  lemma FormIff(contentType: Option<string>)
    ensures IsTextual(contentType) || Like(contentType, "x-www-form-urlencoded")
        <==> Mentions(contentType, {"text", "json", "xml", "javascript", "x-www-form-urlencoded"})
  {
    TextualIff(contentType);
    if contentType.Some? {
      LikeIff(contentType.value, "x-www-form-urlencoded");
    }
  }

  function IndexOf(s: Session): IndexRow {
    IndexRow(s.id, Project(s))
  }

  // ---------- The migration and the triggers ----------

  function Populate(db: Table): seq<IndexRow> {
    if db == [] then [] else [IndexOf(db[0])] + Populate(db[1..])
  }

  function AfterInsert(ix: seq<IndexRow>, row: Session): seq<IndexRow> {
    ix + [IndexOf(row)]
  }

  function AfterUpdate(ix: seq<IndexRow>, before: Session, row: Session): seq<IndexRow> {
    if ix == [] then []
    else [if ix[0].sessionId == before.id then ix[0].(fields := Project(row)) else ix[0]] + AfterUpdate(ix[1..], before, row)
  }

  function Other(id: string): IndexRow -> bool {
    (f: IndexRow) => f.sessionId != id
  }

  function AfterDelete(ix: seq<IndexRow>, before: Session): seq<IndexRow> {
    Filter(ix, Other(before.id))
  }

  // ---------- Agreement ----------

  function Of(id: string): IndexRow -> bool {
    (f: IndexRow) => f.sessionId == id
  }

  function RowsOf(ix: seq<IndexRow>, id: string): seq<IndexRow> {
    Filter(ix, Of(id))
  }

  // One index row per session, equal to its projection, and no others.
  ghost predicate Agree(db: Table, ix: seq<IndexRow>) {
    && (forall i :: 0 <= i < |db| ==> RowsOf(ix, db[i].id) == [IndexOf(db[i])])
    && (forall k :: 0 <= k < |ix| ==> HasId(db, ix[k].sessionId))
  }

  lemma NoRowsOf(db: Table, ix: seq<IndexRow>, id: string)
    requires Agree(db, ix) && !HasId(db, id)
    ensures RowsOf(ix, id) == []
  {
    forall f | f in ix ensures !Of(id)(f) {
      var k :| 0 <= k < |ix| && ix[k] == f;
    }
    FilterNone(ix, Of(id));
  }

  lemma RowsAfterInsert(ix: seq<IndexRow>, row: Session, id: string)
    ensures RowsOf(AfterInsert(ix, row), id) == RowsOf(ix, id) + if row.id == id then [IndexOf(row)] else []
  {
    FilterConcat(ix, [IndexOf(row)], Of(id));
  }

  lemma InsertAgrees(db: Table, ix: seq<IndexRow>, row: Session, p: nat)
    requires Agree(db, ix) && p <= |db| && !HasId(db, row.id)
    ensures Agree(Insert(db, p, row), AfterInsert(ix, row))
  {
    var db', ix' := Insert(db, p, row), AfterInsert(ix, row);
    NoRowsOf(db, ix, row.id);
    forall i | 0 <= i < |db'| ensures RowsOf(ix', db'[i].id) == [IndexOf(db'[i])] {
      RowsAfterInsert(ix, row, db'[i].id);
      if i != p {
        assert db'[i] == db[if i < p then i else i - 1];
      }
    }
    forall k | 0 <= k < |ix'| ensures HasId(db', ix'[k].sessionId) {
      if k == |ix| {
        assert db'[p].id == row.id;
      } else {
        var j :| 0 <= j < |db| && db[j].id == ix[k].sessionId;
        assert db'[if j < p then j else j + 1].id == ix'[k].sessionId;
      }
    }
  }

  lemma {:induction false} AfterUpdateRows(ix: seq<IndexRow>, before: Session, row: Session)
    ensures |AfterUpdate(ix, before, row)| == |ix|
    ensures forall k :: 0 <= k < |ix| ==>
      AfterUpdate(ix, before, row)[k] == (if ix[k].sessionId == before.id then ix[k].(fields := Project(row)) else ix[k])
  {
    if ix != [] {
      AfterUpdateRows(ix[1..], before, row);
    }
  }

  lemma {:induction false} RowsAfterUpdate(ix: seq<IndexRow>, before: Session, row: Session, id: string)
    ensures RowsOf(AfterUpdate(ix, before, row), id) ==
      if id == before.id then AfterUpdate(RowsOf(ix, id), before, row) else RowsOf(ix, id)
  {
    if ix != [] {
      RowsAfterUpdate(ix[1..], before, row, id);
      var head := if ix[0].sessionId == before.id then ix[0].(fields := Project(row)) else ix[0];
      var rest, rest' := RowsOf(ix[1..], id), RowsOf(AfterUpdate(ix[1..], before, row), id);
      FilterConcat([head], AfterUpdate(ix[1..], before, row), Of(id));
      assert Filter([head], Of(id)) == if ix[0].sessionId == id then [head] else [];
      if ix[0].sessionId == id {
        assert RowsOf(ix, id) == [ix[0]] + rest && RowsOf(ix, id)[1..] == rest;
      } else {
        assert RowsOf(ix, id) == rest;
      }
    }
  }

  // The update trigger leaves session_id alone, so it keeps the indexes together
  // exactly when the update leaves the primary key alone.
  lemma UpdateAgreesIff(db: Table, ix: seq<IndexRow>, k: nat, row: Session)
    requires Agree(db, ix) && Distinct(db) && k < |db|
    requires row.id == db[k].id || !HasId(db, row.id)
    ensures Agree(db[k := row], AfterUpdate(ix, db[k], row)) <==> row.id == db[k].id
  {
    if row.id == db[k].id {
      SameKeyAgrees(db, ix, k, row);
    } else {
      RowsAfterUpdate(ix, db[k], row, row.id);
      NoRowsOf(db, ix, row.id);
      assert db[k := row][k].id == row.id;
    }
  }

  lemma SameKeyAgrees(db: Table, ix: seq<IndexRow>, k: nat, row: Session)
    requires Agree(db, ix) && Distinct(db) && k < |db| && row.id == db[k].id
    ensures Agree(db[k := row], AfterUpdate(ix, db[k], row))
  {
    var db', ix' := db[k := row], AfterUpdate(ix, db[k], row);
    forall i | 0 <= i < |db'| ensures RowsOf(ix', db'[i].id) == [IndexOf(db'[i])] {
      RowsAfterUpdate(ix, db[k], row, db'[i].id);
      assert RowsOf(ix, db[i].id) == [IndexOf(db[i])];
    }
    AfterUpdateRows(ix, db[k], row);
    forall j | 0 <= j < |ix'| ensures HasId(db', ix'[j].sessionId) {
      var i :| 0 <= i < |db| && db[i].id == ix[j].sessionId;
      assert db'[i].id == ix'[j].sessionId;
    }
  }

  lemma ReplaceIsUpdate(db: Table, k: nat, row: Session)
    requires Distinct(db) && k < |db| && db[k].id == row.id
    ensures Replace(db, row) == db[k := row]
  {
  }

  lemma DeleteAgrees(db: Table, ix: seq<IndexRow>, before: Session)
    requires Agree(db, ix)
    ensures Agree(Delete(db, {before.id}), AfterDelete(ix, before))
  {
    var db', ix' := Delete(db, {before.id}), AfterDelete(ix, before);
    forall i | 0 <= i < |db'| ensures RowsOf(ix', db'[i].id) == [IndexOf(db'[i])] {
      assert db'[i] in db' && db'[i] in db;
      var j :| 0 <= j < |db| && db[j] == db'[i];
      FilterFilter(ix, Other(before.id), Of(db'[i].id));
      FilterAll(RowsOf(ix, db'[i].id), Other(before.id));
    }
    forall k | 0 <= k < |ix'| ensures HasId(db', ix'[k].sessionId) {
      assert ix'[k] in ix' && ix'[k] in ix;
      var j :| 0 <= j < |ix| && ix[j] == ix'[k];
      var i :| 0 <= i < |db| && db[i].id == ix[j].sessionId;
      assert db[i] in db && NotIn({before.id})(db[i]) && db[i] in db';
      var n :| 0 <= n < |db'| && db'[n] == db[i];
    }
  }

  lemma {:induction false} PopulateAgrees(db: Table)
    requires Distinct(db)
    ensures Agree(db, Populate(db))
  {
    if db != [] {
      var rest, row := db[1..], db[0];
      PopulateAgrees(rest);
      var ix := Populate(db);
      assert ix == [IndexOf(row)] + Populate(rest);
      assert !HasId(rest, row.id) by {
        forall i | 0 <= i < |rest| ensures rest[i].id != row.id { assert rest[i] == db[i + 1]; }
      }
      forall i | 0 <= i < |db| ensures RowsOf(ix, db[i].id) == [IndexOf(db[i])] {
        FilterConcat([IndexOf(row)], Populate(rest), Of(db[i].id));
        if i == 0 {
          NoRowsOf(rest, Populate(rest), row.id);
        } else {
          assert db[i] == rest[i - 1];
        }
      }
      forall k | 0 <= k < |ix| ensures HasId(db, ix[k].sessionId) {
        if k == 0 {
          assert db[0].id == ix[k].sessionId;
        } else {
          var i :| 0 <= i < |rest| && rest[i].id == Populate(rest)[k - 1].sessionId;
          assert db[i + 1].id == ix[k].sessionId;
        }
      }
    }
  }

  // ---------- Statements, with the triggers they fire ----------

  class SessionTables {
    var rows: Table
    var fts: seq<IndexRow>

    ghost predicate Valid()
      reads this
    {
      Distinct(rows) && NewestFirst(rows) && Agree(rows, fts)
    }

    // The migration, on a table that already has rows.
    constructor (existing: Table)
      requires Distinct(existing) && NewestFirst(existing)
      ensures Valid() && rows == existing
    {
      rows, fts := existing, Populate(existing);
      new;
      PopulateAgrees(existing);
    }

    method Create(row: Session, p: nat)
      requires Valid() && p <= |rows| && !HasId(rows, row.id) && NewestFirst(Insert(rows, p, row))
      modifies this
      ensures Valid() && rows == Insert(old(rows), p, row)
    {
      InsertAgrees(rows, fts, row, p);
      SaveDistinct(rows, p, row);
      rows := Insert(rows, p, row);
      fts := AfterInsert(fts, row);
    }

    method Update(k: nat, row: Session)
      requires Valid() && k < |rows| && rows[k].id == row.id && rows[k].timestamp == row.timestamp
      modifies this
      ensures Valid() && rows == Replace(old(rows), row)
    {
      UpdateKeepsAll(rows, fts, k, row);
      fts := AfterUpdate(fts, rows[k], row);
      rows := rows[k := row];
    }

    // An upsert: the insert trigger fires or the update trigger does.
    method Upsert(row: Session, p: nat)
      requires Valid() && Allowed(rows, Statement.Upsert(row, p))
      modifies this
      ensures Valid() && rows == Save(old(rows), p, row)
    {
      var k := 0;
      while k < |rows| && rows[k].id != row.id
        invariant k <= |rows| && forall i :: 0 <= i < k ==> rows[i].id != row.id
      {
        k := k + 1;
      }
      if k < |rows| {
        Update(k, row);
      } else {
        Create(row, p);
      }
    }

    // DELETE of the rows with these ids, one delete trigger per row.
    method DeleteWhere(ids: set<string>)
      requires Valid()
      modifies this
      ensures Valid() && rows == Delete(old(rows), ids)
    {
      var victims := Filter(rows, IsIn(ids));
      SameVictims(rows, ids);
      while victims != []
        invariant Valid() && Delete(rows, IdsOf(victims)) == Delete(old(rows), ids)
      {
        var row := victims[0];
        DeleteAgrees(rows, fts, row);
        FilterDistinct(rows, NotIn({row.id}));
        FilterNewestFirst(rows, NotIn({row.id}));
        DeleteFirst(rows, victims);
        fts := AfterDelete(fts, row);
        rows := Delete(rows, {row.id});
        victims := victims[1..];
      }
      DeleteNothing(rows);
    }

    method Search(configId: string, matches: IndexRow -> bool, limit: int, offset: nat) returns (found: seq<Session>)
      requires Valid()
      ensures found == Limit(Filter(rows, Hit(configId, matches)), limit, offset)
      ensures Distinct(found) && NewestFirst(found)
      ensures exists hits ::
        IsPageOf(found, hits, limit, offset) && Kept(rows, hits, (s: Session) => s.configId == configId && matches(IndexOf(s)))
    {
      FilterKeeps(rows, Hit(configId, matches), (s: Session) => s.configId == configId && matches(IndexOf(s)));
      LimitRows(Filter(rows, Hit(configId, matches)), limit, offset);
      SearchIsFilter(rows, fts, configId, matches);
      found := SearchSessions(rows, fts, configId, matches, limit, offset);
      FilterDistinct(rows, Hit(configId, matches));
      FilterNewestFirst(rows, Hit(configId, matches));
      LimitKeepsOrder(Filter(rows, Hit(configId, matches)), limit, offset);
    }
  }

  lemma DeleteNothing(db: Table)
    ensures IdsOf([]) == {} && Delete(db, {}) == db
  {
    FilterAll(db, NotIn({}));
  }

  lemma {:induction false} DeleteTwice(db: Table, id: string, ids: set<string>)
    ensures Delete(Delete(db, {id}), ids) == Delete(db, {id} + ids)
  {
    if db != [] {
      DeleteTwice(db[1..], id, ids);
      FilterConcat(if db[0].id != id then [db[0]] else [], Delete(db[1..], {id}), NotIn(ids));
    }
  }

  lemma DeleteFirst(db: Table, victims: Table)
    requires victims != []
    ensures Delete(Delete(db, {victims[0].id}), IdsOf(victims[1..])) == Delete(db, IdsOf(victims))
  {
    DeleteTwice(db, victims[0].id, IdsOf(victims[1..]));
    assert IdsOf(victims) == {victims[0].id} + IdsOf(victims[1..]) by {
      assert forall i :: 0 <= i < |victims[1..]| ==> victims[1..][i] == victims[i + 1];
    }
  }

  lemma {:induction false} DeleteSame(db: Table, ids: set<string>, ids': set<string>)
    requires forall i :: 0 <= i < |db| ==> (db[i].id in ids <==> db[i].id in ids')
    ensures Delete(db, ids) == Delete(db, ids')
  {
    if db != [] {
      DeleteSame(db[1..], ids, ids');
    }
  }

  lemma SameVictims(db: Table, ids: set<string>)
    ensures Delete(db, IdsOf(Filter(db, IsIn(ids)))) == Delete(db, ids)
  {
    var victims := Filter(db, IsIn(ids));
    forall i | 0 <= i < |db| ensures db[i].id in IdsOf(victims) <==> db[i].id in ids {
      if db[i].id in ids {
        assert db[i] in db && db[i] in victims;
        var k :| 0 <= k < |victims| && victims[k] == db[i];
      }
      if db[i].id in IdsOf(victims) {
        var k :| 0 <= k < |victims| && victims[k].id == db[i].id;
        assert victims[k] in victims;
      }
    }
    DeleteSame(db, IdsOf(victims), ids);
  }

  // ---------- Searching ----------

  function Found(s: Session, configId: string, matches: IndexRow -> bool): IndexRow -> bool {
    (f: IndexRow) => f.sessionId == s.id && f.fields.configId == configId && matches(f)
  }

  // The join, read in the base table's order: a session once per index row that joins it.
  function Join(db: Table, ix: seq<IndexRow>, configId: string, matches: IndexRow -> bool): Table {
    if db == [] then []
    else seq(|Filter(ix, Found(db[0], configId, matches))|, _ => db[0]) + Join(db[1..], ix, configId, matches)
  }

  // A negative LIMIT is no limit.
  function Limit(rows: Table, limit: int, offset: nat): Table {
    if limit >= 0 then Page(rows, offset, limit) else if offset <= |rows| then rows[offset..] else []
  }

  function SearchSessions(db: Table, ix: seq<IndexRow>, configId: string, matches: IndexRow -> bool, limit: int, offset: nat): Table {
    Limit(Join(db, ix, configId, matches), limit, offset)
  }

  // Row i found is hit offset + i; the page ends at the limit, if there is one, or with the hits.
  ghost predicate IsPageOf(page: Table, hits: Table, limit: int, offset: nat) {
    && |page| == (if |hits| <= offset then 0 else if 0 <= limit < |hits| - offset then limit else |hits| - offset)
    && forall i :: 0 <= i < |page| ==> page[i] == hits[offset + i]
  }

  lemma LimitRows(hits: Table, limit: int, offset: nat)
    ensures IsPageOf(Limit(hits, limit, offset), hits, limit, offset)
  {
    if limit >= 0 { PageRows(hits, offset, limit); }
  }

  // What the search is for: the base rows of this config whose own projection matches.
  function Hit(configId: string, matches: IndexRow -> bool): Session -> bool {
    (s: Session) => s.configId == configId && matches(IndexOf(s))
  }

  lemma {:induction false} SearchIsFilter(db: Table, ix: seq<IndexRow>, configId: string, matches: IndexRow -> bool)
    requires forall i :: 0 <= i < |db| ==> RowsOf(ix, db[i].id) == [IndexOf(db[i])]
    ensures Join(db, ix, configId, matches) == Filter(db, Hit(configId, matches))
  {
    if db != [] {
      assert forall i :: 0 <= i < |db[1..]| ==> db[1..][i] == db[i + 1];
      SearchIsFilter(db[1..], ix, configId, matches);
      FoundIsHit(db[0], ix, configId, matches);
      var n := |Filter(ix, Found(db[0], configId, matches))|;
      assert seq(n, _ => db[0]) == if Hit(configId, matches)(db[0]) then [db[0]] else [];
    }
  }

  lemma FoundIsHit(s: Session, ix: seq<IndexRow>, configId: string, matches: IndexRow -> bool)
    requires RowsOf(ix, s.id) == [IndexOf(s)]
    ensures |Filter(ix, Found(s, configId, matches))| == if Hit(configId, matches)(s) then 1 else 0
  {
    var p := Found(s, configId, matches);
    FilterFilter(ix, Of(s.id), p);
    FilterAll(Filter(ix, p), Of(s.id));
    assert Filter([IndexOf(s)], p) == if p(IndexOf(s)) then [IndexOf(s)] else [];
  }

  lemma LimitKeepsOrder(rows: Table, limit: int, offset: nat)
    requires Distinct(rows) && NewestFirst(rows)
    ensures Distinct(Limit(rows, limit, offset)) && NewestFirst(Limit(rows, limit, offset))
  {
    if limit >= 0 && offset <= |rows| {
      PageIsSlice(rows, offset, limit);
    }
  }

  // ---------- Every run since the migration ----------

  datatype Statement = Create(row: Session, p: nat) | Upsert(row: Session, p: nat) | DeleteIds(ids: set<string>)

  // A new row goes to a place its timestamp allows; saving a stored row leaves its timestamp alone.
  ghost predicate Allowed(db: Table, st: Statement) {
    match st
    case Create(row, p) => p <= |db| && !HasId(db, row.id) && NewestFirst(Insert(db, p, row))
    case Upsert(row, p) =>
      p <= |db| && if HasId(db, row.id) then KeepsTimestamp(db, row) else NewestFirst(Insert(db, p, row))
    case DeleteIds(_) => true
  }

  ghost predicate KeepsTimestamp(db: Table, row: Session) {
    forall i :: 0 <= i < |db| && db[i].id == row.id ==> db[i].timestamp == row.timestamp
  }

  lemma SameTimestamps(db: Table, k: nat, row: Session)
    requires Distinct(db) && NewestFirst(db) && k < |db| && db[k].id == row.id && db[k].timestamp == row.timestamp
    ensures NewestFirst(db[k := row])
  {
  }

  lemma UpdateKeepsAll(db: Table, ix: seq<IndexRow>, k: nat, row: Session)
    requires Distinct(db) && NewestFirst(db) && Agree(db, ix)
    requires k < |db| && db[k].id == row.id && db[k].timestamp == row.timestamp
    ensures Replace(db, row) == db[k := row] && Distinct(db[k := row]) && NewestFirst(db[k := row])
    ensures Agree(db[k := row], AfterUpdate(ix, db[k], row))
  {
    SameTimestamps(db, k, row);
    UpdateAgreesIff(db, ix, k, row);
    ReplaceIsUpdate(db, k, row);
  }

  lemma ReplaceNewestFirst(db: Table, row: Session)
    requires NewestFirst(db) && KeepsTimestamp(db, row)
    ensures NewestFirst(Replace(db, row))
  {
    assert forall i :: 0 <= i < |db| ==> Replace(db, row)[i].timestamp == db[i].timestamp;
  }

  lemma StatementKeepsOrder(t: Tables, st: Statement)
    requires NewestFirst(t.db) && Allowed(t.db, st)
    ensures NewestFirst(Execute(t, st).db)
  {
    match st
    case Create(_, _) =>
    case Upsert(row, _) => if HasId(t.db, row.id) { ReplaceNewestFirst(t.db, row); }
    case DeleteIds(ids) => FilterNewestFirst(t.db, NotIn(ids));
  }

  lemma {:induction false} OrderIsKept(t: Tables, sts: seq<Statement>)
    requires NewestFirst(t.db) && AllAllowed(t, sts)
    ensures NewestFirst(ExecuteAll(t, sts).db)
    decreases |sts|
  {
    if sts != [] {
      StatementKeepsOrder(t, sts[0]);
      OrderIsKept(Execute(t, sts[0]), sts[1..]);
    }
  }

  datatype Tables = Tables(db: Table, ix: seq<IndexRow>)

  ghost function PositionOf(db: Table, id: string): (k: nat)
    requires HasId(db, id)
    ensures k < |db| && db[k].id == id
  {
    var k :| 0 <= k < |db| && db[k].id == id; k
  }

  ghost function FireDeletes(ix: seq<IndexRow>, victims: Table): seq<IndexRow>
    decreases |victims|
  {
    if victims == [] then ix else FireDeletes(AfterDelete(ix, victims[0]), victims[1..])
  }

  ghost function Execute(t: Tables, st: Statement): Tables
    requires Allowed(t.db, st)
  {
    match st
    case Create(row, p) => Tables(Insert(t.db, p, row), AfterInsert(t.ix, row))
    case Upsert(row, p) =>
      if HasId(t.db, row.id) then
        Tables(Replace(t.db, row), AfterUpdate(t.ix, t.db[PositionOf(t.db, row.id)], row))
      else Tables(Insert(t.db, p, row), AfterInsert(t.ix, row))
    case DeleteIds(ids) =>
      Tables(Delete(t.db, ids), FireDeletes(t.ix, Filter(t.db, IsIn(ids))))
  }

  ghost predicate AllAllowed(t: Tables, sts: seq<Statement>)
    decreases |sts|
  {
    sts == [] || (Allowed(t.db, sts[0]) && AllAllowed(Execute(t, sts[0]), sts[1..]))
  }

  ghost function ExecuteAll(t: Tables, sts: seq<Statement>): Tables
    requires AllAllowed(t, sts)
    decreases |sts|
  {
    if sts == [] then t else ExecuteAll(Execute(t, sts[0]), sts[1..])
  }

  lemma {:induction false} DeletesAgree(db: Table, ix: seq<IndexRow>, victims: Table)
    requires Agree(db, ix)
    ensures Agree(Delete(db, IdsOf(victims)), FireDeletes(ix, victims))
    decreases |victims|
  {
    if victims == [] {
      DeleteNothing(db);
    } else {
      DeleteAgrees(db, ix, victims[0]);
      DeletesAgree(Delete(db, {victims[0].id}), AfterDelete(ix, victims[0]), victims[1..]);
      DeleteFirst(db, victims);
    }
  }

  lemma StatementAgrees(t: Tables, st: Statement)
    requires Distinct(t.db) && Agree(t.db, t.ix) && Allowed(t.db, st)
    ensures Distinct(Execute(t, st).db) && Agree(Execute(t, st).db, Execute(t, st).ix)
  {
    match st
    case Create(row, p) =>
      InsertAgrees(t.db, t.ix, row, p);
      SaveDistinct(t.db, p, row);
    case Upsert(row, p) =>
      SaveDistinct(t.db, p, row);
      if HasId(t.db, row.id) {
        var k := PositionOf(t.db, row.id);
        UpdateAgreesIff(t.db, t.ix, k, row);
        ReplaceIsUpdate(t.db, k, row);
      } else {
        InsertAgrees(t.db, t.ix, row, p);
      }
    case DeleteIds(ids) =>
      DeletesAgree(t.db, t.ix, Filter(t.db, IsIn(ids)));
      SameVictims(t.db, ids);
      FilterDistinct(t.db, NotIn(ids));
  }

  lemma {:induction false} IndexAlwaysAgrees(t: Tables, sts: seq<Statement>)
    requires Distinct(t.db) && Agree(t.db, t.ix) && AllAllowed(t, sts)
    ensures Distinct(ExecuteAll(t, sts).db) && Agree(ExecuteAll(t, sts).db, ExecuteAll(t, sts).ix)
    decreases |sts|
  {
    if sts != [] {
      StatementAgrees(t, sts[0]);
      IndexAlwaysAgrees(Execute(t, sts[0]), sts[1..]);
    }
  }

  // From the migration on, a search is a filter of the base table, newest first and without duplicates.
  lemma SearchAfterAnyRun(existing: Table, sts: seq<Statement>, configId: string, matches: IndexRow -> bool, limit: int, offset: nat)
    requires Distinct(existing) && NewestFirst(existing) && AllAllowed(Tables(existing, Populate(existing)), sts)
    ensures var t := ExecuteAll(Tables(existing, Populate(existing)), sts);
      && SearchSessions(t.db, t.ix, configId, matches, limit, offset)
         == Limit(Filter(t.db, Hit(configId, matches)), limit, offset)
      && Distinct(SearchSessions(t.db, t.ix, configId, matches, limit, offset))
      && NewestFirst(SearchSessions(t.db, t.ix, configId, matches, limit, offset))
  {
    PopulateAgrees(existing);
    OrderIsKept(Tables(existing, Populate(existing)), sts);
    IndexAlwaysAgrees(Tables(existing, Populate(existing)), sts);
    var t := ExecuteAll(Tables(existing, Populate(existing)), sts);
    SearchIsFilter(t.db, t.ix, configId, matches);
    FilterDistinct(t.db, Hit(configId, matches));
    FilterNewestFirst(t.db, Hit(configId, matches));
    LimitKeepsOrder(Filter(t.db, Hit(configId, matches)), limit, offset);
  }
}
