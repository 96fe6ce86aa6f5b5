/**
 Bookmarks: copies of sessions with a note and tags of their own, and their
 full-text index, whose update trigger touches those two columns only.  An
 update of a bookmark reads the row and saves it back in two statements.
 */
module Bookmarks {
  import opened Lists
  import opened Options
  import opened SessionDb
  import SessionIndex

  // `copy` holds every column copied from the session.
  datatype Bookmark = Bookmark(id: string, note: string, tags: string, createdAt: int,
                               copy: Session, configSourcePath: string, configJson: string)

  datatype IndexRow = IndexRow(bookmarkId: string, note: string, tags: string, fields: SessionIndex.Fields)

  // Listed as queries read them: newest created_at first, ties in one fixed order.
  type Shelf = seq<Bookmark>

  predicate HasBookmark(t: Shelf, id: string) {
    exists b :: b in t && b.id == id
  }

  ghost predicate Tidy(t: Shelf) {
    forall i, j :: 0 <= i < j < |t| ==> t[i].id != t[j].id && t[i].createdAt >= t[j].createdAt
  }

  // Re-indexing the whole row.
  function IndexOf(b: Bookmark): IndexRow {
    IndexRow(b.id, b.note, b.tags, SessionIndex.Project(b.copy))
  }

  // ---------- The triggers ----------

  function AfterInsert(ix: seq<IndexRow>, b: Bookmark): seq<IndexRow> {
    ix + [IndexOf(b)]
  }

  function UpdateRow(f: IndexRow, before: Bookmark, b: Bookmark): IndexRow {
    if f.bookmarkId == before.id then f.(note := b.note, tags := b.tags) else f
  }

  function AfterUpdate(ix: seq<IndexRow>, before: Bookmark, b: Bookmark): seq<IndexRow> {
    if ix == [] then [] else [UpdateRow(ix[0], before, b)] + AfterUpdate(ix[1..], before, b)
  }

  function Other(id: string): IndexRow -> bool {
    (f: IndexRow) => f.bookmarkId != id
  }

  function AfterDelete(ix: seq<IndexRow>, before: Bookmark): seq<IndexRow> {
    Filter(ix, Other(before.id))
  }

  // The partial update re-indexes the row exactly when neither its key nor any
  // other indexed column changed.
  lemma PartialUpdateIff(before: Bookmark, b: Bookmark)
    ensures UpdateRow(IndexOf(before), before, b) == IndexOf(b)
        <==> b.id == before.id && SessionIndex.Project(b.copy) == SessionIndex.Project(before.copy)
  {
  }

  // ---------- Agreement of table and index ----------

  function Of(id: string): IndexRow -> bool {
    (f: IndexRow) => f.bookmarkId == id
  }

  function RowsOf(ix: seq<IndexRow>, id: string): seq<IndexRow> {
    Filter(ix, Of(id))
  }

  // Each bookmark's index rows are its whole-row projection, once, and there are no others.
  ghost predicate Agree(t: Shelf, ix: seq<IndexRow>) {
    && (forall b :: b in t ==> RowsOf(ix, b.id) == [IndexOf(b)])
    && (forall f :: f in ix ==> HasBookmark(t, f.bookmarkId))
  }

  lemma NoRowsOf(t: Shelf, ix: seq<IndexRow>, id: string)
    requires Agree(t, ix) && !HasBookmark(t, id)
    ensures RowsOf(ix, id) == []
  {
    FilterNone(ix, Of(id));
  }

  function InsertAt(t: Shelf, p: nat, b: Bookmark): (r: Shelf)
    requires p <= |t|
    ensures |r| == |t| + 1
    ensures forall i :: 0 <= i < |r| ==> r[i] == if i < p then t[i] else if i == p then b else t[i - 1]
  {
    t[..p] + [b] + t[p..]
  }

  lemma InInserted(t: Shelf, p: nat, b: Bookmark, x: Bookmark)
    requires p <= |t|
    ensures x in InsertAt(t, p, b) <==> x in t || x == b
  {
    assert t == t[..p] + t[p..];
  }

  function ReplaceRow(t: Shelf, b: Bookmark): (r: Shelf)
    ensures |r| == |t| && forall i :: 0 <= i < |t| ==> r[i] == if t[i].id == b.id then b else t[i]
  {
    if t == [] then [] else [if t[0].id == b.id then b else t[0]] + ReplaceRow(t[1..], b)
  }

  function NotId(id: string): Bookmark -> bool {
    (b: Bookmark) => b.id != id
  }

  lemma InsertAgrees(t: Shelf, ix: seq<IndexRow>, p: nat, b: Bookmark)
    requires Agree(t, ix) && p <= |t| && !HasBookmark(t, b.id)
    ensures Agree(InsertAt(t, p, b), AfterInsert(ix, b))
  {
    var t', ix' := InsertAt(t, p, b), AfterInsert(ix, b);
    forall x | x in t' ensures RowsOf(ix', x.id) == [IndexOf(x)] {
      InInserted(t, p, b, x);
      FilterConcat(ix, [IndexOf(b)], Of(x.id));
      NoRowsOf(t, ix, b.id);
    }
    forall f | f in ix' ensures HasBookmark(t', f.bookmarkId) {
      if f in ix {
        var x :| x in t && x.id == f.bookmarkId;
        InInserted(t, p, b, x);
      } else {
        InInserted(t, p, b, b);
      }
    }
  }

  lemma {:induction false} RowsAfterUpdate(ix: seq<IndexRow>, before: Bookmark, b: Bookmark, id: string)
    ensures RowsOf(AfterUpdate(ix, before, b), id) == AfterUpdate(RowsOf(ix, id), before, b)
  {
    if ix != [] {
      RowsAfterUpdate(ix[1..], before, b, id);
      var head, rest := UpdateRow(ix[0], before, b), RowsOf(ix[1..], id);
      FilterConcat([head], AfterUpdate(ix[1..], before, b), Of(id));
      if ix[0].bookmarkId == id {
        assert RowsOf(ix, id) == [ix[0]] + rest && ([ix[0]] + rest)[1..] == rest;
      } else {
        assert RowsOf(ix, id) == rest;
      }
    }
  }

  lemma {:induction false} OthersStay(ix: seq<IndexRow>, before: Bookmark, b: Bookmark)
    requires forall f :: f in ix ==> f.bookmarkId != before.id
    ensures AfterUpdate(ix, before, b) == ix
  {
    if ix != [] {
      OthersStay(ix[1..], before, b);
    }
  }

  lemma {:induction false} KeysStay(ix: seq<IndexRow>, before: Bookmark, b: Bookmark, f: IndexRow) returns (was: IndexRow)
    requires f in AfterUpdate(ix, before, b)
    ensures was in ix && was.bookmarkId == f.bookmarkId
  {
    if f == UpdateRow(ix[0], before, b) {
      was := ix[0];
    } else {
      was := KeysStay(ix[1..], before, b, f);
    }
  }

  lemma UpdatedRow(t: Shelf, ix: seq<IndexRow>, before: Bookmark, b: Bookmark, x: Bookmark)
    requires Agree(t, ix) && before in t && b.id == before.id && b.copy == before.copy
    requires if x.id == b.id then x == b else x in t
    ensures RowsOf(AfterUpdate(ix, before, b), x.id) == [IndexOf(x)]
  {
    RowsAfterUpdate(ix, before, b, x.id);
    if x.id == b.id {
      PartialUpdateIff(before, b);
      assert RowsOf(ix, b.id) == [IndexOf(before)];
    } else {
      OthersStay(RowsOf(ix, x.id), before, b);
    }
  }

  lemma UpdateAgrees(t: Shelf, ix: seq<IndexRow>, before: Bookmark, b: Bookmark)
    requires Agree(t, ix) && before in t
    requires b.id == before.id && b.copy == before.copy
    ensures Agree(ReplaceRow(t, b), AfterUpdate(ix, before, b))
  {
    var t', ix' := ReplaceRow(t, b), AfterUpdate(ix, before, b);
    forall x | x in t' ensures RowsOf(ix', x.id) == [IndexOf(x)] {
      InReplaced(t, b, x);
      UpdatedRow(t, ix, before, b, x);
    }
    forall f | f in ix' ensures HasBookmark(t', f.bookmarkId) {
      var was := KeysStay(ix, before, b, f);
      ReplacedHas(t, b, was.bookmarkId);
    }
  }

  lemma InReplaced(t: Shelf, b: Bookmark, x: Bookmark)
    requires x in ReplaceRow(t, b)
    ensures if x.id == b.id then x == b else x in t
  {
    var t' := ReplaceRow(t, b);
    var i :| 0 <= i < |t'| && t'[i] == x;
    assert t[i] in t;
  }

  lemma ReplacedHas(t: Shelf, b: Bookmark, id: string)
    requires HasBookmark(t, id)
    ensures HasBookmark(ReplaceRow(t, b), id)
  {
    var x :| x in t && x.id == id;
    var i :| 0 <= i < |t| && t[i] == x;
    assert ReplaceRow(t, b)[i] in ReplaceRow(t, b) && ReplaceRow(t, b)[i].id == id;
  }

  lemma DeleteAgrees(t: Shelf, ix: seq<IndexRow>, before: Bookmark)
    requires Agree(t, ix)
    ensures Agree(Filter(t, NotId(before.id)), AfterDelete(ix, before))
  {
    var t', ix' := Filter(t, NotId(before.id)), AfterDelete(ix, before);
    forall x | x in t' ensures RowsOf(ix', x.id) == [IndexOf(x)] {
      FilterFilter(ix, Other(before.id), Of(x.id));
      FilterAll(RowsOf(ix, x.id), Other(before.id));
    }
    forall f | f in ix' ensures HasBookmark(t', f.bookmarkId) {
      var x :| x in t && x.id == f.bookmarkId;
      assert x in t';
    }
  }

  // ---------- The order of the table ----------

  // A place for a row of this age; ties are open.
  ghost predicate Fits(t: Shelf, p: nat, createdAt: int) {
    && p <= |t|
    && (forall i :: 0 <= i < p ==> t[i].createdAt >= createdAt)
    && (forall i :: p <= i < |t| ==> t[i].createdAt <= createdAt)
  }

  lemma {:induction false} FitsSomewhere(t: Shelf, createdAt: int) returns (p: nat)
    requires Tidy(t)
    ensures Fits(t, p, createdAt)
  {
    if t == [] || t[0].createdAt < createdAt {
      p := 0;
    } else {
      var q := FitsSomewhere(t[1..], createdAt);
      p := q + 1;
      assert forall i :: 0 < i < |t| ==> t[i] == t[1..][i - 1];
    }
  }

  lemma InsertTidy(t: Shelf, p: nat, b: Bookmark)
    requires Tidy(t) && Fits(t, p, b.createdAt) && !HasBookmark(t, b.id)
    ensures Tidy(InsertAt(t, p, b))
  {
    assert forall i :: 0 <= i < |t| ==> t[i] in t && t[i].id != b.id;
  }

  lemma ReplaceTidy(t: Shelf, before: Bookmark, b: Bookmark)
    requires Tidy(t) && before in t && b.id == before.id && b.createdAt == before.createdAt
    ensures Tidy(ReplaceRow(t, b))
  {
    var t' := ReplaceRow(t, b);
    forall i | 0 <= i < |t| ensures t'[i].id == t[i].id && t'[i].createdAt == t[i].createdAt {
      var k :| 0 <= k < |t| && t[k] == before;
    }
  }

  lemma {:induction false} FilterTidy(t: Shelf, p: Bookmark -> bool)
    requires Tidy(t)
    ensures Tidy(Filter(t, p))
  {
    if t != [] {
      FilterTidy(t[1..], p);
      var f := Filter(t[1..], p);
      forall i | 0 <= i < |f| ensures f[i].id != t[0].id && f[i].createdAt <= t[0].createdAt {
        assert f[i] in t[1..];
        var k :| 0 <= k < |t[1..]| && t[1..][k] == f[i];
        assert f[i] == t[k + 1];
      }
    }
  }

  // ---------- The operations ----------

  function WithMetadata(b: Bookmark, note: string, tags: string): Bookmark {
    b.(note := note, tags := tags)
  }

  // `configs` holds source path and JSON of each stored config.
  function NewBookmark(id: string, s: Session, createdAt: int, configs: map<string, (string, string)>): Bookmark {
    var c := if s.configId != "" && s.configId in configs then configs[s.configId] else ("", "");
    Bookmark(id, "", "", createdAt, s, c.0, c.1)
  }

  // SELECT ... WHERE id = ? LIMIT 1
  function First(t: Shelf, id: string): (r: Option<Bookmark>)
    ensures r.Some? <==> HasBookmark(t, id)
    ensures r.Some? ==> r.value in t && r.value.id == id
  {
    if t == [] then None else if t[0].id == id then Some(t[0])
    else
      var r := First(t[1..], id);
      assert forall b :: b in t && b.id == id ==> b in t[1..];
      r
  }

  function FirstSession(db: Table, id: string): (r: Option<Session>)
    ensures r.Some? <==> exists s :: s in db && s.id == id
    ensures r.Some? ==> r.value in db && r.value.id == id
  {
    if db == [] then None else if db[0].id == id then Some(db[0])
    else
      var r := FirstSession(db[1..], id);
      assert forall s :: s in db && s.id == id ==> s in db[1..];
      r
  }

  function DropAt(held: seq<Bookmark>, h: nat): (r: seq<Bookmark>)
    requires h < |held|
    ensures forall b :: b in r ==> b in held
  {
    held[..h] + held[h + 1..]
  }

  // Table, index, and the row copies that updates in progress hold between their
  // read and their save.  `origin` records each bookmark as it was created.
  datatype Store = Store(table: Shelf, fts: seq<IndexRow>, held: seq<Bookmark>, origin: map<string, Bookmark>)

  datatype Step =
    // CreateBookmark against the sessions and configs of that moment, with a fresh id
    | Create(sessions: Table, configs: map<string, (string, string)>, sessionId: string, id: string, createdAt: int, p: nat)
    | Fetch(id: string)                                     // UpdateBookmarkMetadata reads the row ...
    | SaveHeld(h: nat, note: string, tags: string, p: nat)  // ... and saves the copy it holds
    | Remove(id: string)                                    // DeleteBookmark

  ghost predicate CanStep(s: Store, step: Step) {
    match step
    case Create(_, _, _, id, createdAt, p) => id !in s.origin && Fits(s.table, p, createdAt)
    case SaveHeld(h, _, _, p) => h < |s.held| && Fits(s.table, p, s.held[h].createdAt)
    case _ => true
  }

  // Save is an upsert: a bookmark deleted since it was read comes back.
  function Upserted(s: Store, b: Bookmark, p: nat): Store
    requires p <= |s.table|
  {
    var before := First(s.table, b.id);
    if before.Some? then s.(table := ReplaceRow(s.table, b), fts := AfterUpdate(s.fts, before.value, b))
    else s.(table := InsertAt(s.table, p, b), fts := AfterInsert(s.fts, b))
  }

  function Removed(s: Store, id: string): Store {
    var before := First(s.table, id);
    if before.None? then s
    else s.(table := Filter(s.table, NotId(id)), fts := AfterDelete(s.fts, before.value))
  }

  function Next(s: Store, step: Step): Store
    requires CanStep(s, step)
  {
    match step
    case Create(sessions, configs, sessionId, id, createdAt, p) =>
      var found := FirstSession(sessions, sessionId);
      if found.None? then s
      else
        var b := NewBookmark(id, found.value, createdAt, configs);
        s.(table := InsertAt(s.table, p, b), fts := AfterInsert(s.fts, b), origin := s.origin[id := b])
    case Fetch(id) =>
      var found := First(s.table, id);
      if found.None? then s else s.(held := s.held + [found.value])
    case SaveHeld(h, note, tags, p) =>
      Upserted(s, WithMetadata(s.held[h], note, tags), p).(held := DropAt(s.held, h))
    case Remove(id) => Removed(s, id)
  }

  // Everything but the metadata is as at creation.
  ghost predicate AsCreated(origin: map<string, Bookmark>, b: Bookmark) {
    b.id in origin && WithMetadata(b, "", "") == origin[b.id]
  }

  ghost predicate AllAsCreated(origin: map<string, Bookmark>, t: seq<Bookmark>) {
    forall b :: b in t ==> AsCreated(origin, b)
  }

  ghost predicate Inv(s: Store) {
    Tidy(s.table) && Agree(s.table, s.fts) && AllAsCreated(s.origin, s.table) && AllAsCreated(s.origin, s.held)
  }

  lemma CreateKeepsInv(s: Store, step: Step)
    requires Inv(s) && CanStep(s, step) && step.Create?
    ensures Inv(Next(s, step))
  {
    var s', found := Next(s, step), FirstSession(step.sessions, step.sessionId);
    if found.Some? {
      var b := NewBookmark(step.id, found.value, step.createdAt, step.configs);
      assert !HasBookmark(s.table, step.id);
      InsertTidy(s.table, step.p, b);
      InsertAgrees(s.table, s.fts, step.p, b);
      forall x | x in s'.table ensures AsCreated(s'.origin, x) {
        InInserted(s.table, step.p, b, x);
      }
    }
  }

  lemma ReplaceKeepsInv(s: Store, b: Bookmark, before: Bookmark)
    requires Inv(s) && AsCreated(s.origin, b) && before in s.table && before.id == b.id
    ensures Inv(s.(table := ReplaceRow(s.table, b), fts := AfterUpdate(s.fts, before, b)))
  {
    assert AsCreated(s.origin, before);
    assert before.createdAt == WithMetadata(before, "", "").createdAt;
    assert b.createdAt == WithMetadata(b, "", "").createdAt;
    ReplaceTidy(s.table, before, b);
    UpdateAgrees(s.table, s.fts, before, b);
    forall x | x in ReplaceRow(s.table, b) ensures AsCreated(s.origin, x) {
      InReplaced(s.table, b, x);
    }
  }

  lemma InsertKeepsInv(s: Store, b: Bookmark, p: nat)
    requires Inv(s) && AsCreated(s.origin, b) && Fits(s.table, p, b.createdAt) && !HasBookmark(s.table, b.id)
    ensures Inv(s.(table := InsertAt(s.table, p, b), fts := AfterInsert(s.fts, b)))
  {
    InsertTidy(s.table, p, b);
    InsertAgrees(s.table, s.fts, p, b);
    forall x | x in InsertAt(s.table, p, b) ensures AsCreated(s.origin, x) {
      InInserted(s.table, p, b, x);
    }
  }

  lemma UpsertKeepsInv(s: Store, b: Bookmark, p: nat)
    requires Inv(s) && AsCreated(s.origin, b) && Fits(s.table, p, b.createdAt)
    ensures Inv(Upserted(s, b, p))
  {
    var before := First(s.table, b.id);
    if before.Some? {
      ReplaceKeepsInv(s, b, before.value);
    } else {
      InsertKeepsInv(s, b, p);
    }
  }

  lemma RemoveKeepsInv(s: Store, id: string)
    requires Inv(s)
    ensures Inv(Removed(s, id))
  {
    var before := First(s.table, id);
    if before.Some? {
      FilterTidy(s.table, NotId(id));
      DeleteAgrees(s.table, s.fts, before.value);
    }
  }

  lemma {:induction false} StepKeepsInv(s: Store, step: Step)
    requires Inv(s) && CanStep(s, step)
    ensures Inv(Next(s, step))
  {
    match step
    case Create(_, _, _, _, _, _) => CreateKeepsInv(s, step);
    case Fetch(id) =>
    case SaveHeld(h, note, tags, p) =>
      assert AsCreated(s.origin, s.held[h]);
      UpsertKeepsInv(s, WithMetadata(s.held[h], note, tags), p);
    case Remove(id) => RemoveKeepsInv(s, id);
  }

  // ---------- Every run ----------

  datatype Outcome = At(store: Store) | Blocked

  ghost function After(steps: seq<Step>): Outcome {
    if steps == [] then At(Store([], [], [], map[]))
    else
      var o, step := After(steps[..|steps| - 1]), steps[|steps| - 1];
      if o.At? && CanStep(o.store, step) then At(Next(o.store, step)) else Blocked
  }

  lemma {:induction false} RunKeepsInv(steps: seq<Step>)
    requires After(steps).At?
    ensures Inv(After(steps).store)
  {
    if steps != [] {
      RunKeepsInv(steps[..|steps| - 1]);
      StepKeepsInv(After(steps[..|steps| - 1]).store, steps[|steps| - 1]);
    }
  }

  // Step k created bookmark b from the session that was in the table then.
  ghost predicate CreatedBy(steps: seq<Step>, k: nat, b: Bookmark) {
    && k < |steps| && steps[k].Create? && steps[k].id == b.id
    && b.copy in steps[k].sessions && b.copy.id == steps[k].sessionId
  }

  lemma {:induction false} OriginIsCreation(steps: seq<Step>, id: string) returns (k: nat)
    requires After(steps).At? && id in After(steps).store.origin
    ensures CreatedBy(steps, k, After(steps).store.origin[id])
  {
    var front, step := steps[..|steps| - 1], steps[|steps| - 1];
    var s := After(front).store;
    if id in s.origin {
      k := OriginIsCreation(front, id);
      assert steps[k] == front[k];
    } else {
      k := |steps| - 1;
    }
  }

  // Over every run, whatever is finished, reaped or deleted meanwhile: a bookmark's
  // copied columns are the session's at the moment of creation, and updating only
  // note and tags has left the index equal to a whole re-indexing.
  lemma SnapshotAndIndex(steps: seq<Step>, b: Bookmark) returns (k: nat)
    requires After(steps).At? && b in After(steps).store.table
    ensures CreatedBy(steps, k, b)
    ensures RowsOf(After(steps).store.fts, b.id) == [IndexRow(b.id, b.note, b.tags, SessionIndex.Project(b.copy))]
  {
    RunKeepsInv(steps);
    assert AsCreated(After(steps).store.origin, b);
    k := OriginIsCreation(steps, b.id);
  }

  // ---------- Queries ----------

  // The WHERE clauses: config_id = ?, and id IN (SELECT bookmark_id ... MATCH ?).
  function Listed(configId: string, matches: Option<IndexRow -> bool>, ix: seq<IndexRow>): Bookmark -> bool {
    (b: Bookmark) =>
      && (configId != "" ==> b.copy.configId == configId)
      && (matches.Some? ==> exists f :: f in ix && f.bookmarkId == b.id && matches.value(f))
  }

  // What they are for: the bookmark's own row matches.
  function Wanted(configId: string, matches: Option<IndexRow -> bool>): Bookmark -> bool {
    (b: Bookmark) =>
      (configId != "" ==> b.copy.configId == configId) && (matches.Some? ==> matches.value(IndexOf(b)))
  }

  lemma {:induction false} SameFilter(t: Shelf, p: Bookmark -> bool, q: Bookmark -> bool)
    requires forall b :: b in t ==> p(b) == q(b)
    ensures Filter(t, p) == Filter(t, q)
  {
    if t != [] {
      SameFilter(t[1..], p, q);
    }
  }

  lemma ListedIsWanted(t: Shelf, ix: seq<IndexRow>, configId: string, matches: Option<IndexRow -> bool>)
    requires Agree(t, ix)
    ensures Filter(t, Listed(configId, matches, ix)) == Filter(t, Wanted(configId, matches))
  {
    forall b | b in t ensures Listed(configId, matches, ix)(b) == Wanted(configId, matches)(b) {
      assert RowsOf(ix, b.id) == [IndexOf(b)];
      assert IndexOf(b) in RowsOf(ix, b.id);
      forall f | f in ix && f.bookmarkId == b.id ensures f == IndexOf(b) {
        assert f in RowsOf(ix, b.id);
      }
    }
    SameFilter(t, Listed(configId, matches, ix), Wanted(configId, matches));
  }

  // The row that was read, with this note and these tags, is stored, and no other row changed.
  ghost predicate IsSaved(before: Shelf, after: Shelf, read: Bookmark, note: string, tags: string) {
    && (exists b :: b in after && b == Bookmark(read.id, note, tags, read.createdAt, read.copy, read.configSourcePath, read.configJson))
    && (forall b: Bookmark :: b.id == read.id && b in after ==> b.note == note && b.tags == tags)
    && (forall b: Bookmark :: b.id != read.id ==> (b in after <==> b in before))
  }

  lemma SavedRow(s: Store, h: nat, note: string, tags: string, p: nat)
    requires h < |s.held| && p <= |s.table|
    ensures IsSaved(s.table, Upserted(s, WithMetadata(s.held[h], note, tags), p).table, s.held[h], note, tags)
  {
    var b := WithMetadata(s.held[h], note, tags);
    var t := Upserted(s, b, p).table;
    if HasBookmark(s.table, b.id) {
      SavedOver(s.table, b);
    } else {
      forall x ensures x in t <==> x in s.table || x == b { InInserted(s.table, p, b, x); }
    }
    assert b in t;
  }

  lemma SavedOver(t: Shelf, b: Bookmark)
    requires HasBookmark(t, b.id)
    ensures forall x :: x in ReplaceRow(t, b) <==> x == b || (x in t && x.id != b.id)
  {
    var t' := ReplaceRow(t, b);
    forall x | x in t && (x.id != b.id || x == b) ensures x in t' {
      var i :| 0 <= i < |t| && t[i] == x;
      assert t'[i] == x;
    }
    forall x | x in t' ensures x == b || (x in t && x.id != b.id) { InReplaced(t, b, x); }
    var x :| x in t && x.id == b.id;
    var i :| 0 <= i < |t| && t[i] == x;
    assert t'[i] == b;
  }

  lemma RemovedRow(t: Shelf, id: string)
    ensures var rest := if First(t, id).Some? then Filter(t, NotId(id)) else t;
      Kept(t, rest, (b: Bookmark) => b.id != id) && !HasBookmark(rest, id)
  {
    FilterKeeps(t, NotId(id), (b: Bookmark) => b.id != id);
    if First(t, id).None? { FilterAll(t, NotId(id)); }
  }

  // A copy of the stored session of this id and of what its configuration was, without note and tags.
  ghost predicate IsSnapshot(b: Bookmark, sessions: Table, configs: map<string, (string, string)>, sessionId: string, createdAt: int) {
    && b.copy in sessions && b.copy.id == sessionId && b.createdAt == createdAt && b.note == "" && b.tags == ""
    && if b.copy.configId == "" || b.copy.configId !in configs then b.configSourcePath == "" && b.configJson == ""
       else (b.configSourcePath, b.configJson) == configs[b.copy.configId]
  }

  // ---------- The store as an object ----------

  class BookmarkStore {
    var table: Shelf
    var fts: seq<IndexRow>
    var held: seq<Bookmark>
    ghost var origin: map<string, Bookmark>

    ghost function Model(): Store
      reads this
    {
      Store(table, fts, held, origin)
    }

    ghost predicate Valid()
      reads this
    {
      Inv(Model())
    }

    constructor ()
      ensures Valid() && Model() == Store([], [], [], map[])
    {
      table, fts, held, origin := [], [], [], map[];
    }

    method CreateBookmark(sessions: Table, configs: map<string, (string, string)>, sessionId: string,
                          id: string, createdAt: int, p: nat) returns (created: Option<Bookmark>)
      requires Valid() && CanStep(Model(), Create(sessions, configs, sessionId, id, createdAt, p))
      modifies this
      ensures Valid() && Model() == Next(old(Model()), Create(sessions, configs, sessionId, id, createdAt, p))
      ensures created.Some? <==> exists s :: s in sessions && s.id == sessionId
      ensures created.Some? ==> created.value in table && created.value.id == id
      ensures created.Some? ==> IsSnapshot(created.value, sessions, configs, sessionId, createdAt)
      ensures forall b :: b in table <==> b in old(table) || created == Some(b)
    {
      StepKeepsInv(Model(), Create(sessions, configs, sessionId, id, createdAt, p));
      var found := FirstSession(sessions, sessionId);
      if found.None? { return None; }
      var b := NewBookmark(id, found.value, createdAt, configs);
      forall x ensures x in InsertAt(table, p, b) <==> x in table || x == b { InInserted(table, p, b, x); }
      table, fts := InsertAt(table, p, b), AfterInsert(fts, b);
      origin := origin[id := b];
      return Some(b);
    }

    method FetchForUpdate(id: string) returns (found: bool)
      requires Valid()
      modifies this`held
      ensures Valid() && Model() == Next(old(Model()), Fetch(id))
      ensures found <==> HasBookmark(table, id)
      ensures if found then exists b :: b in table && b.id == id && held == old(held) + [b] else held == old(held)
    {
      StepKeepsInv(Model(), Fetch(id));
      var row := First(table, id);
      if row.Some? { held := held + [row.value]; }
      found := row.Some?;
    }

    // GORM's Save.
    method Save(b: Bookmark, p: nat)
      requires p <= |table|
      modifies this`table, this`fts
      ensures Model() == Upserted(old(Model()), b, p)
    {
      var before := First(table, b.id);
      if before.Some? {
        table, fts := ReplaceRow(table, b), AfterUpdate(fts, before.value, b);
      } else {
        table, fts := InsertAt(table, p, b), AfterInsert(fts, b);
      }
    }

    method SaveUpdate(h: nat, note: string, tags: string, p: nat)
      requires Valid() && CanStep(Model(), SaveHeld(h, note, tags, p))
      modifies this
      ensures Valid() && Model() == Next(old(Model()), SaveHeld(h, note, tags, p))
      ensures IsSaved(old(table), table, old(held)[h], note, tags) && held == old(held)[..h] + old(held)[h + 1..]
    {
      SavedRow(Model(), h, note, tags, p);
      StepKeepsInv(Model(), SaveHeld(h, note, tags, p));
      SaveRow(h, note, tags, p);
    }

    // The two fields are set and the row is saved.
    method SaveRow(h: nat, note: string, tags: string, p: nat)
      requires h < |held| && p <= |table|
      modifies this
      ensures Model() == Upserted(old(Model()), WithMetadata(old(held)[h], note, tags), p).(held := DropAt(old(held), h))
    {
      Save(WithMetadata(held[h], note, tags), p);
      held := DropAt(held, h);
    }

    method DeleteBookmark(id: string)
      requires Valid()
      modifies this`table, this`fts
      ensures Valid() && Model() == Next(old(Model()), Remove(id))
      ensures !HasBookmark(table, id) && Kept(old(table), table, (b: Bookmark) => b.id != id)
    {
      StepKeepsInv(Model(), Remove(id));
      RemovedRow(table, id);
      DeleteRow(id);
    }

    method DeleteRow(id: string)
      modifies this`table, this`fts
      ensures Model() == Removed(old(Model()), id)
    {
      var before := First(table, id);
      if before.Some? {
        table, fts := Filter(table, NotId(id)), AfterDelete(fts, before.value);
      }
    }

    // GetBookmarks: by config when one is given, by MATCH when a query is given.
    method GetBookmarks(configId: string, matches: Option<IndexRow -> bool>, limit: nat, offset: nat)
      returns (page: Shelf, total: nat)
      requires Valid()
      ensures var hits := Filter(table, Wanted(configId, matches));
        && Kept(table, hits, (b: Bookmark) => (configId == "" || b.copy.configId == configId) && (matches.None? || matches.value(IndexOf(b))))
        && Tidy(hits) && total == |hits| && page == Page(hits, offset, limit)
    {
      FilterKeeps(table, Wanted(configId, matches),
                  (b: Bookmark) => (configId == "" || b.copy.configId == configId) && (matches.None? || matches.value(IndexOf(b))));
      var hits := Filter(table, Listed(configId, matches, fts));
      ListedIsWanted(table, fts, configId, matches);
      FilterTidy(table, Wanted(configId, matches));
      total := |hits|;
      page := Page(hits, offset, limit);
    }
  }
}
