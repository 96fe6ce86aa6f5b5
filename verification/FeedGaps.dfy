/** Two runs of the code that leave a gap in the feed, one for each condition on a step. */
module FeedGaps {
  import opened Lists
  import opened Options
  import opened SessionDb
  import opened Feed
  import opened FeedCoverage

  // The list lacks session i of the first `merged`, with nothing left to publish or receive.
  ghost predicate HasGap(q: Query, s: System, i: nat) {
    && s.inbox == [] && s.outbox == [] && i < |View(s.db, q)| && i < s.merged
    && !HasStub(s.ui.list, View(s.db, q)[i].id)
  }

  // ---------- A page fetched at an unsettled moment ----------

  // A reap selects the oldest of LIMIT rows; an older session is stored and announced; the
  // first page is fetched and replaces the list; the reap completes.  The older session is
  // now among the first LIMIT, and the list lacks it.
  lemma UnsettledFetchLeavesGap(q: Query, db: Table, b: Session)
    requires Distinct(db) && |db| == LIMIT && !HasId(db, b.id) && IsPending(b)
    requires Matches(q, b) && forall x :: x in db ==> Matches(q, x)
    ensures var s0 := System(db, map[], {}, [], [], Ui([], 0, false, None), 0);
      var o := After(q, s0, [ReapSelect(1), Start(b, LIMIT), Publish(0), Arrive, FetchPage, ReapDelete, Publish(0), Arrive]);
      Opening(s0) && o.At? && HasGap(q, o.sys, LIMIT - 1)
  {
    var s0 := System(db, map[], {}, [], [], Ui([], 0, false, None), 0);
    UpToArrive(q, db, b, [FetchPage, ReapDelete, Publish(0), Arrive]);
    FromFetch(q, db, b);
    assert [ReapSelect(1), Start(b, LIMIT), Publish(0), Arrive] + [FetchPage, ReapDelete, Publish(0), Arrive]
        == [ReapSelect(1), Start(b, LIMIT), Publish(0), Arrive, FetchPage, ReapDelete, Publish(0), Arrive];
  }

  // The state once the older session has been received.
  ghost function Arrived(db: Table, b: Session): System
    requires |db| == LIMIT
  {
    System(db + [b], map[b.id := b], {db[LIMIT - 1].id}, [], [], Ui([StubOf(b)], 0, false, None), 0)
  }

  lemma UpToArrive(q: Query, db: Table, b: Session, more: seq<Step>)
    requires |db| == LIMIT && !HasId(db, b.id) && IsPending(b) && b.configId == q.configId
    ensures After(q, System(db, map[], {}, [], [], Ui([], 0, false, None), 0),
                  [ReapSelect(1), Start(b, LIMIT), Publish(0), Arrive] + more)
         == After(q, Arrived(db, b), more)
  {
    var ids, ui, n := {db[LIMIT - 1].id}, Ui([], 0, false, None), NewSession(StubOf(b));
    var s0 := System(db, map[], {}, [], [], ui, 0);
    var s1 := System(db, map[], ids, [], [], ui, 0);
    var s2 := System(db + [b], map[b.id := b], ids, [n], [], ui, 0);
    var s3 := System(db + [b], map[b.id := b], ids, [], [n], ui, 0);
    assert Oldest(db, 1) == [db[LIMIT - 1]] && IdsOf([db[LIMIT - 1]]) == ids;
    assert Next(q, s0, ReapSelect(1)) == s1;
    assert Insert(db, LIMIT, b) == db + [b];
    assert Next(q, s1, Start(b, LIMIT)) == s2;
    assert Next(q, s2, Publish(0)) == s3;
    assert MergeSession([], StubOf(b)) == [StubOf(b)];
    assert Next(q, s3, Arrive) == Arrived(db, b);
    FourSteps(q, s0, s1, s2, s3, ReapSelect(1), Start(b, LIMIT), Publish(0), Arrive, more);
  }

  lemma FourSteps(q: Query, s0: System, s1: System, s2: System, s3: System, a: Step, b: Step, c: Step, d: Step, more: seq<Step>)
    requires CanStep(s0, a) && s1 == Next(q, s0, a) && CanStep(s1, b) && s2 == Next(q, s1, b)
    requires CanStep(s2, c) && s3 == Next(q, s2, c) && CanStep(s3, d)
    ensures After(q, s0, [a, b, c, d] + more) == After(q, Next(q, s3, d), more)
  {
    TwoSteps(q, s0, s1, a, b, [c, d] + more);
    TwoSteps(q, s2, s3, c, d, more);
    Four(a, b, c, d, more);
  }

  lemma Four(a: Step, b: Step, c: Step, d: Step, more: seq<Step>)
    ensures [a, b] + ([c, d] + more) == [a, b, c, d] + more
  {
  }

  lemma TwoSteps(q: Query, s0: System, s1: System, a: Step, b: Step, more: seq<Step>)
    requires CanStep(s0, a) && s1 == Next(q, s0, a) && CanStep(s1, b)
    ensures After(q, s0, [a, b] + more) == After(q, Next(q, s1, b), more)
  {
    AfterCons(q, s0, a, [b] + more);
    AfterCons(q, s1, b, more);
    Two(a, b, more);
  }

  lemma Two(a: Step, b: Step, more: seq<Step>)
    ensures [a] + ([b] + more) == [a, b] + more
  {
  }

  lemma FromFetch(q: Query, db: Table, b: Session)
    requires Distinct(db) && |db| == LIMIT && !HasId(db, b.id)
    requires Matches(q, b) && forall x :: x in db ==> Matches(q, x)
    ensures var o := After(q, Arrived(db, b), [FetchPage, ReapDelete, Publish(0), Arrive]);
      o.At? && HasGap(q, o.sys, LIMIT - 1)
  {
    var open, ids, ui := map[b.id := b], {db[LIMIT - 1].id}, Ui(Stubs(db), 0, false, Some(LIMIT));
    var left := db[..LIMIT - 1] + [b];
    var t0 := Arrived(db, b);
    var t1 := System(db + [b], open, ids, [], [], ui, LIMIT);
    var t2 := System(left, open, {}, [DeleteSession(ids)], [], ui, LIMIT);
    var t3 := System(left, open, {}, [], [DeleteSession(ids)], ui, LIMIT);
    FirstPageOf(q, db, b);
    assert Next(q, t0, FetchPage) == t1;
    LeftByReap(q, db, b);
    assert Next(q, t1, ReapDelete) == t2;
    assert Next(q, t2, Publish(0)) == t3;
    FourSteps(q, t0, t1, t2, t3, FetchPage, ReapDelete, Publish(0), Arrive, []);
    assert [FetchPage, ReapDelete, Publish(0), Arrive] + [] == [FetchPage, ReapDelete, Publish(0), Arrive];
    NeverListed(db, ids, b.id);
  }

  lemma FirstPageOf(q: Query, db: Table, b: Session)
    requires |db| == LIMIT && Matches(q, b) && forall x :: x in db ==> Matches(q, x)
    ensures RecentSessions(db + [b], q, LIMIT, 0) == db
  {
    FilterAll(db + [b], Matching(q));
    assert (db + [b])[0..LIMIT] == db;
  }

  lemma LeftByReap(q: Query, db: Table, b: Session)
    requires Distinct(db) && |db| == LIMIT && !HasId(db, b.id)
    requires Matches(q, b) && forall x :: x in db ==> Matches(q, x)
    ensures Delete(db + [b], {db[LIMIT - 1].id}) == db[..LIMIT - 1] + [b]
    ensures View(db[..LIMIT - 1] + [b], q) == db[..LIMIT - 1] + [b]
  {
    var ids, front := {db[LIMIT - 1].id}, db[..LIMIT - 1];
    assert db[LIMIT - 1..] == [db[LIMIT - 1]] && IdsOf([db[LIMIT - 1]]) == ids;
    DeleteOldest(db, LIMIT - 1);
    FilterConcat(db, [b], NotIn(ids));
    FilterAll(front + [b], Matching(q));
  }

  lemma NeverListed(db: Table, ids: set<string>, id: string)
    requires !HasId(db, id)
    ensures !HasStub(Filter(Stubs(db), StubNotIn(ids)), id)
  {
    FilteredStub(Stubs(db), StubNotIn(ids), id);
    assert forall x :: x in Stubs(db) ==> x.id != id;
  }

  // ---------- A deletion published late ----------

  // The one stored session is still open when the reaper deletes its row; it finishes, so its
  // row is stored again and announced; only then is the deletion published.  The server has
  // the session and the list does not.
  lemma LateDeletionLeavesGap(q: Query, x: Session, r: Response)
    requires Matches(q, x)
    ensures var s0 := System([x], map[x.id := x], {}, [], [], Ui([], 0, false, None), 0);
      var o := After(q, s0, [FetchPage, ReapSelect(1), ReapDelete, Finish(x.id, r, 0), Publish(1), Publish(0), Arrive, Arrive]);
      Opening(s0) && o.At? && HasGap(q, o.sys, 0)
  {
    UpToFinish(q, x, r, [Publish(1), Publish(0), Arrive, Arrive]);
    FromFinish(q, x, r);
    assert [FetchPage, ReapSelect(1), ReapDelete, Finish(x.id, r, 0)] + [Publish(1), Publish(0), Arrive, Arrive]
        == [FetchPage, ReapSelect(1), ReapDelete, Finish(x.id, r, 0), Publish(1), Publish(0), Arrive, Arrive];
  }

  // The state once the session is stored again.
  ghost function StoredAgain(x: Session, r: Response): System {
    System([Finished(x, r)], map[], {}, [DeleteSession({x.id}), NewSession(StubOf(Finished(x, r)))], [],
           Ui([StubOf(x)], 0, false, Some(1)), LIMIT)
  }

  lemma UpToFinish(q: Query, x: Session, r: Response, more: seq<Step>)
    requires Matches(q, x)
    ensures After(q, System([x], map[x.id := x], {}, [], [], Ui([], 0, false, None), 0),
                  [FetchPage, ReapSelect(1), ReapDelete, Finish(x.id, r, 0)] + more)
         == After(q, StoredAgain(x, r), more)
  {
    var open, ids, ui := map[x.id := x], {x.id}, Ui([StubOf(x)], 0, false, Some(1));
    var s0 := System([x], open, {}, [], [], Ui([], 0, false, None), 0);
    var s1 := System([x], open, {}, [], [], ui, LIMIT);
    var s2 := System([x], open, ids, [], [], ui, LIMIT);
    var s3 := System([], open, {}, [DeleteSession(ids)], [], ui, LIMIT);
    FetchOnly(q, x);
    SelectOnly(q, x);
    assert Delete([x], ids) == [];
    assert Next(q, s2, ReapDelete) == s3;
    FinishAgain(q, x, r);
    FourSteps(q, s0, s1, s2, s3, FetchPage, ReapSelect(1), ReapDelete, Finish(x.id, r, 0), more);
  }

  lemma FetchOnly(q: Query, x: Session)
    requires Matches(q, x)
    ensures var open := map[x.id := x];
      Next(q, System([x], open, {}, [], [], Ui([], 0, false, None), 0), FetchPage)
      == System([x], open, {}, [], [], Ui([StubOf(x)], 0, false, Some(1)), LIMIT)
  {
    OnlyRow(q, x);
  }

  lemma OnlyRow(q: Query, x: Session)
    requires Matches(q, x)
    ensures Stubs(RecentSessions([x], q, LIMIT, 0)) == [StubOf(x)]
  {
    FilterAll([x], Matching(q));
    assert [x][0..] == [x];
  }

  lemma SelectOnly(q: Query, x: Session)
    ensures var open, ui := map[x.id := x], Ui([StubOf(x)], 0, false, Some(1));
      Next(q, System([x], open, {}, [], [], ui, LIMIT), ReapSelect(1)) == System([x], open, {x.id}, [], [], ui, LIMIT)
  {
    assert Oldest([x], 1) == [x];
    OnlyId(x);
  }

  lemma OnlyId(x: Session)
    ensures IdsOf([x]) == {x.id}
  {
    assert [x][0] == x;
  }

  lemma FinishAgain(q: Query, x: Session, r: Response)
    ensures var s3 := System([], map[x.id := x], {}, [DeleteSession({x.id})], [], Ui([StubOf(x)], 0, false, Some(1)), LIMIT);
      Next(q, s3, Finish(x.id, r, 0)) == StoredAgain(x, r)
  {
    assert map[x.id := x] - {x.id} == map[] && Insert([], 0, Finished(x, r)) == [Finished(x, r)];
  }

  lemma FromFinish(q: Query, x: Session, r: Response)
    requires Matches(q, x)
    ensures var o := After(q, StoredAgain(x, r), [Publish(1), Publish(0), Arrive, Arrive]);
      o.At? && HasGap(q, o.sys, 0)
  {
    var gone, new' := DeleteSession({x.id}), NewSession(StubOf(Finished(x, r)));
    var db, ui := [Finished(x, r)], Ui([StubOf(x)], 0, false, Some(1));
    var t0 := StoredAgain(x, r);
    var t1 := System(db, map[], {}, [gone], [new'], ui, LIMIT);
    var t2 := System(db, map[], {}, [], [new', gone], ui, LIMIT);
    var t3 := System(db, map[], {}, [], [gone], ui.(list := [StubOf(Finished(x, r))]), LIMIT);
    assert Next(q, t0, Publish(1)) == t1;
    assert Next(q, t1, Publish(0)) == t2;
    assert [new', gone][1..] == [gone] && MergeSession([StubOf(x)], new'.stub) == [new'.stub];
    assert Next(q, t2, Arrive) == t3;
    assert Filter([new'.stub], StubNotIn({x.id})) == [];
    FourSteps(q, t0, t1, t2, t3, Publish(1), Publish(0), Arrive, Arrive, []);
    assert [Publish(1), Publish(0), Arrive, Arrive] + [] == [Publish(1), Publish(0), Arrive, Arrive];
    assert View(db, q) == db;
  }
}
