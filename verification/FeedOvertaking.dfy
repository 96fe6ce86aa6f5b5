/** A run of the code in which two announcements change places on their way to the page. */
module FeedOvertaking {
  import opened Lists
  import opened Options
  import opened SessionDb
  import opened Feed
  import opened FeedCoverage
  import opened FeedFirstPage
  import opened FeedGaps
  import opened FeedNewestFirst
  import opened FeedOrder

  // Two requests begin one after the other, and the second is announced first.  With nothing
  // left to publish or receive, the list shows the older session in front of the newer one.
  lemma OvertakingBreaksOrder(q: Query, a: Session, b: Session)
    requires a.id != b.id && IsPending(a) && IsPending(b) && Matches(q, a) && Matches(q, b)
    ensures var s0 := System([], map[], {}, [], [], Ui([], 0, false, None), 0);
      var o := After(q, s0, [FetchPage, Start(a, 0), Start(b, 0), Publish(1), Publish(0), Arrive, Arrive]);
      && Opening(s0) && Grounded(q, s0) && o.At?
      && o.sys.inbox == [] && o.sys.outbox == [] && o.sys.ui.page.Some?
      && View(o.sys.db, q) == [b, a] && o.sys.ui.list == Stubs([a, b]) && !IsPrefixOf(o.sys.ui.list, View(o.sys.db, q))
  {
    var s0 := System([], map[], {}, [], [], Ui([], 0, false, None), 0);
    GroundedAtFirst(q, s0);
    UpToPublish(q, a, b, [Publish(0), Arrive, Arrive]);
    FromPublish(q, a, b);
    assert [FetchPage, Start(a, 0), Start(b, 0), Publish(1)] + [Publish(0), Arrive, Arrive]
        == [FetchPage, Start(a, 0), Start(b, 0), Publish(1), Publish(0), Arrive, Arrive];
  }

  lemma GroundedAtFirst(q: Query, s0: System)
    requires s0 == System([], map[], {}, [], [], Ui([], 0, false, None), 0)
    ensures Opening(s0) && Grounded(q, s0)
  {
    assert TailAt(s0.db, s0.selected, 0);
  }

  // The state once the second announcement has been published.
  ghost function SecondFirst(a: Session, b: Session): System {
    System([b, a], map[a.id := a][b.id := b], {}, [NewSession(StubOf(a))], [NewSession(StubOf(b))],
           Ui([], 0, false, Some(0)), LIMIT)
  }

  lemma UpToPublish(q: Query, a: Session, b: Session, more: seq<Step>)
    requires a.id != b.id && IsPending(a) && IsPending(b)
    ensures After(q, System([], map[], {}, [], [], Ui([], 0, false, None), 0),
                  [FetchPage, Start(a, 0), Start(b, 0), Publish(1)] + more)
         == After(q, SecondFirst(a, b), more)
  {
    var ui, na, nb := Ui([], 0, false, Some(0)), NewSession(StubOf(a)), NewSession(StubOf(b));
    var s0 := System([], map[], {}, [], [], Ui([], 0, false, None), 0);
    var s1 := System([], map[], {}, [], [], ui, LIMIT);
    var s2 := System([a], map[a.id := a], {}, [na], [], ui, LIMIT);
    var s3 := System([b, a], map[a.id := a][b.id := b], {}, [na, nb], [], ui, LIMIT);
    assert Stubs(RecentSessions([], q, LIMIT, 0)) == [];
    assert Next(q, s0, FetchPage) == s1;
    assert Insert([], 0, a) == [a];
    assert Next(q, s1, Start(a, 0)) == s2;
    assert Insert([a], 0, b) == [b, a];
    assert Next(q, s2, Start(b, 0)) == s3;
    assert [na, nb][..1] + [na, nb][2..] == [na];
    assert Next(q, s3, Publish(1)) == SecondFirst(a, b);
    FourSteps(q, s0, s1, s2, s3, FetchPage, Start(a, 0), Start(b, 0), Publish(1), more);
  }

  lemma FromPublish(q: Query, a: Session, b: Session)
    requires a.id != b.id && Matches(q, a) && Matches(q, b)
    ensures var o := After(q, SecondFirst(a, b), [Publish(0), Arrive, Arrive]);
      && o.At? && o.sys.inbox == [] && o.sys.outbox == [] && o.sys.ui.page.Some?
      && View(o.sys.db, q) == [b, a] && o.sys.ui.list == Stubs([a, b]) && !IsPrefixOf(o.sys.ui.list, View(o.sys.db, q))
  {
    var open, ui, na, nb := map[a.id := a][b.id := b], Ui([], 0, false, Some(0)), NewSession(StubOf(a)), NewSession(StubOf(b));
    var t0 := SecondFirst(a, b);
    var t1 := System([b, a], open, {}, [], [nb, na], ui, LIMIT);
    var t2 := System([b, a], open, {}, [], [na], ui.(list := [StubOf(b)]), LIMIT);
    var t3 := System([b, a], open, {}, [], [], ui.(list := [StubOf(a), StubOf(b)]), LIMIT);
    assert Next(q, t0, Publish(0)) == t1;
    assert [nb, na][1..] == [na] && MergeSession([], StubOf(b)) == [StubOf(b)];
    assert Next(q, t1, Arrive) == t2;
    assert MergeSession([StubOf(b)], StubOf(a)) == [StubOf(a), StubOf(b)];
    assert Next(q, t2, Arrive) == t3;
    TwoSteps(q, t0, t1, Publish(0), Arrive, [Arrive]);
    AfterCons(q, t2, Arrive, []);
    assert [Publish(0), Arrive] + [Arrive] == [Publish(0), Arrive, Arrive] && [Arrive] + [] == [Arrive];
    WrongWayRound(q, a, b);
  }

  lemma WrongWayRound(q: Query, a: Session, b: Session)
    requires a.id != b.id && Matches(q, a) && Matches(q, b)
    ensures View([b, a], q) == [b, a] && [StubOf(a), StubOf(b)] == Stubs([a, b]) && !IsPrefixOf(Stubs([a, b]), [b, a])
  {
    FilterAll([b, a], Matching(q));
    assert Stubs([a, b])[0] == StubOf(a) && Stubs([b, a][..2])[0] == StubOf(b);
  }
}
