/**
 A notification that is published ahead of earlier ones.  Moving it to the front of what is
 still to come leaves the list to come as it was exactly when it shows no older content,
 passes no session that has yet to enter the list, and deletes before nothing that is
 announced after it.
 */
module FeedTurns {
  import opened Lists
  import opened Options
  import opened SessionDb
  import opened Feed
  import opened FeedFirstPage

  // ---------- Ids entering a list at its front ----------

  function Enter(ids: seq<string>, x: string): seq<string> {
    if x in ids then ids else [x] + ids
  }

  function EnterAll(ids: seq<string>, news: seq<string>): seq<string>
    decreases |news|
  {
    if news == [] then ids else EnterAll(Enter(ids, news[0]), news[1..])
  }

  ghost predicate DistinctIds(ids: seq<string>) {
    forall i, j :: 0 <= i < j < |ids| ==> ids[i] != ids[j]
  }

  ghost predicate Before(ids: seq<string>, a: string, b: string) {
    exists i, j :: 0 <= i < j < |ids| && ids[i] == a && ids[j] == b
  }

  lemma {:induction false} EnterAllConcat(ids: seq<string>, a: seq<string>, b: seq<string>)
    ensures EnterAll(ids, a + b) == EnterAll(EnterAll(ids, a), b)
    decreases |a|
  {
    if a == [] {
      assert a + b == b;
    } else {
      assert (a + b)[1..] == a[1..] + b;
      EnterAllConcat(Enter(ids, a[0]), a[1..], b);
    }
  }

  lemma EnterBefore(ids: seq<string>, x: string, a: string, b: string)
    requires Before(ids, a, b)
    ensures Before(Enter(ids, x), a, b)
  {
    var i, j :| 0 <= i < j < |ids| && ids[i] == a && ids[j] == b;
    if x !in ids {
      assert ([x] + ids)[i + 1] == a && ([x] + ids)[j + 1] == b;
    }
  }

  lemma {:induction false} EnterAllBefore(ids: seq<string>, news: seq<string>, a: string, b: string)
    requires Before(ids, a, b)
    ensures Before(EnterAll(ids, news), a, b)
    decreases |news|
  {
    if news != [] {
      EnterBefore(ids, news[0], a, b);
      EnterAllBefore(Enter(ids, news[0]), news[1..], a, b);
    }
  }

  lemma {:induction false} EnterAllKeeps(ids: seq<string>, news: seq<string>)
    requires DistinctIds(ids)
    ensures DistinctIds(EnterAll(ids, news))
    ensures forall x :: x in ids ==> x in EnterAll(ids, news)
    decreases |news|
  {
    if news != [] {
      EnterAllKeeps(Enter(ids, news[0]), news[1..]);
    }
  }

  // Who enters later stands in front.
  lemma LaterInFront(ids: seq<string>, x: string, a: string)
    requires a in ids && x !in ids
    ensures Before(Enter(ids, x), x, a)
  {
    var i :| 0 <= i < |ids| && ids[i] == a;
    assert ([x] + ids)[0] == x && ([x] + ids)[i + 1] == a;
  }

  lemma {:induction false} LaterOnesInFront(ids: seq<string>, news: seq<string>, x: string, a: string)
    requires a in ids && x !in ids
    ensures Before(Enter(EnterAll(ids, news), x), x, a)
    decreases |news|
  {
    if news == [] {
      LaterInFront(ids, x, a);
    } else if news[0] == x {
      LaterInFront(ids, x, a);
      EnterAllBefore(Enter(ids, x), news[1..], x, a);
      EnterBefore(EnterAll(Enter(ids, x), news[1..]), x, x, a);
    } else {
      LaterOnesInFront(Enter(ids, news[0]), news[1..], x, a);
    }
  }

  lemma NotBothWays(ids: seq<string>, a: string, b: string)
    requires DistinctIds(ids) && Before(ids, a, b)
    ensures !Before(ids, b, a)
  {
    var i, j :| 0 <= i < j < |ids| && ids[i] == a && ids[j] == b;
  }

  // Everyone passed, up to x itself, was in the list already.
  predicate Clear(ids: seq<string>, x: string, passed: seq<string>) {
    passed == [] || passed[0] == x || (passed[0] in ids && Clear(ids, x, passed[1..]))
  }

  // Entering x before those passed instead of after them makes no difference exactly when x was in
  // the list or nobody else entered.
  lemma {:induction false} EarlierEntryIff(ids: seq<string>, x: string, passed: seq<string>, rest: seq<string>)
    requires DistinctIds(ids)
    ensures EnterAll(EnterAll(Enter(ids, x), passed), rest) == EnterAll(Enter(EnterAll(ids, passed), x), rest)
        <==> x in ids || Clear(ids, x, passed)
    decreases |passed|
  {
    if x in ids {
      EnterAllKeeps(ids, passed);
    } else if passed == [] {
    } else if passed[0] == x {
      EnterAllKeeps([x] + ids, passed[1..]);
    } else if passed[0] in ids {
      EarlierEntryIff(ids, x, passed[1..], rest);
    } else {
      EntersTooEarly(ids, x, passed[0], passed[1..], rest);
    }
  }

  lemma EntersTooEarly(ids: seq<string>, x: string, a: string, passed: seq<string>, rest: seq<string>)
    requires DistinctIds(ids) && x !in ids && a !in ids && a != x
    ensures EnterAll(EnterAll(Enter(ids, x), [a] + passed), rest) != EnterAll(Enter(EnterAll(ids, [a] + passed), x), rest)
  {
    assert ([a] + passed)[1..] == passed;
    LaterInFront([x] + ids, a, x);
    EnterAllBefore([a] + ([x] + ids), passed, a, x);
    EnterAllBefore(EnterAll([a] + ([x] + ids), passed), rest, a, x);
    EnterAllKeeps([a] + ([x] + ids), passed);
    EnterAllKeeps(EnterAll([a] + ([x] + ids), passed), rest);
    NotBothWays(EnterAll(EnterAll([a] + ([x] + ids), passed), rest), a, x);
    LaterOnesInFront([a] + ids, passed, x, a);
    EnterAllBefore(Enter(EnterAll([a] + ids, passed), x), rest, x, a);
  }

  // ---------- The ids of stored sessions, among those shown ----------

  function ShownIds(list: seq<Stub>, stored: set<string>): seq<string> {
    if list == [] then []
    else (if list[0].id in stored then [list[0].id] else []) + ShownIds(list[1..], stored)
  }

  function NewsIds(configId: string, pending: seq<Notification>, stored: set<string>): seq<string> {
    if pending == [] then []
    else
      var n := pending[0];
      (if n.NewSession? && n.stub.configId == configId && n.stub.id in stored then [n.stub.id] else [])
      + NewsIds(configId, pending[1..], stored)
  }

  lemma {:induction false} NewsIdsConcat(configId: string, a: seq<Notification>, b: seq<Notification>, stored: set<string>)
    ensures NewsIds(configId, a + b, stored) == NewsIds(configId, a, stored) + NewsIds(configId, b, stored)
  {
    if a == [] {
      assert a + b == b;
    } else {
      assert (a + b)[1..] == a[1..] + b;
      NewsIdsConcat(configId, a[1..], b, stored);
    }
  }

  lemma {:induction false} ShownIdsOf(list: seq<Stub>, stored: set<string>, x: string)
    ensures x in ShownIds(list, stored) <==> x in stored && HasStub(list, x)
  {
    if list != [] {
      ShownIdsOf(list[1..], stored, x);
      assert HasStub(list[1..], x) ==> HasStub(list, x);
      if HasStub(list, x) && list[0].id != x {
        var i :| 0 <= i < |list| && list[i].id == x;
        assert list[1..][i - 1].id == x;
      }
    }
  }

  lemma {:induction false} ShownIdsDistinct(list: seq<Stub>, stored: set<string>)
    requires DistinctStubs(list)
    ensures DistinctIds(ShownIds(list, stored))
  {
    if list != [] {
      ShownIdsDistinct(list[1..], stored);
      ShownIdsOf(list[1..], stored, list[0].id);
    }
  }

  lemma {:induction false} ShownIdsSame(xs: seq<Stub>, ys: seq<Stub>, stored: set<string>)
    requires SameIds(xs, ys)
    ensures ShownIds(xs, stored) == ShownIds(ys, stored)
  {
    if xs != [] {
      ShownIdsSame(xs[1..], ys[1..], stored);
    }
  }

  lemma {:induction false} ShownIdsKept(list: seq<Stub>, p: Stub -> bool, stored: set<string>)
    requires forall x :: x in list && x.id in stored ==> p(x)
    ensures ShownIds(Filter(list, p), stored) == ShownIds(list, stored)
  {
    if list != [] {
      assert list[0] in list;
      ShownIdsKept(list[1..], p, stored);
      if p(list[0]) {
        assert ([list[0]] + Filter(list[1..], p))[1..] == Filter(list[1..], p);
      } else {
        assert Filter(list, p) == Filter(list[1..], p);
      }
    }
  }

  lemma {:induction false} AllStored(list: seq<Stub>, stored: set<string>)
    requires forall x :: x in list ==> x.id in stored
    ensures |ShownIds(list, stored)| == |list|
    ensures forall i :: 0 <= i < |list| ==> ShownIds(list, stored)[i] == list[i].id
  {
    if list != [] {
      assert list[0] in list;
      AllStored(list[1..], stored);
    }
  }

  // No deletion still to come names a stored session.
  ghost predicate Unnamed(stored: set<string>, pending: seq<Notification>) {
    forall n :: n in pending && n.DeleteSession? ==> n.ids !! stored
  }

  lemma MergeEnters(list: seq<Stub>, s: Stub, stored: set<string>)
    ensures ShownIds(MergeSession(list, s), stored)
         == if s.id in stored then Enter(ShownIds(list, stored), s.id) else ShownIds(list, stored)
  {
    var k := FindIndex(list, s.id);
    ShownIdsOf(list, stored, s.id);
    if k > -1 {
      ShownIdsSame(list[k := s], list, stored);
    } else {
      assert ([s] + list)[1..] == list;
    }
  }

  lemma ReceiveEnters(configId: string, list: seq<Stub>, n: Notification, stored: set<string>)
    requires n.DeleteSession? ==> n.ids !! stored
    ensures ShownIds(Receive(configId, list, n), stored) == EnterAll(ShownIds(list, stored), NewsIds(configId, [n], stored))
  {
    match n
    case NewSession(s) => MergeEnters(list, s, stored);
    case DeleteSession(ids) => ShownIdsKept(list, StubNotIn(ids), stored);
  }

  lemma {:induction false} ReceiveAllEnters(configId: string, list: seq<Stub>, pending: seq<Notification>, stored: set<string>)
    requires Unnamed(stored, pending)
    ensures ShownIds(ReceiveAll(configId, list, pending), stored)
         == EnterAll(ShownIds(list, stored), NewsIds(configId, pending, stored))
    decreases |pending|
  {
    if pending != [] {
      assert pending[0] in pending;
      ReceiveEnters(configId, list, pending[0], stored);
      ReceiveAllEnters(configId, Receive(configId, list, pending[0]), pending[1..], stored);
      assert pending == [pending[0]] + pending[1..];
      NewsIdsConcat(configId, [pending[0]], pending[1..], stored);
      EnterAllConcat(ShownIds(list, stored), NewsIds(configId, [pending[0]], stored), NewsIds(configId, pending[1..], stored));
    }
  }

  // ---------- What is shown, and when, over a concatenation ----------

  lemma {:induction false} ReceiveAllConcat(configId: string, list: seq<Stub>, a: seq<Notification>, b: seq<Notification>)
    ensures ReceiveAll(configId, list, a + b) == ReceiveAll(configId, ReceiveAll(configId, list, a), b)
    decreases |a|
  {
    if a == [] {
      assert a + b == b;
    } else {
      assert (a + b)[1..] == a[1..] + b;
      ReceiveAllConcat(configId, Receive(configId, list, a[0]), a[1..], b);
    }
  }

  lemma {:induction false} PresentConcat(configId: string, id: string, a: seq<Notification>, b: seq<Notification>, shown: bool)
    ensures Present(configId, id, a + b, shown) == Present(configId, id, b, Present(configId, id, a, shown))
    decreases |a|
  {
    if a == [] {
      assert a + b == b;
    } else {
      assert (a + b)[1..] == a[1..] + b;
      PresentConcat(configId, id, a[1..], b, PresentOne(configId, id, a[0], shown));
    }
  }

  lemma {:induction false} LatestConcat(configId: string, id: string, a: seq<Notification>, b: seq<Notification>)
    ensures Latest(configId, id, a + b) ==
      if Latest(configId, id, b).Some? then Latest(configId, id, b) else Latest(configId, id, a)
    decreases |a|
  {
    if a == [] {
      assert a + b == b;
    } else {
      assert (a + b)[1..] == a[1..] + b;
      LatestConcat(configId, id, a[1..], b);
    }
  }

  lemma {:induction false} ReceiveAllDistinct(configId: string, list: seq<Stub>, pending: seq<Notification>)
    requires DistinctStubs(list)
    ensures DistinctStubs(ReceiveAll(configId, list, pending))
    decreases |pending|
  {
    if pending != [] {
      ReceiveDistinct(configId, list, pending[0]);
      ReceiveAllDistinct(configId, Receive(configId, list, pending[0]), pending[1..]);
    }
  }

  lemma ReceivedRow(configId: string, list: seq<Stub>, n: Notification, x: Stub)
    requires DistinctStubs(list) && x in Receive(configId, list, n)
    ensures if IsNews(n, configId, x.id) then x == n.stub else x in list
  {
    match n
    case NewSession(s) =>
      if s.configId == configId {
        MergeUpdates(list, s);
        if HasStub(list, s.id) {
          var i :| 0 <= i < |list| && Updated(list, s)[i] == x;
          assert list[i] in list;
        }
      }
    case DeleteSession(ids) =>
  }

  // A row shown is what was announced last, or was there from the start.
  lemma {:induction false} ShownAsAnnounced(configId: string, list: seq<Stub>, pending: seq<Notification>, x: Stub)
    requires DistinctStubs(list) && x in ReceiveAll(configId, list, pending)
    ensures Latest(configId, x.id, pending) == Some(x) || (Latest(configId, x.id, pending) == None && x in list)
    decreases |pending|
  {
    if pending != [] {
      var list' := Receive(configId, list, pending[0]);
      ReceiveDistinct(configId, list, pending[0]);
      ShownAsAnnounced(configId, list', pending[1..], x);
      if Latest(configId, x.id, pending[1..]) == None {
        ReceivedRow(configId, list, pending[0], x);
      }
    }
  }

  // The last announcement of each stored session says what is stored.
  ghost predicate Current(configId: string, v: Table, pending: seq<Notification>) {
    forall i :: 0 <= i < |v| ==> Latest(configId, v[i].id, pending) in {None, Some(StubOf(v[i]))}
  }

  ghost predicate SameNewsOf(configId: string, pending: seq<Notification>, pending': seq<Notification>) {
    forall id :: Latest(configId, id, pending).None? <==> Latest(configId, id, pending').None?
  }

  // Two orders of the same notifications that show the same ids in the same order.
  lemma SameShown(configId: string, list: seq<Stub>, v: Table, pending: seq<Notification>, pending': seq<Notification>)
    requires DistinctStubs(list) && SameNewsOf(configId, pending, pending')
    requires Current(configId, v, pending) && Current(configId, v, pending')
    requires IsPrefixOf(ReceiveAll(configId, list, pending), v)
    requires SameIds(ReceiveAll(configId, list, pending), ReceiveAll(configId, list, pending'))
    ensures ReceiveAll(configId, list, pending) == ReceiveAll(configId, list, pending')
  {
    var a, b := ReceiveAll(configId, list, pending), ReceiveAll(configId, list, pending');
    forall i | 0 <= i < |a| ensures a[i] == b[i] {
      assert a[i] in a && b[i] in b && a[i] == StubOf(v[i]);
      ShownAsAnnounced(configId, list, pending, a[i]);
      ShownAsAnnounced(configId, list, pending', b[i]);
      assert Latest(configId, a[i].id, pending).None? <==> Latest(configId, a[i].id, pending').None?;
    }
  }

  // ---------- One notification ahead of others ----------

  // Announced again later, or not differently by those it overtakes.
  ghost predicate KeepsContent(configId: string, stub: Stub, earlier: seq<Notification>, later: seq<Notification>) {
    Latest(configId, stub.id, later).Some? || Latest(configId, stub.id, earlier) in {None, Some(stub)}
  }

  ghost predicate AnnouncedBefore(configId: string, x: string, pending: seq<Notification>, j: nat) {
    exists i :: 0 <= i < j && i < |pending| && IsNews(pending[i], configId, x)
  }

  // pending[j] announces a stored session other than x, and x is not announced before it.
  ghost predicate Overtaken(configId: string, x: string, pending: seq<Notification>, j: nat, stored: set<string>) {
    && j < |pending| && pending[j].NewSession? && pending[j].stub.configId == configId
    && pending[j].stub.id in stored && pending[j].stub.id != x && !AnnouncedBefore(configId, x, pending, j)
  }

  // By the time it is received x is listed, or every stored session that it overtakes is.
  ghost predicate KeepsPlace(configId: string, base: seq<Stub>, x: string, earlier: seq<Notification>, stored: set<string>) {
    HasStub(base, x) ||
    forall j: nat :: Overtaken(configId, x, earlier, j, stored) ==> HasStub(base, earlier[j].stub.id)
  }

  // A session it deletes that one of those it overtakes announces is deleted again, later.
  ghost predicate KeepsDeleted(configId: string, ids: set<string>, earlier: seq<Notification>, later: seq<Notification>) {
    forall x :: x in ids && Present(configId, x, earlier, false) ==> !Present(configId, x, later, true)
  }

  lemma AnnouncedShift(configId: string, x: string, pending: seq<Notification>, j: nat)
    requires pending != [] && !IsNews(pending[0], configId, x) && j < |pending|
    ensures AnnouncedBefore(configId, x, pending, j + 1) <==> AnnouncedBefore(configId, x, pending[1..], j)
  {
    if AnnouncedBefore(configId, x, pending, j + 1) {
      var i :| 0 <= i < j + 1 && i < |pending| && IsNews(pending[i], configId, x);
      assert pending[1..][i - 1] == pending[i];
    }
    if AnnouncedBefore(configId, x, pending[1..], j) {
      var i :| 0 <= i < j && i < |pending[1..]| && IsNews(pending[1..][i], configId, x);
      assert pending[i + 1] == pending[1..][i];
    }
  }

  ghost predicate AllPassedIn(configId: string, ids: seq<string>, x: string, earlier: seq<Notification>, stored: set<string>) {
    forall j: nat :: Overtaken(configId, x, earlier, j, stored) ==> earlier[j].stub.id in ids
  }

  lemma PassedRest(configId: string, ids: seq<string>, x: string, earlier: seq<Notification>, stored: set<string>)
    requires earlier != [] && !IsNews(earlier[0], configId, x)
    ensures AllPassedIn(configId, ids, x, earlier, stored) <==>
      (Overtaken(configId, x, earlier, 0, stored) ==> earlier[0].stub.id in ids) && AllPassedIn(configId, ids, x, earlier[1..], stored)
  {
    forall j: nat | j < |earlier| - 1
      ensures Overtaken(configId, x, earlier, j + 1, stored) <==> Overtaken(configId, x, earlier[1..], j, stored)
    {
      AnnouncedShift(configId, x, earlier, j);
    }
    if AllPassedIn(configId, ids, x, earlier, stored) {
      forall j: nat | Overtaken(configId, x, earlier[1..], j, stored) ensures earlier[1..][j].stub.id in ids {
        assert Overtaken(configId, x, earlier, j + 1, stored);
      }
    }
    if (Overtaken(configId, x, earlier, 0, stored) ==> earlier[0].stub.id in ids)
      && AllPassedIn(configId, ids, x, earlier[1..], stored) {
      forall j: nat | Overtaken(configId, x, earlier, j, stored) ensures earlier[j].stub.id in ids {
        if j > 0 { assert Overtaken(configId, x, earlier[1..], j - 1, stored); }
      }
    }
  }

  lemma {:induction false} ClearIff(configId: string, ids: seq<string>, x: string, earlier: seq<Notification>, stored: set<string>)
    requires x in stored
    ensures Clear(ids, x, NewsIds(configId, earlier, stored)) <==> AllPassedIn(configId, ids, x, earlier, stored)
    decreases |earlier|
  {
    if earlier == [] {
    } else if IsNews(earlier[0], configId, x) {
      forall j: nat | j > 0 ensures AnnouncedBefore(configId, x, earlier, j) {}
    } else {
      PassedRest(configId, ids, x, earlier, stored);
      ClearIff(configId, ids, x, earlier[1..], stored);
      var rest := NewsIds(configId, earlier[1..], stored);
      assert forall y :: ([y] + rest)[1..] == rest;
      assert [] + rest == rest;
    }
  }

  lemma KeepsPlaceIff(configId: string, base: seq<Stub>, x: string, earlier: seq<Notification>, stored: set<string>)
    requires x in stored
    ensures KeepsPlace(configId, base, x, earlier, stored)
        <==> var ids := ShownIds(base, stored); x in ids || Clear(ids, x, NewsIds(configId, earlier, stored))
  {
    var ids := ShownIds(base, stored);
    ClearIff(configId, ids, x, earlier, stored);
    ShownIdsOf(base, stored, x);
    forall j: nat | Overtaken(configId, x, earlier, j, stored)
      ensures HasStub(base, earlier[j].stub.id) <==> earlier[j].stub.id in ids
    {
      ShownIdsOf(base, stored, earlier[j].stub.id);
    }
  }

  // The order of what is still to come, before and after n is published ahead of `earlier`.
  function InOrderOf(inbox: seq<Notification>, earlier: seq<Notification>, n: Notification, later: seq<Notification>): seq<Notification> {
    inbox + (earlier + ([n] + later))
  }

  function AheadOf(inbox: seq<Notification>, earlier: seq<Notification>, n: Notification, later: seq<Notification>): seq<Notification> {
    inbox + ([n] + (earlier + later))
  }

  lemma LatestInOrder(configId: string, id: string, inbox: seq<Notification>, earlier: seq<Notification>, n: Notification, later: seq<Notification>)
    ensures Latest(configId, id, InOrderOf(inbox, earlier, n, later)) ==
      if Latest(configId, id, later).Some? then Latest(configId, id, later)
      else if IsNews(n, configId, id) then Some(n.stub)
      else if Latest(configId, id, earlier).Some? then Latest(configId, id, earlier)
      else Latest(configId, id, inbox)
  {
    LatestConcat(configId, id, inbox, earlier + ([n] + later));
    LatestConcat(configId, id, earlier, [n] + later);
    LatestConcat(configId, id, [n], later);
    assert [n][1..] == [];
  }

  lemma LatestAhead(configId: string, id: string, inbox: seq<Notification>, earlier: seq<Notification>, n: Notification, later: seq<Notification>)
    ensures Latest(configId, id, AheadOf(inbox, earlier, n, later)) ==
      if Latest(configId, id, later).Some? then Latest(configId, id, later)
      else if Latest(configId, id, earlier).Some? then Latest(configId, id, earlier)
      else if IsNews(n, configId, id) then Some(n.stub)
      else Latest(configId, id, inbox)
  {
    LatestConcat(configId, id, inbox, [n] + (earlier + later));
    LatestConcat(configId, id, [n], earlier + later);
    LatestConcat(configId, id, earlier, later);
    assert [n][1..] == [];
  }

  lemma LatestBoth(configId: string, inbox: seq<Notification>, earlier: seq<Notification>, n: Notification, later: seq<Notification>)
    ensures SameNewsOf(configId, InOrderOf(inbox, earlier, n, later), AheadOf(inbox, earlier, n, later))
  {
    forall id
      ensures Latest(configId, id, InOrderOf(inbox, earlier, n, later)).None?
          <==> Latest(configId, id, AheadOf(inbox, earlier, n, later)).None?
    {
      LatestInOrder(configId, id, inbox, earlier, n, later);
      LatestAhead(configId, id, inbox, earlier, n, later);
    }
  }

  // The content of the rows: what the last announcements say stays true exactly when n, if it
  // announces a stored session, keeps its content.
  lemma CurrentIff(configId: string, v: Table, inbox: seq<Notification>, earlier: seq<Notification>, n: Notification, later: seq<Notification>)
    requires Current(configId, v, InOrderOf(inbox, earlier, n, later))
    ensures Current(configId, v, AheadOf(inbox, earlier, n, later))
        <==> (n.NewSession? && n.stub.configId == configId && n.stub.id in IdsOf(v) ==>
                KeepsContent(configId, n.stub, earlier, later))
  {
    forall i | 0 <= i < |v|
      ensures Latest(configId, v[i].id, AheadOf(inbox, earlier, n, later)) in {None, Some(StubOf(v[i]))}
          <==> (IsNews(n, configId, v[i].id) ==> KeepsContent(configId, n.stub, earlier, later))
    {
      LatestInOrder(configId, v[i].id, inbox, earlier, n, later);
      LatestAhead(configId, v[i].id, inbox, earlier, n, later);
    }
    if n.NewSession? && n.stub.configId == configId && n.stub.id in IdsOf(v) {
      var i :| 0 <= i < |v| && v[i].id == n.stub.id;
      assert IsNews(n, configId, v[i].id);
    }
  }

  // ---------- The ids shown ----------

  predicate IsStoredNews(configId: string, n: Notification, stored: set<string>) {
    n.NewSession? && n.stub.configId == configId && n.stub.id in stored
  }

  lemma UnnamedParts(stored: set<string>, a: seq<Notification>, b: seq<Notification>)
    ensures Unnamed(stored, a + b) <==> Unnamed(stored, a) && Unnamed(stored, b)
  {
    assert forall n :: n in a + b <==> n in a || n in b;
  }

  lemma UnnamedBoth(stored: set<string>, inbox: seq<Notification>, earlier: seq<Notification>, n: Notification, later: seq<Notification>)
    ensures Unnamed(stored, InOrderOf(inbox, earlier, n, later))
        <==> Unnamed(stored, inbox) && Unnamed(stored, earlier) && Unnamed(stored, [n]) && Unnamed(stored, later)
    ensures Unnamed(stored, InOrderOf(inbox, earlier, n, later)) <==> Unnamed(stored, AheadOf(inbox, earlier, n, later))
  {
    UnnamedParts(stored, inbox, earlier + ([n] + later));
    UnnamedParts(stored, earlier, [n] + later);
    UnnamedParts(stored, [n], later);
    UnnamedParts(stored, inbox, [n] + (earlier + later));
    UnnamedParts(stored, [n], earlier + later);
    UnnamedParts(stored, earlier, later);
  }

  lemma TwoEnter(configId: string, list: seq<Stub>, a: seq<Notification>, b: seq<Notification>, stored: set<string>)
    requires Unnamed(stored, a) && Unnamed(stored, b)
    ensures ShownIds(ReceiveAll(configId, list, a + b), stored)
         == EnterAll(EnterAll(ShownIds(list, stored), NewsIds(configId, a, stored)), NewsIds(configId, b, stored))
  {
    ReceiveAllConcat(configId, list, a, b);
    ReceiveAllEnters(configId, list, a, stored);
    ReceiveAllEnters(configId, ReceiveAll(configId, list, a), b, stored);
  }

  lemma OneEnters(configId: string, n: Notification, ids: seq<string>, stored: set<string>)
    ensures EnterAll(ids, NewsIds(configId, [n], stored))
         == if IsStoredNews(configId, n, stored) then Enter(ids, n.stub.id) else ids
  {
    assert [n][1..] == [];
  }

  // In both orders, what is entered into the stored sessions' ids.
  lemma IdsInOrder(configId: string, base: seq<Stub>, earlier: seq<Notification>, n: Notification, later: seq<Notification>, stored: set<string>)
    requires Unnamed(stored, earlier) && Unnamed(stored, [n]) && Unnamed(stored, later)
    ensures var passed := EnterAll(ShownIds(base, stored), NewsIds(configId, earlier, stored));
      ShownIds(ReceiveAll(configId, base, earlier + ([n] + later)), stored)
      == EnterAll(if IsStoredNews(configId, n, stored) then Enter(passed, n.stub.id) else passed, NewsIds(configId, later, stored))
  {
    ReceiveAllConcat(configId, base, earlier, [n] + later);
    ReceiveAllEnters(configId, base, earlier, stored);
    TwoEnter(configId, ReceiveAll(configId, base, earlier), [n], later, stored);
    OneEnters(configId, n, EnterAll(ShownIds(base, stored), NewsIds(configId, earlier, stored)), stored);
  }

  lemma IdsAhead(configId: string, base: seq<Stub>, earlier: seq<Notification>, n: Notification, later: seq<Notification>, stored: set<string>)
    requires Unnamed(stored, earlier) && Unnamed(stored, [n]) && Unnamed(stored, later)
    ensures var ids := ShownIds(base, stored);
      ShownIds(ReceiveAll(configId, base, [n] + (earlier + later)), stored)
      == EnterAll(EnterAll(if IsStoredNews(configId, n, stored) then Enter(ids, n.stub.id) else ids,
                           NewsIds(configId, earlier, stored)), NewsIds(configId, later, stored))
  {
    ReceiveAllConcat(configId, base, [n], earlier + later);
    ReceiveAllEnters(configId, base, [n], stored);
    TwoEnter(configId, ReceiveAll(configId, base, [n]), earlier, later, stored);
    OneEnters(configId, n, ShownIds(base, stored), stored);
  }

  lemma PlaceIff(configId: string, base: seq<Stub>, earlier: seq<Notification>, n: Notification, later: seq<Notification>, stored: set<string>)
    requires DistinctStubs(base) && Unnamed(stored, earlier) && Unnamed(stored, [n]) && Unnamed(stored, later)
    ensures ShownIds(ReceiveAll(configId, base, earlier + ([n] + later)), stored)
         == ShownIds(ReceiveAll(configId, base, [n] + (earlier + later)), stored)
        <==> (IsStoredNews(configId, n, stored) ==> KeepsPlace(configId, base, n.stub.id, earlier, stored))
  {
    IdsInOrder(configId, base, earlier, n, later, stored);
    IdsAhead(configId, base, earlier, n, later, stored);
    if IsStoredNews(configId, n, stored) {
      ShownIdsDistinct(base, stored);
      EarlierEntryIff(ShownIds(base, stored), n.stub.id, NewsIds(configId, earlier, stored), NewsIds(configId, later, stored));
      KeepsPlaceIff(configId, base, n.stub.id, earlier, stored);
    }
  }

  // ---------- Nothing but stored sessions ----------

  ghost predicate OnlyStored(list: seq<Stub>, stored: set<string>) {
    forall id :: HasStub(list, id) ==> id in stored
  }

  lemma PresentInOrder(configId: string, id: string, earlier: seq<Notification>, n: Notification, later: seq<Notification>, shown: bool)
    ensures Present(configId, id, earlier + ([n] + later), shown)
         == Present(configId, id, later, PresentOne(configId, id, n, Present(configId, id, earlier, shown)))
    ensures Present(configId, id, [n] + (earlier + later), shown)
         == Present(configId, id, later, Present(configId, id, earlier, PresentOne(configId, id, n, shown)))
  {
    PresentConcat(configId, id, earlier, [n] + later, shown);
    PresentConcat(configId, id, [n], later, Present(configId, id, earlier, shown));
    PresentConcat(configId, id, [n], earlier + later, shown);
    PresentConcat(configId, id, earlier, later, PresentOne(configId, id, n, shown));
    assert [n][1..] == [];
  }

  // A session that is not stored, and in the end not shown, is shown after the change of order
  // exactly when n deletes it and one of those overtaken announces it.
  lemma StrayIff(configId: string, id: string, earlier: seq<Notification>, n: Notification, later: seq<Notification>, shown: bool)
    requires !Present(configId, id, earlier + ([n] + later), shown)
    ensures Present(configId, id, [n] + (earlier + later), shown)
        <==> n.DeleteSession? && id in n.ids && Present(configId, id, earlier, false) && Present(configId, id, later, true)
  {
    PresentInOrder(configId, id, earlier, n, later, shown);
    if Present(configId, id, later, false) { PresentMonotone(configId, id, later, false); }
  }

  lemma OnlyStoredIff(configId: string, base: seq<Stub>, earlier: seq<Notification>, n: Notification, later: seq<Notification>, stored: set<string>)
    requires OnlyStored(ReceiveAll(configId, base, earlier + ([n] + later)), stored) && Unnamed(stored, [n])
    ensures OnlyStored(ReceiveAll(configId, base, [n] + (earlier + later)), stored)
        <==> (n.DeleteSession? ==> KeepsDeleted(configId, n.ids, earlier, later))
  {
    var a, b := ReceiveAll(configId, base, earlier + ([n] + later)), ReceiveAll(configId, base, [n] + (earlier + later));
    assert n in [n];
    forall id | id !in stored
      ensures HasStub(b, id) <==> n.DeleteSession? && id in n.ids && Present(configId, id, earlier, false) && Present(configId, id, later, true)
    {
      PresentReceive(configId, base, earlier + ([n] + later), id);
      PresentReceive(configId, base, [n] + (earlier + later), id);
      assert !HasStub(a, id);
      StrayIff(configId, id, earlier, n, later, HasStub(base, id));
    }
  }

  // ---------- The result ----------

  // A session no deletion names is shown if it was or is announced.
  lemma {:induction false} PresentUnnamed(configId: string, id: string, pending: seq<Notification>, shown: bool)
    requires forall n :: n in pending && n.DeleteSession? ==> id !in n.ids
    ensures Present(configId, id, pending, shown) <==> shown || Latest(configId, id, pending).Some?
    decreases |pending|
  {
    if pending != [] {
      assert pending[0] in pending;
      PresentUnnamed(configId, id, pending[1..], PresentOne(configId, id, pending[0], shown));
    }
  }

  lemma StoredInBoth(configId: string, list: seq<Stub>, pending: seq<Notification>, pending': seq<Notification>, stored: set<string>, id: string)
    requires Unnamed(stored, pending) && Unnamed(stored, pending') && SameNewsOf(configId, pending, pending') && id in stored
    ensures HasStub(ReceiveAll(configId, list, pending), id) <==> HasStub(ReceiveAll(configId, list, pending'), id)
  {
    PresentReceive(configId, list, pending, id);
    PresentReceive(configId, list, pending', id);
    PresentUnnamed(configId, id, pending, HasStub(list, id));
    PresentUnnamed(configId, id, pending', HasStub(list, id));
  }

  lemma PrefixHas(list: seq<Stub>, v: Table, i: nat)
    requires Distinct(v) && IsPrefixOf(list, v) && i < |v|
    ensures HasStub(list, v[i].id) <==> i < |list|
  {
    if i < |list| {
      assert list[i].id == v[i].id;
    } else {
      forall k | 0 <= k < |list| ensures list[k].id != v[i].id { assert list[k].id == v[k].id; }
    }
  }

  lemma PrefixIds(list: seq<Stub>, v: Table)
    requires IsPrefixOf(list, v)
    ensures OnlyStored(list, IdsOf(v))
  {
    forall id | HasStub(list, id) ensures id in IdsOf(v) {
      var i :| 0 <= i < |list| && list[i].id == id;
      assert list[i].id == v[i].id;
    }
  }

  lemma PrefixesAgree(a: seq<Stub>, b: seq<Stub>, v: Table)
    requires Distinct(v) && IsPrefixOf(a, v) && IsPrefixOf(b, v)
    requires forall i :: 0 <= i < |v| ==> (HasStub(a, v[i].id) <==> HasStub(b, v[i].id))
    ensures a == b
  {
    if |a| != |b| {
      var i := Min(|a|, |b|);
      PrefixHas(a, v, i);
      PrefixHas(b, v, i);
    }
  }

  lemma SameIdsIff(a: seq<Stub>, b: seq<Stub>, stored: set<string>)
    requires OnlyStored(a, stored) && OnlyStored(b, stored)
    ensures SameIds(a, b) <==> ShownIds(a, stored) == ShownIds(b, stored)
  {
    forall i | 0 <= i < |a| ensures a[i].id in stored { assert HasStub(a, a[i].id); }
    forall i | 0 <= i < |b| ensures b[i].id in stored { assert HasStub(b, b[i].id); }
    AllStored(a, stored);
    AllStored(b, stored);
    if SameIds(a, b) { ShownIdsSame(a, b, stored); }
  }

  // What may be published ahead of `earlier`, with `base` shown by the time it is received.
  ghost predicate InTurn(configId: string, base: seq<Stub>, v: Table, earlier: seq<Notification>, n: Notification, later: seq<Notification>) {
    match n
    case NewSession(stub) =>
      stub.configId == configId && stub.id in IdsOf(v) ==>
        KeepsContent(configId, stub, earlier, later) && KeepsPlace(configId, base, stub.id, earlier, IdsOf(v))
    case DeleteSession(ids) => KeepsDeleted(configId, ids, earlier, later)
  }

  lemma AheadShowsSame(configId: string, list: seq<Stub>, v: Table, inbox: seq<Notification>, earlier: seq<Notification>, n: Notification, later: seq<Notification>)
    requires Distinct(v) && DistinctStubs(list)
    requires var p := InOrderOf(inbox, earlier, n, later);
      Unnamed(IdsOf(v), p) && Current(configId, v, p) && IsPrefixOf(ReceiveAll(configId, list, p), v)
    requires InTurn(configId, ReceiveAll(configId, list, inbox), v, earlier, n, later)
    ensures var p := AheadOf(inbox, earlier, n, later);
      Current(configId, v, p) && ReceiveAll(configId, list, p) == ReceiveAll(configId, list, InOrderOf(inbox, earlier, n, later))
  {
    var base, stored := ReceiveAll(configId, list, inbox), IdsOf(v);
    CurrentIff(configId, v, inbox, earlier, n, later);
    LatestBoth(configId, inbox, earlier, n, later);
    UnnamedBoth(stored, inbox, earlier, n, later);
    ReceiveAllConcat(configId, list, inbox, earlier + ([n] + later));
    ReceiveAllConcat(configId, list, inbox, [n] + (earlier + later));
    ReceiveAllDistinct(configId, list, inbox);
    PrefixIds(ReceiveAll(configId, base, earlier + ([n] + later)), v);
    OnlyStoredIff(configId, base, earlier, n, later, stored);
    PlaceIff(configId, base, earlier, n, later, stored);
    SameIdsIff(ReceiveAll(configId, base, earlier + ([n] + later)), ReceiveAll(configId, base, [n] + (earlier + later)), stored);
    SameShown(configId, list, v, InOrderOf(inbox, earlier, n, later), AheadOf(inbox, earlier, n, later));
  }

  lemma AheadNeedsTurn(configId: string, list: seq<Stub>, v: Table, inbox: seq<Notification>, earlier: seq<Notification>, n: Notification, later: seq<Notification>)
    requires Distinct(v) && DistinctStubs(list)
    requires var p := InOrderOf(inbox, earlier, n, later);
      Unnamed(IdsOf(v), p) && Current(configId, v, p) && IsPrefixOf(ReceiveAll(configId, list, p), v)
    requires var p := AheadOf(inbox, earlier, n, later);
      Current(configId, v, p) && IsPrefixOf(ReceiveAll(configId, list, p), v)
    ensures InTurn(configId, ReceiveAll(configId, list, inbox), v, earlier, n, later)
  {
    var base, stored := ReceiveAll(configId, list, inbox), IdsOf(v);
    var p, p' := InOrderOf(inbox, earlier, n, later), AheadOf(inbox, earlier, n, later);
    CurrentIff(configId, v, inbox, earlier, n, later);
    LatestBoth(configId, inbox, earlier, n, later);
    UnnamedBoth(stored, inbox, earlier, n, later);
    forall i | 0 <= i < |v|
      ensures HasStub(ReceiveAll(configId, list, p), v[i].id) <==> HasStub(ReceiveAll(configId, list, p'), v[i].id)
    {
      StoredInBoth(configId, list, p, p', stored, v[i].id);
    }
    PrefixesAgree(ReceiveAll(configId, list, p), ReceiveAll(configId, list, p'), v);
    ReceiveAllConcat(configId, list, inbox, earlier + ([n] + later));
    ReceiveAllConcat(configId, list, inbox, [n] + (earlier + later));
    ReceiveAllDistinct(configId, list, inbox);
    PrefixIds(ReceiveAll(configId, list, p), v);
    OnlyStoredIff(configId, base, earlier, n, later, stored);
    PlaceIff(configId, base, earlier, n, later, stored);
  }

  // Publishing n ahead of `earlier` keeps the list to come a prefix of the server's order, and
  // the announcements to come true, exactly when n is in turn; and then it changes nothing.
  lemma AheadIff(configId: string, list: seq<Stub>, v: Table, inbox: seq<Notification>, earlier: seq<Notification>, n: Notification, later: seq<Notification>)
    requires Distinct(v) && DistinctStubs(list)
    requires var p := InOrderOf(inbox, earlier, n, later);
      Unnamed(IdsOf(v), p) && Current(configId, v, p) && IsPrefixOf(ReceiveAll(configId, list, p), v)
    ensures var p, p' := InOrderOf(inbox, earlier, n, later), AheadOf(inbox, earlier, n, later);
      var turn := InTurn(configId, ReceiveAll(configId, list, inbox), v, earlier, n, later);
      && (IsPrefixOf(ReceiveAll(configId, list, p'), v) && Current(configId, v, p') <==> turn)
      && (turn ==> ReceiveAll(configId, list, p') == ReceiveAll(configId, list, p))
  {
    if InTurn(configId, ReceiveAll(configId, list, inbox), v, earlier, n, later) {
      AheadShowsSame(configId, list, v, inbox, earlier, n, later);
    } else if IsPrefixOf(ReceiveAll(configId, list, AheadOf(inbox, earlier, n, later)), v)
           && Current(configId, v, AheadOf(inbox, earlier, n, later)) {
      AheadNeedsTurn(configId, list, v, inbox, earlier, n, later);
    }
  }
}
