/**
 Merging the first page, which replaces the list, while notifications are still to come.
 Rows of the page are updated in place, other sessions are put in front of them; what
 is shown in the end is the page exactly when none of those others stays.
 */
module FeedFirstPage {
  import opened Lists
  import opened Options
  import opened SessionDb
  import opened Feed

  ghost predicate IsPrefixOf(list: seq<Stub>, rows: Table) {
    |list| <= |rows| && list == Stubs(rows[..|list|])
  }

  predicate IsNews(n: Notification, configId: string, id: string) {
    n.NewSession? && n.stub.configId == configId && n.stub.id == id
  }

  // What the last announcement of this session says.
  function Latest(configId: string, id: string, pending: seq<Notification>): Option<Stub>
    decreases |pending|
  {
    if pending == [] then None
    else
      var later := Latest(configId, id, pending[1..]);
      if later.Some? then later else if IsNews(pending[0], configId, id) then Some(pending[0].stub) else None
  }

  lemma {:induction false} LatestSnoc(configId: string, id: string, pending: seq<Notification>, n: Notification)
    ensures Latest(configId, id, pending + [n]) ==
      if IsNews(n, configId, id) then Some(n.stub) else Latest(configId, id, pending)
    decreases |pending|
  {
    if pending == [] {
      assert [n][1..] == [];
    } else {
      assert (pending + [n])[1..] == pending[1..] + [n];
      LatestSnoc(configId, id, pending[1..], n);
    }
  }

  lemma {:induction false} LatestIsNews(configId: string, id: string, pending: seq<Notification>)
    ensures var l := Latest(configId, id, pending);
      l.Some? ==> exists n :: n in pending && IsNews(n, configId, id) && n.stub == l.value
    decreases |pending|
  {
    if pending != [] {
      LatestIsNews(configId, id, pending[1..]);
      if Latest(configId, id, pending[1..]).None? && IsNews(pending[0], configId, id) {
        assert pending[0] in pending;
      }
    }
  }

  lemma {:induction false} PresentNeedsNews(configId: string, id: string, pending: seq<Notification>)
    requires Present(configId, id, pending, false)
    ensures exists n :: n in pending && IsNews(n, configId, id)
    decreases |pending|
  {
    if IsNews(pending[0], configId, id) {
      assert pending[0] in pending;
    } else {
      PresentNeedsNews(configId, id, pending[1..]);
    }
  }

  // Each session still to be announced is on the page, or will be removed again.
  ghost predicate FirstPageQuiet(configId: string, page: seq<Stub>, pending: seq<Notification>) {
    forall n :: n in pending && n.NewSession? && n.stub.configId == configId ==>
      HasStub(page, n.stub.id) || !Present(configId, n.stub.id, pending, false)
  }

  // No deletion still to come names a row of the page.
  ghost predicate Spared(page: seq<Stub>, pending: seq<Notification>) {
    forall n, x :: n in pending && n.DeleteSession? && x in page ==> x.id !in n.ids
  }

  // ---------- The part of the list that is the page ----------

  function Updated(list: seq<Stub>, s: Stub): (r: seq<Stub>)
    ensures |r| == |list| && forall i :: 0 <= i < |list| ==> r[i] == if list[i].id == s.id then s else list[i]
  {
    if list == [] then [] else [if list[0].id == s.id then s else list[0]] + Updated(list[1..], s)
  }

  function OnPage(page: seq<Stub>): Stub -> bool {
    (s: Stub) => HasStub(page, s.id)
  }

  function Core(list: seq<Stub>, page: seq<Stub>): seq<Stub> {
    Filter(list, OnPage(page))
  }

  lemma MergeUpdates(list: seq<Stub>, s: Stub)
    requires DistinctStubs(list)
    ensures MergeSession(list, s) == if HasStub(list, s.id) then Updated(list, s) else [s] + list
  {
    var k := FindIndex(list, s.id);
    if k > -1 {
      assert list[k := s] == Updated(list, s);
    }
  }

  lemma {:induction false} CoreUpdated(list: seq<Stub>, s: Stub, page: seq<Stub>)
    ensures Core(Updated(list, s), page) == Updated(Core(list, page), s)
  {
    if list != [] {
      CoreUpdated(list[1..], s, page);
      var head, rest := list[0], Core(list[1..], page);
      assert Updated(list, s)[1..] == Updated(list[1..], s);
      if HasStub(page, head.id) {
        assert Core(list, page) == [head] + rest && ([head] + rest)[1..] == rest;
      } else {
        assert Core(list, page) == rest;
      }
    }
  }

  ghost predicate SameIds(xs: seq<Stub>, ys: seq<Stub>) {
    |xs| == |ys| && forall i :: 0 <= i < |xs| ==> xs[i].id == ys[i].id
  }

  lemma PageIsThere(list: seq<Stub>, page: seq<Stub>, id: string)
    requires SameIds(Core(list, page), page) && HasStub(page, id)
    ensures HasStub(list, id)
  {
    var i :| 0 <= i < |page| && page[i].id == id;
    assert Core(list, page)[i] in Core(list, page) && Core(list, page)[i] in list;
  }

  lemma CoreReceive(configId: string, list: seq<Stub>, n: Notification, page: seq<Stub>)
    requires DistinctStubs(list) && SameIds(Core(list, page), page) && Spared(page, [n])
    ensures Core(Receive(configId, list, n), page)
         == if n.NewSession? && n.stub.configId == configId then Updated(Core(list, page), n.stub) else Core(list, page)
  {
    match n
    case NewSession(s) =>
      if s.configId == configId {
        MergeUpdates(list, s);
        CoreUpdated(list, s, page);
        if !HasStub(list, s.id) {
          if HasStub(page, s.id) { PageIsThere(list, page, s.id); }
          assert ([s] + list)[1..] == list;
          assert Updated(list, s) == list;
        }
      }
    case DeleteSession(ids) =>
      FilterFilter(list, StubNotIn(ids), OnPage(page));
      forall x | x in Core(list, page) ensures StubNotIn(ids)(x) {
        var i :| 0 <= i < |page| && page[i].id == x.id;
        assert page[i] in page && n in [n];
      }
      FilterAll(Core(list, page), StubNotIn(ids));
  }

  lemma SparedParts(page: seq<Stub>, pending: seq<Notification>)
    requires Spared(page, pending) && pending != []
    ensures Spared(page, [pending[0]]) && Spared(page, pending[1..])
  {
    assert pending[0] in pending && forall m :: m in pending[1..] ==> m in pending;
  }

  // Receiving everything leaves the page's rows in their order, each as last announced.
  lemma {:induction false} CoreReceiveAll(configId: string, list: seq<Stub>, pending: seq<Notification>, page: seq<Stub>)
    requires DistinctStubs(list) && SameIds(Core(list, page), page) && Spared(page, pending)
    ensures var core := Core(ReceiveAll(configId, list, pending), page);
      && SameIds(core, page)
      && forall i :: 0 <= i < |page| ==>
           var l := Latest(configId, page[i].id, pending);
           core[i] == if l.Some? then l.value else Core(list, page)[i]
    decreases |pending|
  {
    if pending != [] {
      var n, list' := pending[0], Receive(configId, list, pending[0]);
      SparedParts(page, pending);
      CoreReceive(configId, list, n, page);
      ReceiveDistinct(configId, list, n);
      CoreReceiveAll(configId, list', pending[1..], page);
    }
  }

  // ---------- The other sessions stay in front ----------

  ghost predicate OthersFirst(list: seq<Stub>, page: seq<Stub>) {
    forall i, j :: 0 <= i < j < |list| && HasStub(page, list[i].id) ==> HasStub(page, list[j].id)
  }

  lemma {:induction false} FilterOthersFirst(list: seq<Stub>, p: Stub -> bool, page: seq<Stub>)
    requires OthersFirst(list, page)
    ensures OthersFirst(Filter(list, p), page)
  {
    if list != [] {
      FilterOthersFirst(list[1..], p, page);
      var f := Filter(list[1..], p);
      forall j | 0 <= j < |f| && HasStub(page, list[0].id) ensures HasStub(page, f[j].id) {
        assert f[j] in list[1..];
        var k :| 0 <= k < |list[1..]| && list[1..][k] == f[j];
      }
    }
  }

  lemma MergedOthersFirst(list: seq<Stub>, s: Stub, page: seq<Stub>)
    requires DistinctStubs(list) && SameIds(Core(list, page), page) && OthersFirst(list, page)
    ensures OthersFirst(MergeSession(list, s), page)
  {
    MergeUpdates(list, s);
    if HasStub(list, s.id) {
      assert forall i :: 0 <= i < |list| ==> Updated(list, s)[i].id == list[i].id;
    } else {
      if HasStub(page, s.id) { PageIsThere(list, page, s.id); }
      OneInFront(list, s, page);
    }
  }

  lemma OneInFront(list: seq<Stub>, s: Stub, page: seq<Stub>)
    requires OthersFirst(list, page) && !HasStub(page, s.id)
    ensures OthersFirst([s] + list, page)
  {
  }

  lemma OthersStayFirst(configId: string, list: seq<Stub>, n: Notification, page: seq<Stub>)
    requires DistinctStubs(list) && SameIds(Core(list, page), page) && OthersFirst(list, page)
    ensures OthersFirst(Receive(configId, list, n), page)
  {
    match n
    case NewSession(s) =>
      if s.configId == configId { MergedOthersFirst(list, s, page); }
    case DeleteSession(ids) => FilterOthersFirst(list, StubNotIn(ids), page);
  }

  lemma {:induction false} OthersStayFirstAll(configId: string, list: seq<Stub>, pending: seq<Notification>, page: seq<Stub>)
    requires DistinctStubs(list) && SameIds(Core(list, page), page) && OthersFirst(list, page) && Spared(page, pending)
    ensures OthersFirst(ReceiveAll(configId, list, pending), page)
    decreases |pending|
  {
    if pending != [] {
      var n, list' := pending[0], Receive(configId, list, pending[0]);
      SparedParts(page, pending);
      CoreReceive(configId, list, n, page);
      ReceiveDistinct(configId, list, n);
      OthersStayFirst(configId, list, n, page);
      OthersStayFirstAll(configId, list', pending[1..], page);
    }
  }

  // ---------- The result ----------

  ghost predicate OnlyPage(list: seq<Stub>, page: seq<Stub>) {
    forall x :: x in list ==> HasStub(page, x.id)
  }

  lemma OnlyPageIff(configId: string, page: seq<Stub>, pending: seq<Notification>)
    ensures OnlyPage(ReceiveAll(configId, page, pending), page) <==> FirstPageQuiet(configId, page, pending)
  {
    var r := ReceiveAll(configId, page, pending);
    if FirstPageQuiet(configId, page, pending) {
      forall x | x in r ensures HasStub(page, x.id) {
        assert HasStub(r, x.id);
        PresentReceive(configId, page, pending, x.id);
        if Present(configId, x.id, pending, false) { PresentNeedsNews(configId, x.id, pending); }
      }
    }
    if OnlyPage(r, page) {
      forall n | n in pending && n.NewSession? && n.stub.configId == configId
        ensures HasStub(page, n.stub.id) || !Present(configId, n.stub.id, pending, false)
      {
        PresentReceive(configId, page, pending, n.stub.id);
        if HasStub(r, n.stub.id) {
          var i :| 0 <= i < |r| && r[i].id == n.stub.id;
          assert r[i] in r;
        }
      }
    }
  }

  // The page replaces the list while notifications are still to come: what is shown in the end
  // is the page, row for row, or no prefix of the server's order at all, according to whether
  // each session still to be announced is on it or will be removed again.
  lemma FirstPageOrderIff(configId: string, v: Table, c: nat, pending: seq<Notification>)
    requires Distinct(v) && c <= |v| && (c == 0 ==> v == [])
    requires Spared(Stubs(v[..c]), pending)
    requires forall i :: 0 <= i < c ==> Latest(configId, v[i].id, pending) in {None, Some(StubOf(v[i]))}
    ensures var page := Stubs(v[..c]);
      var shown := ReceiveAll(configId, page, pending);
      && (IsPrefixOf(shown, v) <==> FirstPageQuiet(configId, page, pending))
      && (FirstPageQuiet(configId, page, pending) ==> shown == page)
  {
    var page := Stubs(v[..c]);
    var shown := ReceiveAll(configId, page, pending);
    WholePage(v, c);
    CoreReceiveAll(configId, page, pending, page);
    assert Core(shown, page) == page;
    OnlyPageIff(configId, page, pending);
    if OnlyPage(shown, page) {
      FilterAll(shown, OnPage(page));
    } else {
      OthersStayFirstAll(configId, page, pending, page);
      OtherInFront(v, c, shown);
    }
  }

  lemma WholePage(v: Table, c: nat)
    requires Distinct(v) && c <= |v|
    ensures var page := Stubs(v[..c]);
      DistinctStubs(page) && Core(page, page) == page && OthersFirst(page, page)
  {
    var page := Stubs(v[..c]);
    forall x | x in page ensures OnPage(page)(x) {
      var i :| 0 <= i < |page| && page[i] == x;
      assert page[i].id == x.id;
    }
    FilterAll(page, OnPage(page));
  }

  lemma OtherInFront(v: Table, c: nat, shown: seq<Stub>)
    requires c <= |v| && (c == 0 ==> v == [])
    requires OthersFirst(shown, Stubs(v[..c])) && !OnlyPage(shown, Stubs(v[..c]))
    ensures !IsPrefixOf(shown, v)
  {
    var page := Stubs(v[..c]);
    var x :| x in shown && !HasStub(page, x.id);
    var i :| 0 <= i < |shown| && shown[i] == x;
    assert !HasStub(page, shown[0].id);
    if c > 0 {
      assert page[0].id == v[0].id;
      assert shown[0].id != v[0].id;
      if |shown| <= |v| { assert Stubs(v[..|shown|])[0].id == v[0].id; }
    }
  }
}
