/**
 The history page's session list.  It mixes pages fetched by offset with live
 notifications, while sessions start and finish and the reaper deletes rows.
 A change, the publication of its notification and the receipt of that are
 separate steps; fetching a page and merging it is one step.
 */
module Feed {
  import opened Lists
  import opened Options
  import opened SessionDb

  const LIMIT: nat := 50

  // What the list shows of a session.
  datatype Stub = Stub(id: string, configId: string, statusCode: int, requestMethod: string,
                       requestPath: string, timestamp: int, durationMs: int)

  datatype Notification = NewSession(stub: Stub) | DeleteSession(ids: set<string>)

  function StubOf(s: Session): Stub {
    Stub(s.id, s.configId, s.statusCode, s.requestMethod, s.requestPath, s.timestamp, s.durationMs)
  }

  function Stubs(rows: Table): (r: seq<Stub>)
    ensures |r| == |rows| && forall i :: 0 <= i < |rows| ==> r[i] == StubOf(rows[i])
  {
    seq(|rows|, i requires 0 <= i < |rows| => StubOf(rows[i]))
  }

  predicate HasStub(list: seq<Stub>, id: string) {
    exists i :: 0 <= i < |list| && list[i].id == id
  }

  ghost predicate DistinctStubs(list: seq<Stub>) {
    forall i, j :: 0 <= i < j < |list| ==> list[i].id != list[j].id
  }

  // ---------- The page's list updaters ----------

  function FindIndex(list: seq<Stub>, id: string): (k: int)
    ensures -1 <= k < |list|
    ensures k >= 0 ==> list[k].id == id && forall i :: 0 <= i < k ==> list[i].id != id
    ensures k == -1 <==> !HasStub(list, id)
  {
    if list == [] then -1
    else if list[0].id == id then 0
    else
      var k := FindIndex(list[1..], id);
      assert HasStub(list[1..], id) ==> HasStub(list, id);
      assert forall i :: 0 < i < |list| ==> list[i] == list[1..][i - 1];
      if k == -1 then -1 else k + 1
  }

  // mergeSessions: update in place or prepend.
  function MergeSession(prev: seq<Stub>, s: Stub): seq<Stub> {
    var k := FindIndex(prev, s.id);
    if k > -1 then prev[k := s] else [s] + prev
  }

  function StubNotIn(ids: set<string>): Stub -> bool {
    (s: Stub) => s.id !in ids
  }

  function Receive(configId: string, prev: seq<Stub>, n: Notification): seq<Stub> {
    match n
    case NewSession(s) => if s.configId != configId then prev else MergeSession(prev, s)
    case DeleteSession(ids) => Filter(prev, StubNotIn(ids))
  }

  function NotShown(prev: seq<Stub>): Stub -> bool {
    (s: Stub) => !HasStub(prev, s.id)
  }

  // The merge effect: the first page replaces the list, later ones are appended.
  function MergePage(prev: seq<Stub>, page: seq<Stub>, offset: nat): seq<Stub> {
    if offset == 0 then page else prev + Filter(page, NotShown(prev))
  }

  function ReceiveAll(configId: string, list: seq<Stub>, inbox: seq<Notification>): seq<Stub>
    decreases |inbox|
  {
    if inbox == [] then list else ReceiveAll(configId, Receive(configId, list, inbox[0]), inbox[1..])
  }

  // `page` is the length of the page on display, None while one is being fetched.
  datatype Ui = Ui(list: seq<Stub>, offset: nat, loading: bool, page: Option<nat>)

  predicate HasMore(ui: Ui) {
    ui.page == Some(LIMIT)
  }

  // The component: its state hooks, and the handlers that set them.
  class WithConfigsHistory {
    const configId: string
    var allLoadedSessions: seq<Stub>
    var offset: nat
    var isLoadingMore: bool
    var sessionListLength: Option<nat>

    ghost function Model(): Ui
      reads this
    {
      Ui(allLoadedSessions, offset, isLoadingMore, sessionListLength)
    }

    constructor (config: string)
      ensures configId == config && Model() == Ui([], 0, false, None)
    {
      configId, allLoadedSessions, offset, isLoadingMore, sessionListLength := config, [], 0, false, None;
    }

    method OnSessionList(sessions: seq<Stub>)
      modifies this
      ensures Model() == Ui(MergePage(old(allLoadedSessions), sessions, old(offset)), old(offset), false, Some(|sessions|))
    {
      sessionListLength := Some(|sessions|);
      if offset == 0 {
        allLoadedSessions := sessions;
      } else {
        allLoadedSessions := allLoadedSessions + Filter(sessions, NotShown(allLoadedSessions));
      }
      isLoadingMore := false;
    }

    method OnMessage(n: Notification)
      modifies this`allLoadedSessions
      ensures Model() == old(Model()).(list := Receive(configId, old(allLoadedSessions), n))
    {
      if n.NewSession? {
        if n.stub.configId != configId { return; }
        allLoadedSessions := MergeSession(allLoadedSessions, n.stub);
      } else {
        allLoadedSessions := Filter(allLoadedSessions, StubNotIn(n.ids));
      }
    }

    // The button is shown while there is more and disabled while loading.
    method HandleLoadMore()
      requires HasMore(Model()) && !isLoadingMore
      modifies this
      ensures Model() == old(Model()).(offset := old(offset) + LIMIT, loading := true, page := None)
    {
      isLoadingMore := true;
      offset := offset + LIMIT;
      sessionListLength := None;
    }
  }

  // ---------- Server and browser together ----------

  datatype System = System(
    db: Table,
    open: map<string, Session>,   // rows held by requests in progress
    selected: set<string>,        // ids a reap has selected and not yet deleted
    outbox: seq<Notification>,    // changes made, in their order, that some goroutine has yet to publish
    inbox: seq<Notification>,     // published, not yet received by the page
    ui: Ui,
    merged: nat)                  // offset + LIMIT of the last page merged

  datatype Step =
    | Start(row: Session, p: nat)
    | Finish(id: string, r: Response, p: nat)
    | ReapSelect(k: nat)
    | ReapDelete
    | Publish(k: nat)
    | Arrive
    | LoadMore
    | FetchPage

  predicate CanStep(s: System, step: Step) {
    match step
    case Start(row, p) => IsPending(row) && !HasId(s.db, row.id) && row.id !in s.open && p <= |s.db|
    case Finish(id, r, p) => id in s.open && p <= |s.db|
    case ReapSelect(k) => s.selected == {}
    case ReapDelete => true
    case Publish(k) => k < |s.outbox|
    case Arrive => s.inbox != []
    case LoadMore => HasMore(s.ui) && !s.ui.loading
    case FetchPage => true
  }

  ghost function Next(q: Query, s: System, step: Step): System
    requires CanStep(s, step)
  {
    match step
    case Start(row, p) =>
      s.(db := Insert(s.db, p, row), open := s.open[row.id := row],
         outbox := s.outbox + [NewSession(StubOf(row))])
    case Finish(id, r, p) =>
      var row := Finished(s.open[id], r);
      s.(db := Save(s.db, p, row), open := s.open - {id}, outbox := s.outbox + [NewSession(StubOf(row))])
    case ReapSelect(k) =>
      s.(selected := IdsOf(Oldest(s.db, k)))
    case ReapDelete =>
      if s.selected == {} then s
      else s.(db := Delete(s.db, s.selected), selected := {}, outbox := s.outbox + [DeleteSession(s.selected)])
    case Publish(k) =>
      s.(outbox := s.outbox[..k] + s.outbox[k + 1..], inbox := s.inbox + [s.outbox[k]])
    case Arrive =>
      s.(ui := s.ui.(list := Receive(q.configId, s.ui.list, s.inbox[0])), inbox := s.inbox[1..])
    case LoadMore =>
      s.(ui := s.ui.(offset := s.ui.offset + LIMIT, loading := true, page := None))
    case FetchPage =>
      var page := Stubs(RecentSessions(s.db, q, LIMIT, s.ui.offset));
      s.(ui := Ui(MergePage(s.ui.list, page, s.ui.offset), s.ui.offset, false, Some(|page|)),
         merged := s.ui.offset + LIMIT)
  }

  // A row in progress keeps its configuration and its timestamp.
  ghost predicate OpenOk(db: Table, open: map<string, Session>) {
    && (forall id :: id in open ==> open[id].id == id)
    && (forall i :: 0 <= i < |db| && db[i].id in open ==>
          db[i].configId == open[db[i].id].configId && db[i].timestamp == open[db[i].id].timestamp)
  }

  // A page that has just been opened, whatever else is going on.
  ghost predicate Opening(s: System) {
    && Distinct(s.db) && OpenOk(s.db, s.open) && (forall id :: id in s.selected ==> HasId(s.db, id))
    && s.inbox == [] && s.ui == Ui([], 0, false, None) && s.merged == 0
  }

  datatype Outcome = At(sys: System) | Blocked

  ghost function After(q: Query, s: System, steps: seq<Step>): Outcome {
    if steps == [] then At(s)
    else
      var o, step := After(q, s, steps[..|steps| - 1]), steps[|steps| - 1];
      if o.At? && CanStep(o.sys, step) then At(Next(q, o.sys, step)) else Blocked
  }

  // ---------- Which ids the list will hold once the inbox has been received ----------

  function PresentOne(configId: string, id: string, n: Notification, shown: bool): bool {
    match n
    case NewSession(s) => shown || (s.configId == configId && s.id == id)
    case DeleteSession(ids) => shown && id !in ids
  }

  function Present(configId: string, id: string, inbox: seq<Notification>, shown: bool): bool
    decreases |inbox|
  {
    if inbox == [] then shown
    else Present(configId, id, inbox[1..], PresentOne(configId, id, inbox[0], shown))
  }

  lemma {:induction false} PresentSnoc(configId: string, id: string, inbox: seq<Notification>, n: Notification, shown: bool)
    ensures Present(configId, id, inbox + [n], shown) == PresentOne(configId, id, n, Present(configId, id, inbox, shown))
    decreases |inbox|
  {
    if inbox == [] {
      assert [n][1..] == [];
    } else {
      assert (inbox + [n])[1..] == inbox[1..] + [n];
      PresentSnoc(configId, id, inbox[1..], n, PresentOne(configId, id, inbox[0], shown));
    }
  }

  lemma {:induction false} PresentMonotone(configId: string, id: string, inbox: seq<Notification>, shown: bool)
    requires Present(configId, id, inbox, shown)
    ensures Present(configId, id, inbox, true)
    decreases |inbox|
  {
    if inbox != [] {
      var one := PresentOne(configId, id, inbox[0], shown);
      if one == PresentOne(configId, id, inbox[0], true) {
      } else {
        PresentMonotone(configId, id, inbox[1..], one);
      }
    }
  }

  lemma FilteredStub(list: seq<Stub>, p: Stub -> bool, id: string)
    ensures HasStub(Filter(list, p), id) <==> exists s :: s in list && s.id == id && p(s)
  {
    var f := Filter(list, p);
    if HasStub(f, id) {
      var i :| 0 <= i < |f| && f[i].id == id;
      assert f[i] in f;
    }
    if s :| s in list && s.id == id && p(s) {
      assert s in f;
    }
  }

  lemma MergedStub(prev: seq<Stub>, s: Stub, id: string)
    ensures HasStub(MergeSession(prev, s), id) <==> id == s.id || HasStub(prev, id)
  {
    var k, r := FindIndex(prev, s.id), MergeSession(prev, s);
    if k > -1 {
      assert r[k].id == s.id;
      if HasStub(prev, id) {
        var i :| 0 <= i < |prev| && prev[i].id == id;
        assert r[i].id == id;
      }
    } else {
      assert r[0].id == s.id;
      if HasStub(prev, id) {
        var i :| 0 <= i < |prev| && prev[i].id == id;
        assert r[i + 1].id == id;
      }
    }
  }

  lemma ReceivedStub(configId: string, prev: seq<Stub>, n: Notification, id: string)
    ensures HasStub(Receive(configId, prev, n), id) <==> PresentOne(configId, id, n, HasStub(prev, id))
  {
    match n
    case NewSession(s) => MergedStub(prev, s, id);
    case DeleteSession(ids) => FilteredStub(prev, StubNotIn(ids), id);
  }

  lemma {:induction false} PresentReceive(configId: string, list: seq<Stub>, inbox: seq<Notification>, id: string)
    ensures HasStub(ReceiveAll(configId, list, inbox), id) <==> Present(configId, id, inbox, HasStub(list, id))
    decreases |inbox|
  {
    if inbox != [] {
      ReceivedStub(configId, list, inbox[0], id);
      PresentReceive(configId, Receive(configId, list, inbox[0]), inbox[1..], id);
    }
  }

  // ---------- The list never shows an id twice ----------

  lemma {:induction false} FilterDistinctStubs(list: seq<Stub>, p: Stub -> bool)
    requires DistinctStubs(list)
    ensures DistinctStubs(Filter(list, p))
  {
    if list != [] {
      FilterDistinctStubs(list[1..], p);
      var f := Filter(list[1..], p);
      forall i | 0 <= i < |f| ensures f[i].id != list[0].id {
        assert f[i] in list[1..];
        var k :| 0 <= k < |list[1..]| && list[1..][k] == f[i];
      }
    }
  }

  lemma ReceiveDistinct(configId: string, prev: seq<Stub>, n: Notification)
    requires DistinctStubs(prev)
    ensures DistinctStubs(Receive(configId, prev, n))
  {
    match n
    case NewSession(s) =>
    case DeleteSession(ids) => FilterDistinctStubs(prev, StubNotIn(ids));
  }

  lemma MergePageDistinct(prev: seq<Stub>, page: seq<Stub>, offset: nat)
    requires DistinctStubs(prev) && DistinctStubs(page)
    ensures DistinctStubs(MergePage(prev, page, offset))
  {
    FilterDistinctStubs(page, NotShown(prev));
    var f := Filter(page, NotShown(prev));
    forall i | 0 <= i < |f| ensures !HasStub(prev, f[i].id) { assert f[i] in f; }
  }
}
