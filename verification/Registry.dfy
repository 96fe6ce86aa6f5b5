/**
 The proxy registry: configuration rows in the database, and the process-wide
 store of configuration ids, configurations and servers.  Requests to the registry
 are handled one at a time; a proxied request stores its session when it begins and
 saves it again, from a goroutine of its own, when it has finished.
 */
module Registry {
  import opened Lists
  import opened Options

  datatype Entry = Entry(listen: string, target: string, truncateLogBody: bool, active: bool, error: string)

  // The fingerprint is a hash of the entry's JSON, active and error included: the entry itself.
  datatype Row = Row(id: string, entry: Entry)

  datatype ProxyConfig = ProxyConfig(configId: string, listen: string, target: string)

  // `serial` tells one server object from another.
  datatype Server = Server(serial: nat, addr: string, configId: string)

  datatype Session = Session(id: string, configId: string)

  // `open` holds the servers that listen, `draining` those that were closed by force while
  // handlers may still run, `held` the sessions of requests that have not finished.
  datatype State = State(
    ids: seq<string>, configs: map<string, ProxyConfig>, servers: map<string, Server>,
    hasDb: bool, rows: seq<Row>, sessions: seq<Session>, held: seq<Session>,
    open: set<Server>, draining: set<Server>, launched: nat)

  // What the database does for GetOrCreateConfigRow: whether the look-up succeeds, the id of the
  // row inserted (None: the insert fails), and whether the second look-up succeeds.
  datatype Database = Database(lookup: bool, newId: Option<string>, again: bool)

  datatype Reply = Started(id: string) | Refused

  // ---------- Configuration rows ----------

  function FindRow(rows: seq<Row>, e: Entry): (id: Option<string>)
    ensures id.Some? ==> Row(id.value, e) in rows
    ensures id.None? ==> forall r :: r in rows ==> r.entry != e
  {
    if rows == [] then None else if rows[0].entry == e then Some(rows[0].id) else FindRow(rows[1..], e)
  }

  predicate HasRow(rows: seq<Row>, id: string) {
    exists r :: r in rows && r.id == id
  }

  // Ids are keys, and so are fingerprints.
  ghost predicate RowsOk(rows: seq<Row>) {
    && (forall r :: r in rows ==> r.id != "")
    && (forall i, j :: 0 <= i < j < |rows| ==> rows[i].id != rows[j].id && rows[i].entry != rows[j].entry)
  }

  // The rows once another process has inserted `rival` between the look-up and the insert.
  function Seen(rows: seq<Row>, rival: Option<Row>): seq<Row> {
    if rival.Some? then rows + [rival.value] else rows
  }

  // Look up, then insert.  The insert fails by itself or because the fingerprint is taken.
  function RowsAfter(rows: seq<Row>, e: Entry, db: Database, rival: Option<Row>): seq<Row> {
    if !db.lookup || FindRow(rows, e).Some? then rows
    else if db.newId.Some? && FindRow(Seen(rows, rival), e).None? then Seen(rows, rival) + [Row(db.newId.value, e)]
    else Seen(rows, rival)
  }

  // A failed insert looks up once more.
  function ConfigId(rows: seq<Row>, e: Entry, db: Database, rival: Option<Row>): Option<string> {
    if !db.lookup then None
    else if FindRow(rows, e).Some? then FindRow(rows, e)
    else if db.newId.Some? && FindRow(Seen(rows, rival), e).None? then db.newId
    else if db.again then FindRow(Seen(rows, rival), e)
    else None
  }

  ghost predicate Fresh(s: State, id: string) {
    id != "" && id !in s.ids && !HasRow(s.rows, id)
  }

  // ---------- Start, stop, delete ----------

  datatype Closing = Graceful | Forced | Unclosed

  datatype Step =
    | Start(entry: Entry, targetOk: bool, db: Database, rival: Option<Row>)  // targetOk: the target parses, with a scheme
    | Fail(server: Server)                           // ListenAndServe returns an error
    | Stop(id: string, how: Closing)                 // Shutdown, or the forced Close after it, or neither works
    | Drain(server: Server)                          // the last handler of a closed server returns
    | DeleteConfig(id: string, commits: bool)
    | Begin(server: Server, sessionId: string)       // a request stores its session ...
    | Finish(k: nat, saves: bool)                    // ... and, later, saves it again
    | Prune(sessionIds: set<string>)                 // the reaper, or a user, deletes sessions

  predicate HasSession(xs: seq<Session>, id: string) {
    exists x :: x in xs && x.id == id
  }

  ghost predicate CanStep(s: State, step: Step) {
    match step
    case Start(e, _, db, rival) =>
      && (db.newId.Some? ==> Fresh(s, db.newId.value))
      && (rival.Some? ==> Fresh(s, rival.value.id) && FindRow(s.rows, rival.value.entry).None?)
      && (rival.Some? && db.newId.Some? ==> rival.value.id != db.newId.value)
    case Fail(server) => server in s.open
    case Drain(server) => server in s.draining
    case Begin(server, id) => s.hasDb && server in s.open + s.draining && !HasSession(s.sessions + s.held, id)
    case Finish(k, _) => k < |s.held|
    case _ => true
  }

  predicate Valid(e: Entry, targetOk: bool) {
    targetOk && e.listen != ""
  }

  function StartReply(s: State, e: Entry, targetOk: bool, db: Database, rival: Option<Row>): Reply {
    if !Valid(e, targetOk) then Refused
    else if !s.hasDb then Started("")
    else
      var id := ConfigId(s.rows, e, db, rival);
      if id.Some? then Started(id.value) else Refused
  }

  function AddId(ids: seq<string>, id: string): seq<string> {
    if id in ids then ids else ids + [id]
  }

  function Launch(s: State, e: Entry, id: string): State {
    var server := Server(s.launched, e.listen, id);
    var s' := s.(open := s.open + {server}, launched := s.launched + 1);
    if id == "" then s'
    else s'.(ids := AddId(s.ids, id), configs := s.configs[id := ProxyConfig(id, e.listen, e.target)],
             servers := s.servers[id := server])
  }

  function AfterStart(s: State, e: Entry, targetOk: bool, db: Database, rival: Option<Row>): State {
    var registered := if Valid(e, targetOk) && s.hasDb then s.(rows := RowsAfter(s.rows, e, db, rival)) else s;
    var reply := StartReply(s, e, targetOk, db, rival);
    if reply.Started? then Launch(registered, e, reply.id) else registered
  }

  function AfterStop(s: State, id: string, how: Closing): State {
    if id !in s.servers || how.Unclosed? then s
    else
      var server := s.servers[id];
      s.(servers := s.servers - {id}, open := s.open - {server},
         draining := if how.Forced? && server in s.open then s.draining + {server} else s.draining)
  }

  predicate Deletes(s: State, id: string, commits: bool) {
    s.hasDb && id != "" && id !in s.servers && commits
  }

  function OtherSession(id: string): Session -> bool {
    (x: Session) => x.configId != id
  }

  function OtherRow(id: string): Row -> bool {
    (r: Row) => r.id != id
  }

  function AfterDelete(s: State, id: string, commits: bool): State {
    if Deletes(s, id, commits)
    then s.(sessions := Filter(s.sessions, OtherSession(id)), rows := Filter(s.rows, OtherRow(id)))
    else s
  }

  // Save is an upsert: a session deleted meanwhile comes back.
  function Saved(xs: seq<Session>, x: Session): seq<Session> {
    if HasSession(xs, x.id) then xs else xs + [x]
  }

  function NotOneOf(ids: set<string>): Session -> bool {
    (x: Session) => x.id !in ids
  }

  function Next(s: State, step: Step): State
    requires CanStep(s, step)
  {
    match step
    case Start(e, targetOk, db, rival) => AfterStart(s, e, targetOk, db, rival)
    case Fail(server) => s.(open := s.open - {server})
    case Stop(id, how) => AfterStop(s, id, how)
    case Drain(server) => s.(draining := s.draining - {server})
    case DeleteConfig(id, commits) => AfterDelete(s, id, commits)
    case Begin(server, sessionId) =>
      var x := Session(sessionId, server.configId);
      s.(sessions := s.sessions + [x], held := s.held + [x])
    case Finish(k, saves) =>
      s.(sessions := if saves then Saved(s.sessions, s.held[k]) else s.sessions, held := s.held[..k] + s.held[k + 1..])
    case Prune(ids) => s.(sessions := Filter(s.sessions, NotOneOf(ids)))
  }

  // ---------- The invariant ----------

  ghost predicate DistinctIds(ids: seq<string>) {
    forall i, j :: 0 <= i < j < |ids| ==> ids[i] != ids[j]
  }

  // Ids are distinct, they are the configurations' keys, and only they have servers.
  ghost predicate StoreOk(s: State) {
    && DistinctIds(s.ids)
    && (forall id :: id in s.ids <==> id in s.configs)
    && (forall id :: id in s.configs ==> s.configs[id].configId == id)
    && (forall id :: id in s.servers ==> id in s.configs && s.servers[id].configId == id)
  }

  // A running id has a row, and its server and configuration are those of the row.
  ghost predicate RunningHaveRows(s: State) {
    forall id :: id in s.servers ==> exists r :: r in s.rows && r.id == id && Serves(s, r)
  }

  ghost predicate Serves(s: State, r: Row) {
    && r.id in s.servers && s.servers[r.id].addr == r.entry.listen
    && r.id in s.configs && s.configs[r.id] == ProxyConfig(r.id, r.entry.listen, r.entry.target)
  }

  // The next server launched is a new one.
  ghost predicate ServersOk(s: State) {
    && (forall id :: id in s.servers ==> s.servers[id].serial < s.launched)
    && (forall v :: v in s.open + s.draining ==> v.serial < s.launched)
  }

  ghost predicate Inv(s: State) {
    StoreOk(s) && RowsOk(s.rows) && RunningHaveRows(s) && ServersOk(s)
  }

  lemma AppendRow(rows: seq<Row>, r: Row)
    requires RowsOk(rows) && r.id != "" && !HasRow(rows, r.id) && FindRow(rows, r.entry).None?
    ensures RowsOk(rows + [r])
  {
    assert forall i :: 0 <= i < |rows| ==> rows[i] in rows;
  }

  // At most one row per fingerprint, also when the insert lost the race.  An id is returned
  // unless the database failed, and it is that row's; nothing happens unless the look-up works.
  lemma GetOrCreateKeepsRows(s: State, e: Entry, db: Database, rival: Option<Row>)
    requires RowsOk(s.rows) && CanStep(s, Start(e, true, db, rival))
    ensures RowsOk(RowsAfter(s.rows, e, db, rival))
    ensures forall r :: r in s.rows ==> r in RowsAfter(s.rows, e, db, rival)
    ensures rival.Some? && db.lookup && FindRow(s.rows, e).None? ==> rival.value in RowsAfter(s.rows, e, db, rival)
    ensures var id := ConfigId(s.rows, e, db, rival);
      && (id.None? ==> !db.lookup || (FindRow(s.rows, e).None? && (db.newId.None? || !db.again)))
      && (id.Some? ==> db.lookup && Row(id.value, e) in RowsAfter(s.rows, e, db, rival))
  {
    var seen := Seen(s.rows, rival);
    if FindRow(s.rows, e).None? {
      if rival.Some? {
        AppendRow(s.rows, rival.value);
      }
      if db.newId.Some? && FindRow(seen, e).None? {
        AppendRow(seen, Row(db.newId.value, e));
        assert (seen + [Row(db.newId.value, e)])[|seen|] == Row(db.newId.value, e);
      }
    }
  }

  // A new row is the rival's or the one asked for.
  lemma NewRows(s: State, e: Entry, db: Database, rival: Option<Row>, r: Row)
    requires r in RowsAfter(s.rows, e, db, rival)
    ensures r in s.rows || (rival.Some? && r == rival.value) || (db.newId.Some? && r == Row(db.newId.value, e))
  {
  }

  // A start that gets the id of a running server found the row that was there.
  lemma RunningIdIsOld(s: State, e: Entry, db: Database, rival: Option<Row>, id: string)
    requires Inv(s) && CanStep(s, Start(e, true, db, rival)) && ConfigId(s.rows, e, db, rival) == Some(id)
    ensures id in s.ids ==> FindRow(s.rows, e) == Some(id)
  {
    GetOrCreateKeepsRows(s, e, db, rival);
    NewRows(s, e, db, rival, Row(id, e));
    if FindRow(s.rows, e).None? {
      assert forall r :: r in s.rows ==> r.entry != e;
    }
  }

  lemma AddIdKeeps(ids: seq<string>, id: string)
    requires DistinctIds(ids)
    ensures DistinctIds(AddId(ids, id))
    ensures forall x :: x in AddId(ids, id) <==> x in ids || x == id
  {
  }

  lemma LaunchKeepsInv(s: State, e: Entry, id: string)
    requires Inv(s) && (id != "" ==> Row(id, e) in s.rows)
    ensures Inv(Launch(s, e, id))
  {
    AddIdKeeps(s.ids, id);
  }

  lemma RegisterKeepsInv(s: State, e: Entry, db: Database, rival: Option<Row>)
    requires Inv(s) && CanStep(s, Start(e, true, db, rival))
    ensures Inv(s.(rows := RowsAfter(s.rows, e, db, rival)))
    ensures var id := ConfigId(s.rows, e, db, rival);
      id.Some? ==> id.value != "" && Row(id.value, e) in RowsAfter(s.rows, e, db, rival)
  {
    GetOrCreateKeepsRows(s, e, db, rival);
    var s' := s.(rows := RowsAfter(s.rows, e, db, rival));
    forall id | id in s.servers ensures exists r :: r in s'.rows && r.id == id && Serves(s', r) {
      var r :| r in s.rows && r.id == id && Serves(s, r);
      assert r in s'.rows && Serves(s', r);
    }
  }

  lemma StartKeepsInv(s: State, step: Step)
    requires Inv(s) && CanStep(s, step) && step.Start?
    ensures Inv(Next(s, step))
  {
    var Start(e, targetOk, db, rival) := step;
    var reply := StartReply(s, e, targetOk, db, rival);
    if Valid(e, targetOk) && s.hasDb {
      RegisterKeepsInv(s, e, db, rival);
      if reply.Started? {
        LaunchKeepsInv(s.(rows := RowsAfter(s.rows, e, db, rival)), e, reply.id);
      }
    } else if reply.Started? {
      LaunchKeepsInv(s, e, "");
    }
  }

  lemma RestRowsOk(rows: seq<Row>)
    requires RowsOk(rows) && rows != []
    ensures RowsOk(rows[1..]) && rows[0].id != ""
    ensures forall r :: r in rows[1..] ==> r.id != rows[0].id && r.entry != rows[0].entry
  {
    assert rows[0] in rows;
    forall r | r in rows[1..] ensures r.id != rows[0].id && r.entry != rows[0].entry {
      var k :| 0 <= k < |rows[1..]| && rows[1..][k] == r;
      assert r == rows[k + 1];
    }
  }

  lemma ConsRowsOk(row: Row, rows: seq<Row>)
    requires RowsOk(rows) && row.id != ""
    requires forall r :: r in rows ==> r.id != row.id && r.entry != row.entry
    ensures RowsOk([row] + rows)
  {
  }

  lemma {:induction false} FilterRowsOk(rows: seq<Row>, p: Row -> bool)
    requires RowsOk(rows)
    ensures RowsOk(Filter(rows, p))
  {
    if rows != [] {
      RestRowsOk(rows);
      FilterRowsOk(rows[1..], p);
      if p(rows[0]) {
        ConsRowsOk(rows[0], Filter(rows[1..], p));
      } else {
        assert Filter(rows, p) == Filter(rows[1..], p);
      }
    }
  }

  lemma DeleteKeepsInv(s: State, id: string, commits: bool)
    requires Inv(s)
    ensures Inv(AfterDelete(s, id, commits))
  {
    var s' := AfterDelete(s, id, commits);
    if Deletes(s, id, commits) {
      FilterRowsOk(s.rows, OtherRow(id));
      forall x | x in s'.servers
        ensures exists r :: r in s'.rows && r.id == x && Serves(s', r)
      {
        var r :| r in s.rows && r.id == x && Serves(s, r);
        assert OtherRow(id)(r) && r in s'.rows && Serves(s', r);
      }
    }
  }

  lemma StopKeepsInv(s: State, id: string, how: Closing)
    requires Inv(s)
    ensures Inv(AfterStop(s, id, how))
  {
    var s' := AfterStop(s, id, how);
    forall x | x in s'.servers ensures exists r :: r in s'.rows && r.id == x && Serves(s', r) {
      var r :| r in s.rows && r.id == x && Serves(s, r);
      assert Serves(s', r);
    }
  }

  lemma {:induction false} StepKeepsInv(s: State, step: Step)
    requires Inv(s) && CanStep(s, step)
    ensures Inv(Next(s, step))
  {
    match step
    case Start(_, _, _, _) => StartKeepsInv(s, step);
    case DeleteConfig(id, commits) => DeleteKeepsInv(s, id, commits);
    case Stop(id, how) => StopKeepsInv(s, id, how);
    case _ =>
  }

  // ---------- Every run ----------

  // A process starts with an empty store on a database from earlier runs.
  ghost predicate Init(s: State) {
    && s.ids == [] && s.configs == map[] && s.servers == map[]
    && s.open == {} && s.draining == {} && s.launched == 0 && s.held == []
    && RowsOk(s.rows) && Backed(s)
  }

  // Every stored session belongs to a stored configuration.
  ghost predicate Backed(s: State) {
    forall x :: x in s.sessions ==> HasRow(s.rows, x.configId)
  }

  datatype Outcome = At(state: State) | Blocked

  ghost function After(s0: State, steps: seq<Step>): Outcome {
    if steps == [] then At(s0)
    else
      var o, step := After(s0, steps[..|steps| - 1]), steps[|steps| - 1];
      if o.At? && CanStep(o.state, step) then At(Next(o.state, step)) else Blocked
  }

  lemma {:induction false} Prefix(s0: State, steps: seq<Step>, k: nat)
    requires After(s0, steps).At? && k <= |steps|
    ensures After(s0, steps[..k]).At?
    ensures k < |steps| ==> CanStep(After(s0, steps[..k]).state, steps[k])
  {
    if k == |steps| {
      assert steps[..k] == steps;
    } else {
      var front := steps[..|steps| - 1];
      Prefix(s0, front, k);
      assert front[..k] == steps[..k];
    }
  }

  lemma OneMore(s0: State, steps: seq<Step>, k: nat)
    requires After(s0, steps).At? && k < |steps|
    ensures After(s0, steps[..k]).At? && After(s0, steps[..k + 1]).At?
    ensures CanStep(After(s0, steps[..k]).state, steps[k])
    ensures After(s0, steps[..k + 1]).state == Next(After(s0, steps[..k]).state, steps[k])
  {
    Prefix(s0, steps, k);
    Prefix(s0, steps, k + 1);
    assert steps[..k + 1][..k] == steps[..k];
  }

  // Over every run: ids distinct and equal to the configurations' keys, running servers among
  // them, every running id backed by a row, at most one row per fingerprint.
  lemma {:induction false} RunKeepsInv(s0: State, steps: seq<Step>)
    requires Init(s0) && After(s0, steps).At?
    ensures Inv(After(s0, steps).state)
  {
    if steps != [] {
      RunKeepsInv(s0, steps[..|steps| - 1]);
      StepKeepsInv(After(s0, steps[..|steps| - 1]).state, steps[|steps| - 1]);
    }
  }

  // ---------- Equal entries share an id ----------

  // Step k starts entry e and gets this id.
  ghost predicate StartsAs(s0: State, steps: seq<Step>, k: nat, e: Entry, id: string)
    requires After(s0, steps).At?
  {
    && k < |steps| && steps[k].Start? && steps[k].entry == e
    && After(s0, steps[..k]).At?
    && StartReply(After(s0, steps[..k]).state, e, steps[k].targetOk, steps[k].db, steps[k].rival) == Started(id)
  }

  ghost predicate DeletesAt(s0: State, steps: seq<Step>, m: nat, id: string) {
    && m < |steps| && steps[m].DeleteConfig? && steps[m].id == id && After(s0, steps[..m]).At?
    && Deletes(After(s0, steps[..m]).state, id, steps[m].commits)
  }

  ghost predicate Undeleted(s0: State, steps: seq<Step>, j: nat, k: nat, id: string) {
    forall m :: j < m < k ==> !DeletesAt(s0, steps, m, id)
  }

  // One step keeps a known row exactly when it does not delete it, and never revives it.
  lemma RowStep(s: State, step: Step, row: Row)
    requires Inv(s) && CanStep(s, step) && row.id in s.ids && row.id != ""
    ensures row.id in Next(s, step).ids
    ensures row in Next(s, step).rows
        <==> row in s.rows && !(step.DeleteConfig? && step.id == row.id && Deletes(s, row.id, step.commits))
  {
    match step
    case Start(e, _, db, rival) =>
      GetOrCreateKeepsRows(s, e, db, rival);
      if row in RowsAfter(s.rows, e, db, rival) {
        NewRows(s, e, db, rival, row);
      }
    case _ =>
  }

  // Any row, known or not, stays unless its own configuration is deleted.
  lemma RowStays(s: State, step: Step, row: Row)
    requires Inv(s) && CanStep(s, step) && row in s.rows
    ensures row in Next(s, step).rows <==>
      !(step.DeleteConfig? && step.id == row.id && step.commits && s.hasDb && row.id !in s.servers)
  {
    if step.Start? { GetOrCreateKeepsRows(s, step.entry, step.db, step.rival); }
  }

  // ---------- What becomes of a stored session ----------

  // The deletion of its own configuration, or a prune that names it.
  ghost predicate Removes(s: State, step: Step, x: Session) {
    match step
    case DeleteConfig(id, commits) => id == x.configId && id != "" && id !in s.servers && s.hasDb && commits
    case Prune(ids) => x.id in ids
    case _ => false
  }

  // A request that begins, or one that finishes and is saved when no session of its id is left.
  ghost predicate Stores(s: State, step: Step, x: Session)
    requires CanStep(s, step)
  {
    match step
    case Begin(server, sessionId) => x == Session(sessionId, server.configId)
    case Finish(k, saves) => saves && x == s.held[k] && forall y :: y in s.sessions ==> y.id != x.id
    case _ => false
  }

  // One step: a stored session goes exactly when the step removes it, another one comes exactly
  // when the step stores it.
  lemma SessionStep(s: State, step: Step, x: Session)
    requires CanStep(s, step)
    ensures x in Next(s, step).sessions <==> if x in s.sessions then !Removes(s, step, x) else Stores(s, step, x)
  {
  }

  ghost predicate RemovesAt(s0: State, steps: seq<Step>, m: nat, x: Session) {
    m < |steps| && After(s0, steps[..m]).At? && Removes(After(s0, steps[..m]).state, steps[m], x)
  }

  // Over every run a stored session that is gone was removed by a deletion of its own configuration
  // or by a prune that names it.
  lemma {:induction false} SessionLostBy(s0: State, steps: seq<Step>, j: nat, k: nat, x: Session) returns (m: nat)
    requires After(s0, steps).At? && j <= k <= |steps|
    requires After(s0, steps[..j]).At? && x in After(s0, steps[..j]).state.sessions
    requires After(s0, steps[..k]).At? && x !in After(s0, steps[..k]).state.sessions
    ensures j <= m < k && RemovesAt(s0, steps, m, x)
    decreases k
  {
    OneMore(s0, steps, k - 1);
    var s := After(s0, steps[..k - 1]).state;
    if x in s.sessions {
      SessionStep(s, steps[k - 1], x);
      m := k - 1;
    } else {
      m := SessionLostBy(s0, steps, j, k - 1, x);
    }
  }

  lemma UndeletedOneMore(s0: State, steps: seq<Step>, j: nat, i: nat, id: string)
    requires After(s0, steps).At? && j < i < |steps| && After(s0, steps[..i]).At?
    ensures Undeleted(s0, steps, j, i + 1, id) <==> Undeleted(s0, steps, j, i, id) && !DeletesAt(s0, steps, i, id)
  {
    assert !DeletesAt(s0, steps, i, id) ==> Undeleted(s0, steps, j, i, id) ==> Undeleted(s0, steps, j, i + 1, id);
  }

  lemma {:induction false} RowLives(s0: State, steps: seq<Step>, j: nat, k: nat, row: Row)
    requires Init(s0) && After(s0, steps).At? && s0.hasDb && j < k <= |steps|
    requires StartsAs(s0, steps, j, row.entry, row.id)
    ensures After(s0, steps[..k]).At? && row.id in After(s0, steps[..k]).state.ids && row.id != ""
    ensures row in After(s0, steps[..k]).state.rows <==> Undeleted(s0, steps, j, k, row.id)
  {
    var i := k - 1;
    OneMore(s0, steps, i);
    RunKeepsInv(s0, steps[..i]);
    HasDbStays(s0, steps[..i]);
    var s := After(s0, steps[..i]).state;
    if j == i {
      StartedRow(s, steps[i], row);
    } else {
      RowLives(s0, steps, j, i, row);
      RowStep(s, steps[i], row);
      UndeletedOneMore(s0, steps, j, i, row.id);
    }
  }

  lemma {:induction false} HasDbStays(s0: State, steps: seq<Step>)
    requires After(s0, steps).At?
    ensures After(s0, steps).state.hasDb == s0.hasDb
  {
    if steps != [] {
      HasDbStays(s0, steps[..|steps| - 1]);
    }
  }

  lemma StartedRow(s: State, step: Step, row: Row)
    requires Inv(s) && CanStep(s, step) && step.Start? && s.hasDb && step.entry == row.entry
    requires StartReply(s, step.entry, step.targetOk, step.db, step.rival) == Started(row.id)
    ensures row in Next(s, step).rows && row.id in Next(s, step).ids && row.id != ""
  {
    GetOrCreateKeepsRows(s, step.entry, step.db, step.rival);
  }

  // Two starts of one entry get one id exactly when the configuration was not deleted in between.
  lemma EqualEntriesShareIdIff(s0: State, steps: seq<Step>, j: nat, k: nat, e: Entry, id: string, id': string)
    requires Init(s0) && s0.hasDb && After(s0, steps).At? && j < k
    requires StartsAs(s0, steps, j, e, id) && StartsAs(s0, steps, k, e, id')
    ensures id == id' <==> Undeleted(s0, steps, j, k, id)
  {
    RowLives(s0, steps, j, k, Row(id, e));
    OneMore(s0, steps, k);
    RunKeepsInv(s0, steps[..k]);
    HasDbStays(s0, steps[..k]);
    SecondStart(After(s0, steps[..k]).state, steps[k], Row(id, e), id');
  }

  lemma SecondStart(s: State, step: Step, row: Row, id': string)
    requires Inv(s) && CanStep(s, step) && step.Start? && s.hasDb && step.entry == row.entry && row.id in s.ids
    requires StartReply(s, step.entry, step.targetOk, step.db, step.rival) == Started(id')
    ensures id' == row.id <==> row in s.rows
  {
    StartedRow(s, step, Row(id', row.entry));
    NewRows(s, step.entry, step.db, step.rival, Row(id', row.entry));
    if row in s.rows {
      OneRowPerEntry(s.rows, row, Row(FindRow(s.rows, row.entry).value, row.entry));
    }
  }

  lemma OneRowPerEntry(rows: seq<Row>, r: Row, r': Row)
    requires RowsOk(rows) && r in rows && r' in rows && r.entry == r'.entry
    ensures r == r'
  {
    var i :| 0 <= i < |rows| && rows[i] == r;
    var j :| 0 <= j < |rows| && rows[j] == r';
  }
}
