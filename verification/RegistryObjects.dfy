/** The store and the handlers as objects. */
module RegistryObjects {
  import opened Lists
  import opened Options
  import opened Registry

  class GlobalVarStore {
    var configIds: seq<string>
    var idToConfig: map<string, ProxyConfig>
    var idToProxyServer: map<string, Server>

    constructor ()
      ensures configIds == [] && idToConfig == map[] && idToProxyServer == map[]
    {
      configIds, idToConfig, idToProxyServer := [], map[], map[];
    }

    method ConfigAdd(id: string)
      modifies this`configIds
      ensures configIds == AddId(old(configIds), id)
    {
      for i := 0 to |configIds|
        invariant configIds == old(configIds) && id !in configIds[..i]
      {
        if configIds[i] == id { return; }
      }
      assert configIds[..|configIds|] == configIds;
      configIds := configIds + [id];
    }

    method AddProxyConfig(id: string, config: ProxyConfig)
      modifies this`idToConfig
      ensures idToConfig == old(idToConfig)[id := config]
    {
      idToConfig := idToConfig[id := config];
    }

    method AddProxyServer(id: string, server: Server)
      modifies this`idToProxyServer
      ensures idToProxyServer == old(idToProxyServer)[id := server]
    {
      idToProxyServer := idToProxyServer[id := server];
    }

    method RemoveProxyServer(id: string) returns (found: bool)
      modifies this`idToProxyServer
      ensures idToProxyServer == old(idToProxyServer) - {id}
      ensures found <==> id in old(idToProxyServer)
    {
      found := id in idToProxyServer;
      idToProxyServer := idToProxyServer - {id};
    }
  }

  datatype DeleteReply = BadRequest | Conflict | Failed | Deleted

  class ProxyProcess {
    const store: GlobalVarStore
    const hasDb: bool
    var rows: seq<Row>
    var sessions: seq<Session>
    var held: seq<Session>      // one per goroutine that has a request to finish
    var launched: nat
    ghost var open: set<Server>
    ghost var draining: set<Server>

    ghost function Model(): State
      reads this, store
    {
      State(store.configIds, store.idToConfig, store.idToProxyServer, hasDb, rows, sessions, held, open, draining, launched)
    }

    ghost predicate Valid()
      reads this, store
    {
      Inv(Model())
    }

    constructor (hasDb: bool, rows: seq<Row>, sessions: seq<Session>)
      requires RowsOk(rows) && forall x :: x in sessions ==> HasRow(rows, x.configId)
      ensures fresh(store) && Init(Model()) && Valid()
      ensures this.hasDb == hasDb && this.rows == rows && this.sessions == sessions
    {
      store := new GlobalVarStore();
      this.hasDb, this.rows, this.sessions, held, launched, open, draining := hasDb, rows, sessions, [], 0, {}, {};
    }

    // Look up by fingerprint; insert when missing; on a failed insert look up again.
    method GetOrCreateConfigRow(e: Entry, db: Database, rival: Option<Row>) returns (id: Option<string>)
      modifies this`rows
      ensures rows == RowsAfter(old(rows), e, db, rival)
      ensures id == ConfigId(old(rows), e, db, rival)
    {
      if !db.lookup { return None; }
      id := FindRow(rows, e);
      if id.Some? { return; }
      if rival.Some? { rows := rows + [rival.value]; }
      var taken := FindRow(rows, e);
      if taken.None? && db.newId.Some? {
        rows := rows + [Row(db.newId.value, e)];
        return db.newId;
      }
      id := if db.again then taken else None;
    }

    method StartProxyServer(e: Entry, targetOk: bool, db: Database, rival: Option<Row>) returns (reply: Reply)
      requires Valid() && CanStep(Model(), Start(e, targetOk, db, rival))
      modifies this, store
      ensures Valid() && Model() == Next(old(Model()), Start(e, targetOk, db, rival))
      ensures reply == StartReply(old(Model()), e, targetOk, db, rival)
    {
      StepKeepsInv(Model(), Start(e, targetOk, db, rival));
      if !targetOk || e.listen == "" { return Refused; }
      var id := "";
      if hasDb {
        var row := GetOrCreateConfigRow(e, db, rival);
        if row.None? { return Refused; }
        id := row.value;
      }
      Register(e, id);
      return Started(id);
    }

    method Register(e: Entry, id: string)
      modifies this`launched, this`open, store
      ensures Model() == Launch(old(Model()), e, id)
    {
      var server := Server(launched, e.listen, id);
      if id != "" {
        store.ConfigAdd(id);
        store.AddProxyConfig(id, ProxyConfig(id, e.listen, e.target));
        store.AddProxyServer(id, server);
      }
      open, launched := open + {server}, launched + 1;
    }

    // Nothing to stop is no error.
    method StopProxyServer(id: string, how: Closing) returns (ok: bool)
      requires Valid()
      modifies this`open, this`draining, store
      ensures Valid() && Model() == Next(old(Model()), Stop(id, how))
      ensures ok <==> id !in store.idToProxyServer
    {
      StepKeepsInv(Model(), Stop(id, how));
      if id !in store.idToProxyServer { return true; }
      if how.Unclosed? { return false; }
      ghost var server := store.idToProxyServer[id];
      draining := if how.Forced? && server in open then draining + {server} else draining;
      open := open - {server};
      var found := store.RemoveProxyServer(id);
      return true;
    }

    method HandleDeleteConfig(id: string, commits: bool) returns (reply: DeleteReply)
      requires Valid()
      modifies this`rows, this`sessions
      ensures Valid() && Model() == Next(old(Model()), DeleteConfig(id, commits))
      ensures reply.BadRequest? <==> id == ""
      ensures reply.Conflict? <==> id != "" && id in store.idToProxyServer
      ensures reply.Deleted? <==> id != "" && id !in store.idToProxyServer && hasDb && commits
      ensures if reply.Deleted?
              then Kept(old(rows), rows, (r: Row) => r.id != id) && Kept(old(sessions), sessions, (x: Session) => x.configId != id)
              else rows == old(rows) && sessions == old(sessions)
    {
      StepKeepsInv(Model(), DeleteConfig(id, commits));
      if id == "" { return BadRequest; }
      if id in store.idToProxyServer { return Conflict; }
      if !hasDb || !commits { return Failed; }
      FilterKeeps(sessions, OtherSession(id), (x: Session) => x.configId != id);
      FilterKeeps(rows, OtherRow(id), (r: Row) => r.id != id);
      sessions := Filter(sessions, OtherSession(id));
      rows := Filter(rows, OtherRow(id));
      return Deleted;
    }

    // The handler stores the session and keeps the row ...
    method StartSession(server: Server, sessionId: string)
      requires Valid() && CanStep(Model(), Begin(server, sessionId))
      modifies this`sessions, this`held
      ensures Valid() && Model() == Next(old(Model()), Begin(server, sessionId))
      ensures sessions == old(sessions) + [Session(sessionId, server.configId)]
      ensures held == old(held) + [Session(sessionId, server.configId)]
    {
      StepKeepsInv(Model(), Begin(server, sessionId));
      var x := Session(sessionId, server.configId);
      sessions, held := sessions + [x], held + [x];
    }

    // ... and a goroutine of its own saves the row when the response is complete.
    method FinishSession(k: nat, saves: bool)
      requires Valid() && k < |held|
      modifies this`sessions, this`held
      ensures Valid() && Model() == Next(old(Model()), Finish(k, saves))
      ensures held == old(held)[..k] + old(held)[k + 1..]
      ensures sessions == old(sessions) + if saves && !HasSession(old(sessions), old(held)[k].id) then [old(held)[k]] else []
    {
      StepKeepsInv(Model(), Finish(k, saves));
      if saves { sessions := Saved(sessions, held[k]); }
      held := held[..k] + held[k + 1..];
    }
  }
}
