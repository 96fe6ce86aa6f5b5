/** Servers that listen and that nobody can stop any more. */
module RegistryReach {
  import opened Options
  import opened Registry

  // Stopping its configuration would stop this server.
  predicate Reachable(s: State, v: Server) {
    v.configId in s.servers && s.servers[v.configId] == v
  }

  // The server that a step puts out of reach: any server started without a database, and the
  // server of a running id when its entry is started again.
  function LostBy(s: State, step: Step): Option<Server> {
    if !step.Start? || !Valid(step.entry, step.targetOk) then None
    else if !s.hasDb then Some(Server(s.launched, step.entry.listen, ""))
    else
      var id := FindRow(s.rows, step.entry);
      if step.db.lookup && id.Some? && id.value in s.servers then Some(s.servers[id.value]) else None
  }

  lemma NoEmptyId(s: State)
    requires Inv(s)
    ensures "" !in s.servers
  {
    forall id | id in s.servers ensures id != "" {
      var r :| r in s.rows && r.id == id && Serves(s, r);
    }
  }

  lemma LaunchOutOfReach(s: State, e: Entry, id: string, v: Server)
    requires Inv(s) && v in Launch(s, e, id).open
    ensures !Reachable(Launch(s, e, id), v) <==>
      (v in s.open && !Reachable(s, v)) || (id == "" && v == Server(s.launched, e.listen, ""))
      || (id != "" && id in s.servers && v == s.servers[id])
  {
    NoEmptyId(s);
    var s', new' := Launch(s, e, id), Server(s.launched, e.listen, id);
    if v != new' && id != "" && v.configId == id {
      assert s'.servers[id] == new';
    }
  }

  lemma StartOutOfReach(s: State, step: Step, v: Server)
    requires Inv(s) && CanStep(s, step) && step.Start? && v in Next(s, step).open
    ensures !Reachable(Next(s, step), v) <==> (v in s.open && !Reachable(s, v)) || LostBy(s, step) == Some(v)
  {
    var Start(e, targetOk, db, rival) := step;
    var reply := StartReply(s, e, targetOk, db, rival);
    if Valid(e, targetOk) && s.hasDb {
      RegisterKeepsInv(s, e, db, rival);
      if reply.Started? {
        RunningIdIsOld(s, e, db, rival, reply.id);
        LaunchOutOfReach(s.(rows := RowsAfter(s.rows, e, db, rival)), e, reply.id, v);
      }
    } else if reply.Started? {
      LaunchOutOfReach(s, e, "", v);
    }
  }

  // One step: a listening server is out of reach exactly when it was or the step lost it.
  lemma StepOutOfReachIff(s: State, step: Step, v: Server)
    requires Inv(s) && CanStep(s, step) && v in Next(s, step).open
    ensures !Reachable(Next(s, step), v) <==> (v in s.open && !Reachable(s, v)) || LostBy(s, step) == Some(v)
  {
    match step
    case Start(_, _, _, _) => StartOutOfReach(s, step, v);
    case _ =>
  }

  ghost predicate LostAt(s0: State, steps: seq<Step>, k: nat, v: Server) {
    && k < |steps| && After(s0, steps[..k]).At? && CanStep(After(s0, steps[..k]).state, steps[k])
    && LostBy(After(s0, steps[..k]).state, steps[k]) == Some(v)
  }

  lemma LostIsOld(s: State, step: Step)
    requires Inv(s) && CanStep(s, step) && LostBy(s, step).Some?
    ensures LostBy(s, step).value.serial < Next(s, step).launched
  {
  }

  lemma LaunchedGrows(s: State, step: Step)
    requires CanStep(s, step)
    ensures Next(s, step).launched >= s.launched
  {
  }

  lemma {:induction false} LostWasLaunched(s0: State, steps: seq<Step>, k: nat, v: Server)
    requires Init(s0) && After(s0, steps).At? && LostAt(s0, steps, k, v)
    ensures v.serial < After(s0, steps).state.launched
  {
    var n := |steps| - 1;
    var front := steps[..n];
    LaunchedGrows(After(s0, front).state, steps[n]);
    if k == n {
      RunKeepsInv(s0, front);
      LostIsOld(After(s0, front).state, steps[n]);
    } else {
      assert front[..k] == steps[..k];
      LostWasLaunched(s0, front, k, v);
    }
  }

  // Over every run: a listening server is out of reach exactly when some start lost it.
  lemma {:induction false} OutOfReachIff(s0: State, steps: seq<Step>, v: Server)
    requires Init(s0) && After(s0, steps).At? && v in After(s0, steps).state.open
    ensures !Reachable(After(s0, steps).state, v) <==> EverLost(s0, steps, v)
  {
    var n := |steps| - 1;
    var front := steps[..n];
    var s := After(s0, front).state;
    RunKeepsInv(s0, front);
    StepOutOfReachIff(s, steps[n], v);
    LostOneMore(s0, steps, v);
    if v in s.open {
      OutOfReachIff(s0, front, v);
    } else {
      NewWasNotLost(s0, front, v);
    }
  }

  ghost predicate EverLost(s0: State, steps: seq<Step>, v: Server) {
    exists k: nat :: LostAt(s0, steps, k, v)
  }

  lemma LostOneMore(s0: State, steps: seq<Step>, v: Server)
    requires steps != [] && After(s0, steps).At?
    ensures var front := steps[..|steps| - 1];
      EverLost(s0, steps, v) <==>
        EverLost(s0, front, v) || LostBy(After(s0, front).state, steps[|steps| - 1]) == Some(v)
  {
    var n := |steps| - 1;
    var front := steps[..n];
    forall k: nat | k < n ensures LostAt(s0, front, k, v) <==> LostAt(s0, steps, k, v) {
      assert front[..k] == steps[..k];
    }
    assert LostAt(s0, steps, n, v) <==> LostBy(After(s0, front).state, steps[n]) == Some(v);
    if EverLost(s0, front, v) {
      var k: nat :| LostAt(s0, front, k, v);
      assert LostAt(s0, steps, k, v);
    }
  }

  lemma NewWasNotLost(s0: State, steps: seq<Step>, v: Server)
    requires Init(s0) && After(s0, steps).At? && v.serial >= After(s0, steps).state.launched
    ensures !EverLost(s0, steps, v)
  {
    forall k: nat ensures !LostAt(s0, steps, k, v) {
      if LostAt(s0, steps, k, v) { LostWasLaunched(s0, steps, k, v); }
    }
  }
}
