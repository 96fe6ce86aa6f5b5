/**
 Sessions and the configurations they belong to.  Deleting a configuration deletes its
 sessions, but a request that has not finished saves its session later, and a server
 that was lost or closed by force may still store one.
 */
module RegistrySessions {
  import opened Lists
  import opened Options
  import opened Registry
  import opened RegistryReach

  // A configuration goes while a request of it has not finished, or while some server could
  // still store one.
  ghost predicate Endangers(s: State, step: Step) {
    && step.DeleteConfig? && Deletes(s, step.id, step.commits)
    && (HeldOf(s, step.id) || ServedBy(s, step.id))
  }

  ghost predicate HeldOf(s: State, id: string) {
    exists x :: x in s.held && x.configId == id
  }

  ghost predicate ServedBy(s: State, id: string) {
    exists v :: v in s.open + s.draining && v.configId == id
  }

  // Whatever happens next, every stored session belongs to a stored configuration.
  ghost predicate StaysBacked(s: State) {
    Backed(s) && forall step :: CanStep(s, step) ==> Backed(Next(s, step))
  }

  // The same read off the state.
  ghost predicate Sound(s: State) {
    && Backed(s)
    && (forall x :: x in s.held ==> HasRow(s.rows, x.configId))
    && (s.hasDb ==> forall v :: v in s.open + s.draining ==> HasRow(s.rows, v.configId))
  }

  lemma DeleteKeepsBacked(s: State, id: string, commits: bool)
    requires Backed(s)
    ensures Backed(AfterDelete(s, id, commits))
    ensures forall c :: c != id && HasRow(s.rows, c) ==> HasRow(AfterDelete(s, id, commits).rows, c)
    ensures Deletes(s, id, commits) ==> !HasRow(AfterDelete(s, id, commits).rows, id)
  {
    var s' := AfterDelete(s, id, commits);
    forall c | c != id && HasRow(s.rows, c) ensures HasRow(s'.rows, c) {
      var r :| r in s.rows && r.id == c;
      assert r in s'.rows;
    }
  }

  lemma StartKeepsRows(s: State, step: Step)
    requires Inv(s) && CanStep(s, step) && step.Start?
    ensures forall c :: HasRow(s.rows, c) ==> HasRow(Next(s, step).rows, c)
    ensures Next(s, step).sessions == s.sessions && Next(s, step).held == s.held && Next(s, step).draining == s.draining
  {
    GetOrCreateKeepsRows(s, step.entry, step.db, step.rival);
  }

  lemma StartKeepsSound(s: State, step: Step)
    requires Inv(s) && CanStep(s, step) && step.Start? && Sound(s)
    ensures Sound(Next(s, step))
  {
    StartKeepsRows(s, step);
    var s', reply := Next(s, step), StartReply(s, step.entry, step.targetOk, step.db, step.rival);
    GetOrCreateKeepsRows(s, step.entry, step.db, step.rival);
    forall v | s.hasDb && v in s'.open + s'.draining ensures HasRow(s'.rows, v.configId) {
      if v !in s.open + s.draining {
        assert v.configId == reply.id && Row(reply.id, step.entry) in s'.rows;
      }
    }
  }

  lemma DeleteSoundIff(s: State, step: Step)
    requires Inv(s) && step.DeleteConfig? && Sound(s)
    ensures Sound(Next(s, step)) <==> !Endangers(s, step)
  {
    DeleteKeepsBacked(s, step.id, step.commits);
  }

  // One step from a sound state is sound exactly when it is no such deletion.
  lemma StepSoundIff(s: State, step: Step)
    requires Inv(s) && CanStep(s, step) && Sound(s)
    ensures Sound(Next(s, step)) <==> !Endangers(s, step)
  {
    match step
    case Start(_, _, _, _) => StartKeepsSound(s, step);
    case DeleteConfig(_, _) => DeleteSoundIff(s, step);
    case Finish(k, _) =>
      assert s.held[k] in s.held;
      assert forall x :: x in Next(s, step).held ==> x in s.held;
    case _ =>
  }

  lemma SoundKeepsBacked(s: State, step: Step)
    requires Inv(s) && CanStep(s, step) && Sound(s)
    ensures Backed(Next(s, step))
  {
    if step.DeleteConfig? {
      DeleteKeepsBacked(s, step.id, step.commits);
    } else {
      StepSoundIff(s, step);
    }
  }

  lemma UnheldStoresUnbacked(s: State, k: nat)
    requires Backed(s) && k < |s.held| && !HasRow(s.rows, s.held[k].configId)
    requires forall x, y :: x in s.sessions && y in s.held && x.id == y.id ==> x == y
    ensures !Backed(Next(s, Finish(k, true)))
  {
    var x := s.held[k];
    assert x in s.held;
    SavedIsThere(s.sessions, x);
  }

  lemma SavedIsThere(xs: seq<Session>, x: Session)
    requires forall y :: y in xs && y.id == x.id ==> y == x
    ensures x in Saved(xs, x)
  {
    if HasSession(xs, x.id) {
      var y :| y in xs && y.id == x.id;
    }
  }

  // A session id names one request.
  ghost predicate OneSession(s: State) {
    && (forall x, y :: x in s.sessions && y in s.held && x.id == y.id ==> x == y)
    && (forall i, j :: 0 <= i < j < |s.held| ==> s.held[i].id != s.held[j].id)
  }

  lemma FreshSession(xs: seq<Session>) returns (id: string)
    ensures !HasSession(xs, id)
  {
    id := Longer(xs);
    forall x | x in xs ensures x.id != id {
      LongerThan(xs, x);
    }
  }

  function Longer(xs: seq<Session>): string {
    if xs == [] then "x" else xs[0].id + Longer(xs[1..])
  }

  lemma {:induction false} LongerThan(xs: seq<Session>, x: Session)
    requires x in xs
    ensures |x.id| < |Longer(xs)|
  {
    NotEmpty(xs[1..]);
    if x != xs[0] {
      LongerThan(xs[1..], x);
    }
  }

  lemma {:induction false} NotEmpty(xs: seq<Session>)
    ensures |Longer(xs)| > 0
  {
    if xs != [] { NotEmpty(xs[1..]); }
  }

  // What soundness means.
  lemma SoundIffStaysBacked(s: State)
    requires Inv(s) && OneSession(s)
    ensures Sound(s) <==> StaysBacked(s)
  {
    if Sound(s) {
      forall step | CanStep(s, step) ensures Backed(Next(s, step)) {
        SoundKeepsBacked(s, step);
      }
    }
    if StaysBacked(s) {
      forall x | x in s.held ensures HasRow(s.rows, x.configId) {
        var k :| 0 <= k < |s.held| && s.held[k] == x;
        assert CanStep(s, Finish(k, true));
        if !HasRow(s.rows, x.configId) { UnheldStoresUnbacked(s, k); }
      }
      forall v | s.hasDb && v in s.open + s.draining ensures HasRow(s.rows, v.configId) {
        var id := FreshSession(s.sessions + s.held);
        assert CanStep(s, Begin(v, id));
        assert Session(id, v.configId) in Next(s, Begin(v, id)).sessions;
      }
    }
  }

  lemma StepKeepsOneSession(s: State, step: Step)
    requires OneSession(s) && CanStep(s, step)
    ensures OneSession(Next(s, step))
  {
    var s' := Next(s, step);
    match step
    case Begin(server, id) =>
      var new' := Session(id, server.configId);
      forall x | x in s.sessions || x in s.held ensures x.id != id {
        assert x in s.sessions + s.held;
      }
    case Finish(k, saves) => FinishKeepsOneSession(s, k, saves);
    case _ =>
  }

  lemma FinishKeepsOneSession(s: State, k: nat, saves: bool)
    requires OneSession(s) && k < |s.held|
    ensures OneSession(Next(s, Finish(k, saves)))
  {
    WithoutOne(s.held, k);
    assert s.held[k] in s.held;
    var s' := Next(s, Finish(k, saves));
    forall x | x in s'.sessions ensures x in s.sessions || x == s.held[k] {}
  }

  lemma WithoutOne(held: seq<Session>, k: nat)
    requires k < |held| && forall i, j :: 0 <= i < j < |held| ==> held[i].id != held[j].id
    ensures var left := held[..k] + held[k + 1..];
      && (forall i, j :: 0 <= i < j < |left| ==> left[i].id != left[j].id)
      && (forall y :: y in left ==> y in held && y.id != held[k].id)
  {
    var left := held[..k] + held[k + 1..];
    assert forall i :: 0 <= i < |left| ==> left[i] == held[if i < k then i else i + 1];
    forall y | y in left ensures y in held && y.id != held[k].id {
      var i :| 0 <= i < |left| && left[i] == y;
    }
  }

  // ---------- Every run ----------

  ghost predicate SoundAt(s0: State, steps: seq<Step>, k: nat) {
    k <= |steps| && After(s0, steps[..k]).At? && Sound(After(s0, steps[..k]).state)
  }

  ghost predicate EndangersAt(s0: State, steps: seq<Step>, k: nat) {
    k < |steps| && After(s0, steps[..k]).At? && Endangers(After(s0, steps[..k]).state, steps[k])
  }

  lemma {:induction false} RunKeepsOneSession(s0: State, steps: seq<Step>)
    requires Init(s0) && After(s0, steps).At?
    ensures OneSession(After(s0, steps).state)
  {
    if steps != [] {
      RunKeepsOneSession(s0, steps[..|steps| - 1]);
      StepKeepsOneSession(After(s0, steps[..|steps| - 1]).state, steps[|steps| - 1]);
    }
  }

  ghost predicate SoundThroughout(s0: State, steps: seq<Step>) {
    forall k: nat :: k <= |steps| ==> SoundAt(s0, steps, k)
  }

  ghost predicate NothingEndangered(s0: State, steps: seq<Step>) {
    forall k: nat :: k < |steps| ==> !EndangersAt(s0, steps, k)
  }

  lemma ThroughoutOneMore(s0: State, steps: seq<Step>)
    requires steps != [] && After(s0, steps).At?
    ensures var front := steps[..|steps| - 1];
      && (SoundThroughout(s0, steps) <==> SoundThroughout(s0, front) && Sound(After(s0, steps).state))
      && (NothingEndangered(s0, steps) <==>
            NothingEndangered(s0, front) && !Endangers(After(s0, front).state, steps[|steps| - 1]))
  {
    var n := |steps| - 1;
    var front := steps[..n];
    assert steps[..n + 1] == steps;
    forall k: nat | k <= n ensures front[..k] == steps[..k] {}
    assert forall k: nat :: k <= n ==> (SoundAt(s0, front, k) <==> SoundAt(s0, steps, k));
    assert forall k: nat :: k < n ==> (EndangersAt(s0, front, k) <==> EndangersAt(s0, steps, k));
    assert SoundAt(s0, steps, n + 1) <==> Sound(After(s0, steps).state);
    assert EndangersAt(s0, steps, n) <==> Endangers(After(s0, front).state, steps[n]);
  }

  lemma {:induction false} SoundThroughoutIff(s0: State, steps: seq<Step>)
    requires Init(s0) && After(s0, steps).At?
    ensures SoundThroughout(s0, steps) <==> NothingEndangered(s0, steps)
  {
    if steps == [] {
      assert steps[..0] == [];
    } else {
      var front := steps[..|steps| - 1];
      SoundThroughoutIff(s0, front);
      ThroughoutOneMore(s0, steps);
      if SoundThroughout(s0, front) {
        assert SoundAt(s0, front, |front|) && front[..|front|] == front;
        RunKeepsInv(s0, front);
        StepSoundIff(After(s0, front).state, steps[|steps| - 1]);
      }
    }
  }

  // Over every run: at each moment every stored session belongs to a stored configuration,
  // whatever happens next, exactly when no configuration was deleted while a request of it was
  // unfinished or a server of it could still store one.
  lemma SessionsBackedIff(s0: State, steps: seq<Step>)
    requires Init(s0) && After(s0, steps).At?
    ensures (forall k: nat :: k <= |steps| ==> StaysBackedAt(s0, steps, k)) <==> NothingEndangered(s0, steps)
  {
    SoundThroughoutIff(s0, steps);
    forall k: nat | k <= |steps| ensures StaysBackedAt(s0, steps, k) <==> SoundAt(s0, steps, k) {
      Prefix(s0, steps, k);
      RunKeepsInv(s0, steps[..k]);
      RunKeepsOneSession(s0, steps[..k]);
      SoundIffStaysBacked(After(s0, steps[..k]).state);
    }
  }

  ghost predicate StaysBackedAt(s0: State, steps: seq<Step>, k: nat) {
    k <= |steps| && After(s0, steps[..k]).At? && StaysBacked(After(s0, steps[..k]).state)
  }

  // While every listening server is in reach, only unfinished requests and servers closed by
  // force are in danger: a deletion is refused while the configuration runs.
  lemma EndangersIffUnfinished(s: State, step: Step)
    requires (forall v :: v in s.open ==> Reachable(s, v)) && step.DeleteConfig? && Deletes(s, step.id, step.commits)
    ensures Endangers(s, step) <==> HeldOf(s, step.id) || exists v :: v in s.draining && v.configId == step.id
  {
    if v :| v in s.draining && v.configId == step.id {
      assert v in s.open + s.draining;
    }
  }

  // ---------- Two runs that leave a session without a configuration ----------

  function Nothing(): State {
    State([], map[], map[], true, [], [], [], {}, {}, 0)
  }

  function Inserts(id: string): Database {
    Database(true, Some(id), true)
  }

  lemma OneStep(steps: seq<Step>, step: Step)
    requires After(Nothing(), steps).At? && CanStep(After(Nothing(), steps).state, step)
    ensures After(Nothing(), steps + [step]) == At(Next(After(Nothing(), steps).state, step))
  {
    assert (steps + [step])[..|steps|] == steps;
  }

  lemma Spelled(a: Step, b: Step, c: Step, d: Step, e: Step)
    ensures [a] + [b] + [c] + [d] + [e] == [a, b, c, d, e]
  {
  }

  // One server of entry e is running.
  function Running(e: Entry): State {
    var v := Server(0, e.listen, "a");
    State(["a"], map["a" := ProxyConfig("a", e.listen, e.target)], map["a" := v], true, [Row("a", e)], [], [], {v}, {}, 1)
  }

  lemma StartOnce(e: Entry)
    requires e.listen != ""
    ensures After(Nothing(), [Start(e, true, Inserts("a"), None)]) == At(Running(e))
  {
    var start := Start(e, true, Inserts("a"), None);
    assert [start][..0] == [];
    FirstStart(e);
  }

  lemma FirstRow(e: Entry)
    ensures RowsAfter([], e, Inserts("a"), None) == [Row("a", e)]
    ensures ConfigId([], e, Inserts("a"), None) == Some("a")
  {
  }

  lemma FirstStart(e: Entry)
    requires e.listen != ""
    ensures var start := Start(e, true, Inserts("a"), None);
      CanStep(Nothing(), start) && Next(Nothing(), start) == Running(e)
  {
    FirstRow(e);
    var v := Server(0, e.listen, "a");
    assert {} + {v} == {v};
    assert Launch(Nothing().(rows := [Row("a", e)]), e, "a") == Running(e);
  }

  // A request begins; its entry is stopped, nothing refusing; the configuration is deleted and
  // with it the session; the request finishes and its session is stored again.  No server is lost.
  lemma LateFinishLeavesUnbackedSession(e: Entry)
    requires e.listen != ""
    ensures var steps := [Start(e, true, Inserts("a"), None), Begin(Server(0, e.listen, "a"), "x"), Stop("a", Graceful),
                          DeleteConfig("a", true), Finish(0, true)];
      && Init(Nothing()) && After(Nothing(), steps).At?
      && After(Nothing(), steps).state.open == {} && !Backed(After(Nothing(), steps).state)
  {
    var v, x := Server(0, e.listen, "a"), Session("x", "a");
    var a := [Start(e, true, Inserts("a"), None)];
    var b := a + [Begin(v, "x")];
    var c := b + [Stop("a", Graceful)];
    var d := c + [DeleteConfig("a", true)];
    var f := d + [Finish(0, true)];
    Spelled(a[0], Begin(v, "x"), Stop("a", Graceful), DeleteConfig("a", true), Finish(0, true));
    StartOnce(e);
    OneStep(a, Begin(v, "x"));
    OneStep(b, Stop("a", Graceful));
    OneStep(c, DeleteConfig("a", true));
    BeginStopDelete(e);
    OneStep(d, Finish(0, true));
    assert x in After(Nothing(), f).state.sessions;
  }

  lemma BeginStopDelete(e: Entry)
    ensures var v, x := Server(0, e.listen, "a"), Session("x", "a");
      && CanStep(Running(e), Begin(v, "x"))
      && var s := Next(Next(Next(Running(e), Begin(v, "x")), Stop("a", Graceful)), DeleteConfig("a", true));
      s.rows == [] && s.sessions == [] && s.held == [x] && s.open == {}
  {
    var v, x := Server(0, e.listen, "a"), Session("x", "a");
    var s1 := Next(Running(e), Begin(v, "x"));
    assert s1.sessions == [x] && s1.held == [x];
    var s2 := Next(s1, Stop("a", Graceful));
    assert s2.sessions == [x] && s2.held == [x] && s2.rows == [Row("a", e)] && s2.open == {};
    assert Filter([x], OtherSession("a")) == [] && Filter([Row("a", e)], OtherRow("a")) == [];
  }

  // An entry is started twice, its id stopped, its configuration deleted: the first server still
  // listens, and the session it stores belongs to no configuration.
  lemma LostServerLeavesUnbackedSession(e: Entry)
    requires e.listen != ""
    ensures var v, start := Server(0, e.listen, "a"), Start(e, true, Inserts("b"), None);
      var steps := [Start(e, true, Inserts("a"), None), start, Stop("a", Graceful), DeleteConfig("a", true), Begin(v, "x")];
      && Init(Nothing()) && After(Nothing(), steps).At? && !Backed(After(Nothing(), steps).state)
  {
    var v, start := Server(0, e.listen, "a"), Start(e, true, Inserts("b"), None);
    var a := [Start(e, true, Inserts("a"), None)];
    var b := a + [start];
    var c := b + [Stop("a", Graceful)];
    var d := c + [DeleteConfig("a", true)];
    var f := d + [Begin(v, "x")];
    Spelled(a[0], start, Stop("a", Graceful), DeleteConfig("a", true), Begin(v, "x"));
    StartOnce(e);
    OneStep(a, start);
    OneStep(b, Stop("a", Graceful));
    OneStep(c, DeleteConfig("a", true));
    StartStopDelete(e);
    OneStep(d, Begin(v, "x"));
    assert Session("x", "a") in After(Nothing(), f).state.sessions;
  }

  lemma StartStopDelete(e: Entry)
    requires e.listen != ""
    ensures CanStep(Running(e), Start(e, true, Inserts("b"), None))
    ensures var s := Next(Next(Next(Running(e), Start(e, true, Inserts("b"), None)), Stop("a", Graceful)), DeleteConfig("a", true));
      s.rows == [] && s.sessions == [] && s.held == [] && s.hasDb && Server(0, e.listen, "a") in s.open
  {
    var start := Start(e, true, Inserts("b"), None);
    assert RowsAfter([Row("a", e)], e, Inserts("b"), None) == [Row("a", e)];
    var s1 := Next(Running(e), start);
    assert s1.servers == map["a" := Server(1, e.listen, "a")] && s1.rows == [Row("a", e)] && s1.sessions == [];
    var s2 := Next(s1, Stop("a", Graceful));
    assert s2.rows == [Row("a", e)] && Server(0, e.listen, "a") in s2.open && "a" !in s2.servers;
    assert Filter([Row("a", e)], OtherRow("a")) == [];
  }
}
