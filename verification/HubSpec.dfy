/**
 The publish/subscribe hub as a state machine over atomic steps.  Register,
 unregister and broadcast are the arms of the hub goroutine's `select`;
 subscribe and unsubscribe run in a client's read goroutine under the same
 mutex; take is one receive of the client's write goroutine.

 `C` is the identity of a client connection.  `AsWritten` is the code's
 eviction branch; `Intended` also drops an evicted client's subscriptions and
 refuses later ones.
 */
module HubSpec {

  datatype Message = Message(topic: string, payload: string)

  datatype Variant = AsWritten | Intended

  // Capacity of a client's outbound channel.
  const QUEUE_CAP: nat := 256

  // An outbound channel; `taken` is the history of what the write pump received.
  datatype Chan = Chan(queue: seq<Message>, closed: bool, taken: seq<Message>)

  datatype Hub<C> = Hub(
    connected: set<C>,                   // ever handed to the register channel
    pending: set<C>,                     // received by the hub goroutine, not yet in `clients`
    clients: set<C>,
    subscriptions: map<string, set<C>>,
    topics: map<C, set<string>>,         // client.topics
    chans: map<C, Chan>,                 // client.send
    left: set<C>,                        // unregister handled
    evicted: set<C>)                     // closed by the broadcast arm

  datatype Event<C> =
    | Connect(c: C)
    | Register
    | Unregister(c: C)
    | Subscribe(c: C, topic: string)
    | Unsubscribe(c: C, topic: string)
    | Broadcast(m: Message)
    | Take(c: C)

  datatype Status<C> = Running(hub: Hub<C>) | Crashed | Stuck

  ghost function Init<C>(): Hub<C> {
    Hub({}, {}, {}, map[], map[], map[], {}, {})
  }

  ghost function Subscribers<C>(h: Hub<C>, topic: string): set<C> {
    if topic in h.subscriptions then h.subscriptions[topic] else {}
  }

  // The loop over client.topics: only the sets of the listed topics are visited.
  ghost function Without<C>(subs: map<string, set<C>>, ts: set<string>, c: C): map<string, set<C>> {
    map t | t in subs :: if t in ts then subs[t] - {c} else subs[t]
  }

  ghost predicate WellTyped<C>(h: Hub<C>) {
    && h.topics.Keys == h.connected && h.chans.Keys == h.connected
    && (forall t :: t in h.subscriptions ==> h.subscriptions[t] <= h.connected)
  }

  // A step can be taken.  The hub goroutine serves one arm at a time, so none
  // of its arms starts while a register is half done; a client's read goroutine
  // subscribes only until it has asked to be unregistered.
  ghost predicate Enabled<C>(h: Hub<C>, e: Event<C>) {
    match e
    case Connect(c) => h.pending == {} && c !in h.connected
    case Register => h.pending != {}
    case Unregister(c) => h.pending == {} && c in h.connected && c !in h.left
    case Subscribe(c, t) => c in h.connected && c !in h.left
    case Unsubscribe(c, t) => c in h.connected && c !in h.left
    case Broadcast(m) => h.pending == {}
    case Take(c) => c in h.connected && c in h.chans && h.chans[c].queue != []
  }

  // The step sends on a closed channel or closes one twice: a Go panic.
  ghost predicate Panics<C>(h: Hub<C>, e: Event<C>)
    requires WellTyped(h)
  {
    match e
    case Broadcast(m) => exists c :: c in Subscribers(h, m.topic) && h.chans[c].closed
    case Unregister(c) => c in h.clients && c in h.chans && h.chans[c].closed
    case _ => false
  }

  ghost predicate IsFull<C>(h: Hub<C>, c: C) {
    c in h.chans && |h.chans[c].queue| >= QUEUE_CAP
  }

  ghost function FullOf<C>(h: Hub<C>, to: set<C>): set<C> {
    set c | c in to && IsFull(h, c)
  }

  // The sends of m to the clients in `to`, all at once.
  ghost function DeliverTo<C>(v: Variant, h: Hub<C>, m: Message, to: set<C>): Hub<C>
    requires WellTyped(h)
  {
    var full := FullOf(h, to);
    h.(chans := map c | c in h.chans ::
         if c in full then h.chans[c].(closed := true)
         else if c in to then h.chans[c].(queue := h.chans[c].queue + [m])
         else h.chans[c],
       clients := h.clients - full,
       evicted := h.evicted + full,
       subscriptions := if v.AsWritten? then h.subscriptions
                        else map t | t in h.subscriptions :: h.subscriptions[t] - full,
       topics := if v.AsWritten? then h.topics
                 else map c | c in h.topics :: if c in full then {} else h.topics[c])
  }

  ghost function Deliver<C>(v: Variant, h: Hub<C>, m: Message): Hub<C>
    requires WellTyped(h)
  {
    DeliverTo(v, h, m, Subscribers(h, m.topic))
  }

  // One turn of the broadcast loop: a non-blocking send to an open channel, and
  // the eviction branch when it would block.
  ghost function DeliverOne<C>(v: Variant, h: Hub<C>, m: Message, c: C): Hub<C>
    requires c in h.chans && c in h.topics && !h.chans[c].closed
  {
    var ch := h.chans[c];
    if |ch.queue| < QUEUE_CAP then h.(chans := h.chans[c := ch.(queue := ch.queue + [m])])
    else
      var h1 := h.(chans := h.chans[c := ch.(closed := true)],
                   clients := h.clients - {c}, evicted := h.evicted + {c});
      if v.AsWritten? then h1
      else h1.(subscriptions := Without(h.subscriptions, h.topics[c], c), topics := h.topics[c := {}])
  }

  ghost function Apply<C>(v: Variant, h: Hub<C>, e: Event<C>): Hub<C>
    requires WellTyped(h) && Enabled(h, e)
  {
    match e
    case Connect(c) =>
      h.(connected := h.connected + {c}, pending := {c},
         topics := h.topics[c := {}], chans := h.chans[c := Chan([], false, [])])
    case Register =>
      h.(clients := h.clients + h.pending, pending := {})
    case Unregister(c) =>
      if c in h.clients then
        h.(clients := h.clients - {c}, left := h.left + {c},
           subscriptions := Without(h.subscriptions, h.topics[c], c),
           chans := h.chans[c := h.chans[c].(closed := true)])
      else h.(left := h.left + {c})
    case Subscribe(c, t) =>
      if v.Intended? && c in h.evicted then h
      else h.(subscriptions := h.subscriptions[t := Subscribers(h, t) + {c}],
              topics := h.topics[c := h.topics[c] + {t}])
    case Unsubscribe(c, t) =>
      h.(subscriptions := Without(h.subscriptions, {t}, c),
         topics := h.topics[c := h.topics[c] - {t}])
    case Broadcast(m) => Deliver(v, h, m)
    case Take(c) =>
      var ch := h.chans[c];
      h.(chans := h.chans[c := ch.(queue := ch.queue[1..], taken := ch.taken + [ch.queue[0]])])
  }

  // The hub after a run of events.
  ghost function Exec<C>(v: Variant, es: seq<Event<C>>): Status<C> {
    if es == [] then Running(Init())
    else
      var s := Exec(v, es[..|es| - 1]);
      var e := es[|es| - 1];
      if !s.Running? then s
      else if !WellTyped(s.hub) || !Enabled(s.hub, e) then Stuck
      else if Panics(s.hub, e) then Crashed
      else Running(Apply(v, s.hub, e))
  }

  // ---------- What every reachable hub satisfies ----------

  ghost predicate CleanlyLeft<C>(h: Hub<C>, c: C) {
    c in h.left && c !in h.evicted
  }

  ghost predicate Subscribed<C>(h: Hub<C>, c: C, t: string) {
    t in h.subscriptions && c in h.subscriptions[t]
  }

  // The two indexes agree on c, except that a clean unregister clears only one.
  ghost predicate IndexesAgree<C>(h: Hub<C>, c: C)
    requires c in h.topics
  {
    if CleanlyLeft(h, c) then forall t :: !Subscribed(h, c, t)
    else forall t :: Subscribed(h, c, t) <==> t in h.topics[c]
  }

  ghost predicate ClientInv<C>(v: Variant, h: Hub<C>, c: C)
    requires c in h.topics && c in h.chans
  {
    // A channel is open exactly while its client is registered or about to be.
    && (h.chans[c].closed <==> c !in h.clients && c !in h.pending)
    && (c in h.clients || c in h.pending <==> c !in h.left && c !in h.evicted)
    && !(c in h.clients && c in h.pending)
    && |h.chans[c].queue| <= QUEUE_CAP
    && IndexesAgree(h, c)
    && (v.Intended? && c in h.evicted ==> h.topics[c] == {})
  }

  ghost predicate Inv<C>(v: Variant, h: Hub<C>) {
    && WellTyped(h)
    && h.pending <= h.connected && h.clients <= h.connected && h.left <= h.connected && h.evicted <= h.connected
    && (forall c :: c in h.connected ==> ClientInv(v, h, c))
  }

  lemma InvKeptArrival<C>(v: Variant, h: Hub<C>, e: Event<C>)
    requires Inv(v, h) && Enabled(h, e) && (e.Connect? || e.Register?)
    ensures Inv(v, Apply(v, h, e))
  {
    var h' := Apply(v, h, e);
    forall c | c in h'.connected ensures ClientInv(v, h', c) {
      if c in h.connected {
        assert ClientInv(v, h, c);
        assert forall t :: Subscribed(h', c, t) == Subscribed(h, c, t);
      }
    }
  }

  lemma InvKeptUnregister<C>(v: Variant, h: Hub<C>, c0: C)
    requires Inv(v, h) && Enabled(h, Unregister(c0))
    ensures Inv(v, Apply(v, h, Unregister(c0)))
  {
    var h' := Apply(v, h, Unregister(c0));
    forall c | c in h'.connected ensures ClientInv(v, h', c) {
      assert ClientInv(v, h, c);
      assert forall t :: Subscribed(h', c, t) ==> Subscribed(h, c, t);
      assert forall t :: c != c0 && Subscribed(h, c, t) ==> Subscribed(h', c, t);
    }
  }

  lemma InvKeptSubscription<C>(v: Variant, h: Hub<C>, e: Event<C>)
    requires Inv(v, h) && Enabled(h, e) && (e.Subscribe? || e.Unsubscribe?)
    ensures Inv(v, Apply(v, h, e))
  {
    var h' := Apply(v, h, e);
    forall c | c in h'.connected ensures ClientInv(v, h', c) {
      assert ClientInv(v, h, c);
      assert forall t :: (c != e.c || t != e.topic) ==> Subscribed(h', c, t) == Subscribed(h, c, t);
    }
  }

  lemma InvKeptTake<C>(v: Variant, h: Hub<C>, c0: C)
    requires Inv(v, h) && Enabled(h, Take(c0))
    ensures Inv(v, Apply(v, h, Take(c0)))
  {
    var h' := Apply(v, h, Take(c0));
    forall c | c in h'.connected ensures ClientInv(v, h', c) {
      assert ClientInv(v, h, c);
      assert forall t :: Subscribed(h', c, t) == Subscribed(h, c, t);
    }
  }

  lemma InvKeptBroadcast<C>(v: Variant, h: Hub<C>, m: Message)
    requires Inv(v, h) && Enabled(h, Broadcast(m)) && !Panics(h, Broadcast(m))
    ensures Inv(v, Apply(v, h, Broadcast(m)))
  {
    var h' := Apply(v, h, Broadcast(m));
    var to := Subscribers(h, m.topic);
    forall c | c in h'.connected ensures ClientInv(v, h', c) {
      assert ClientInv(v, h, c);
      if c in to && IsFull(h, c) {
        assert !h.chans[c].closed;
        if v.Intended? {
          assert forall t :: !Subscribed(h', c, t);
        }
      } else {
        assert forall t :: Subscribed(h', c, t) == Subscribed(h, c, t);
      }
    }
  }

  lemma InvKept<C>(v: Variant, h: Hub<C>, e: Event<C>)
    requires Inv(v, h) && Enabled(h, e) && !Panics(h, e)
    ensures Inv(v, Apply(v, h, e))
  {
    match e
    case Connect(_) => InvKeptArrival(v, h, e);
    case Register => InvKeptArrival(v, h, e);
    case Unregister(c) => InvKeptUnregister(v, h, c);
    case Subscribe(_, _) => InvKeptSubscription(v, h, e);
    case Unsubscribe(_, _) => InvKeptSubscription(v, h, e);
    case Broadcast(m) => InvKeptBroadcast(v, h, m);
    case Take(c) => InvKeptTake(v, h, c);
  }

  lemma {:induction false} ReachableInv<C>(v: Variant, es: seq<Event<C>>)
    requires Exec(v, es).Running?
    ensures Inv(v, Exec(v, es).hub)
  {
    if es != [] {
      ReachableInv(v, es[..|es| - 1]);
      InvKept(v, Exec(v, es[..|es| - 1]).hub, es[|es| - 1]);
    }
  }

  // ---------- Broadcast visits its map in any order ----------

  lemma DeliverNextChans<C>(v: Variant, h: Hub<C>, m: Message, done: set<C>, c: C)
    requires WellTyped(h) && c in h.connected - done && !h.chans[c].closed
    ensures var part := DeliverTo(v, h, m, done);
      && c in part.chans && c in part.topics && part.chans[c] == h.chans[c] && part.topics[c] == h.topics[c]
      && DeliverOne(v, part, m, c).chans == DeliverTo(v, h, m, done + {c}).chans
    ensures FullOf(h, done + {c}) == if IsFull(h, c) then FullOf(h, done) + {c} else FullOf(h, done)
  {
    assert FullOf(h, done + {c}) == if IsFull(h, c) then FullOf(h, done) + {c} else FullOf(h, done);
    var part, all := DeliverTo(v, h, m, done), DeliverTo(v, h, m, done + {c});
    var one := DeliverOne(v, part, m, c);
    assert one.chans.Keys == all.chans.Keys;
    forall d | d in all.chans ensures one.chans[d] == all.chans[d] {
    }
  }

  lemma DeliverNextIndexes<C>(v: Variant, h: Hub<C>, m: Message, done: set<C>, c: C)
    requires WellTyped(h) && c in h.connected - done && !h.chans[c].closed && IsFull(h, c)
    requires forall t :: Subscribed(h, c, t) ==> t in h.topics[c]
    ensures var part, all := DeliverTo(v, h, m, done), DeliverTo(v, h, m, done + {c});
      && c in part.chans && c in part.topics && part.chans[c] == h.chans[c]
      && DeliverOne(v, part, m, c).subscriptions == all.subscriptions
      && DeliverOne(v, part, m, c).topics == all.topics
  {
    DeliverNextChans(v, h, m, done, c);
    var part, all := DeliverTo(v, h, m, done), DeliverTo(v, h, m, done + {c});
    var one := DeliverOne(v, part, m, c);
    if v.Intended? {
      forall t | t in h.subscriptions ensures one.subscriptions[t] == all.subscriptions[t] {
        assert Subscribed(h, c, t) ==> t in h.topics[c];
      }
    }
  }

  lemma DeliverNext<C>(v: Variant, h: Hub<C>, m: Message, done: set<C>, c: C)
    requires Inv(v, h) && c in Subscribers(h, m.topic) - done && !h.chans[c].closed
    ensures var part := DeliverTo(v, h, m, done);
      && c in part.chans && c in part.topics && part.chans[c] == h.chans[c]
      && DeliverOne(v, part, m, c) == DeliverTo(v, h, m, done + {c})
  {
    assert ClientInv(v, h, c) && Subscribed(h, c, m.topic);
    DeliverNextChans(v, h, m, done, c);
    if IsFull(h, c) {
      DeliverNextIndexes(v, h, m, done, c);
    }
  }

  // The hub after the loop has visited `order`; None when a send panicked.
  datatype LoopResult<C> = Done(hub: Hub<C>) | Panicked

  ghost function DeliverInOrder<C>(v: Variant, h: Hub<C>, m: Message, order: seq<C>): LoopResult<C> {
    if order == [] then Done(h)
    else
      var before := DeliverInOrder(v, h, m, order[..|order| - 1]);
      var c := order[|order| - 1];
      if before.Panicked? || c !in before.hub.chans || c !in before.hub.topics || before.hub.chans[c].closed then Panicked
      else Done(DeliverOne(v, before.hub, m, c))
  }

  lemma DeliverNone<C>(v: Variant, h: Hub<C>, m: Message)
    requires WellTyped(h)
    ensures DeliverTo(v, h, m, {}) == h
  {
    var d := DeliverTo(v, h, m, {});
    assert FullOf(h, {}) == {};
    assert d.chans == h.chans;
    assert forall t :: t in h.subscriptions ==> h.subscriptions[t] - {} == h.subscriptions[t];
    assert d.subscriptions == h.subscriptions;
    assert d.topics == h.topics;
  }

  lemma {:induction false} DeliverPrefix<C>(v: Variant, h: Hub<C>, m: Message, order: seq<C>)
    requires Inv(v, h) && (forall i, j :: 0 <= i < j < |order| ==> order[i] != order[j])
    requires forall c :: c in order ==> c in Subscribers(h, m.topic) && !h.chans[c].closed
    ensures DeliverInOrder(v, h, m, order) == Done(DeliverTo(v, h, m, set c | c in order))
  {
    if order == [] {
      assert (set c | c in order) == {};
      DeliverNone(v, h, m);
    } else {
      var front, c := order[..|order| - 1], order[|order| - 1];
      DeliverPrefix(v, h, m, front);
      assert c !in front && c in order;
      assert forall d :: d in order <==> d in front || d == c;
      assert (set d | d in order) == (set d | d in front) + {c};
      DeliverNext(v, h, m, (set d | d in front), c);
    }
  }

  // Whatever order the subscribers are visited in, the hub ends up the same.
  lemma BroadcastAnyOrder<C>(v: Variant, es: seq<Event<C>>, m: Message, order: seq<C>)
    requires Exec(v, es).Running? && Enabled(Exec(v, es).hub, Broadcast(m))
    requires WellTyped(Exec(v, es).hub) && !Panics(Exec(v, es).hub, Broadcast(m))
    requires forall i, j :: 0 <= i < j < |order| ==> order[i] != order[j]
    requires (set c | c in order) == Subscribers(Exec(v, es).hub, m.topic)
    ensures DeliverInOrder(v, Exec(v, es).hub, m, order) == Done(Apply(v, Exec(v, es).hub, Broadcast(m)))
  {
    ReachableInv(v, es);
    forall c | c in order ensures c in Subscribers(Exec(v, es).hub, m.topic) {
      assert c in (set d | d in order);
    }
    DeliverPrefix(v, Exec(v, es).hub, m, order);
  }

  // ---------- Closed channels ----------

  // A broadcast sends on a closed channel exactly when an evicted client still
  // has the topic in its own list; nothing ever closes a channel twice.
  lemma PanicIffEvictedSubscriber<C>(v: Variant, es: seq<Event<C>>, e: Event<C>)
    requires Exec(v, es).Running? && Enabled(Exec(v, es).hub, e)
    ensures var h := Exec(v, es).hub;
      && WellTyped(h)
      && (Panics(h, e) <==> e.Broadcast? && exists c :: c in h.evicted && c in h.topics && e.m.topic in h.topics[c])
  {
    ReachableInv(v, es);
    var h := Exec(v, es).hub;
    if e.Broadcast? {
      forall c | c in Subscribers(h, e.m.topic) && h.chans[c].closed
        ensures c in h.evicted && e.m.topic in h.topics[c]
      {
        assert ClientInv(v, h, c) && Subscribed(h, c, e.m.topic);
      }
      forall c | c in h.evicted && e.m.topic in h.topics[c]
        ensures c in Subscribers(h, e.m.topic) && h.chans[c].closed
      {
        assert ClientInv(v, h, c);
        assert Subscribed(h, c, e.m.topic);
      }
    } else if e.Unregister? {
      assert ClientInv(v, h, e.c);
    }
  }

  // The intended hub never crashes.
  lemma {:induction false} IntendedNeverCrashes<C>(es: seq<Event<C>>)
    ensures !Exec(Intended, es).Crashed?
  {
    if es != [] {
      var front, e := es[..|es| - 1], es[|es| - 1];
      IntendedNeverCrashes(front);
      var s := Exec(Intended, front);
      if s.Running? && Enabled(s.hub, e) {
        PanicIffEvictedSubscriber(Intended, front, e);
        ReachableInv(Intended, front);
        assert forall c :: c in s.hub.evicted ==> ClientInv(Intended, s.hub, c);
      }
    }
  }

  // Neither does the code as written until it evicts somebody.
  lemma {:induction false} NoCrashBeforeEviction<C>(es: seq<Event<C>>, e: Event<C>)
    requires Exec(AsWritten, es).Running? && Exec(AsWritten, es).hub.evicted == {}
    ensures !Exec(AsWritten, es + [e]).Crashed?
  {
    var h := Exec(AsWritten, es).hub;
    assert (es + [e])[..|es + [e]| - 1] == es;
    if Enabled(h, e) {
      PanicIffEvictedSubscriber(AsWritten, es, e);
    }
  }

  // Every subscriber is registered (or in the middle of being registered) and open.
  lemma SubscribersAreLive<C>(v: Variant, es: seq<Event<C>>, c: C, t: string)
    requires Exec(v, es).Running? && Subscribed(Exec(v, es).hub, c, t)
    requires v.Intended? || c !in Exec(v, es).hub.evicted
    ensures var h := Exec(v, es).hub;
      && (c in h.clients || c in h.pending)
      && c in h.chans && !h.chans[c].closed
      && (h.pending == {} ==> c in h.clients)
  {
    ReachableInv(v, es);
    assert ClientInv(v, Exec(v, es).hub, c);
  }

  // Unregister visits only client.topics, and that clears the client everywhere.
  lemma UnregisterClearsEveryTopic<C>(v: Variant, es: seq<Event<C>>, c: C, t: string)
    requires Exec(v, es).Running? && Enabled(Exec(v, es).hub, Unregister(c))
    requires c in Exec(v, es).hub.clients
    ensures WellTyped(Exec(v, es).hub)
    ensures var h, h' := Exec(v, es).hub, Apply(v, Exec(v, es).hub, Unregister(c));
      && !Subscribed(h', c, t)
      && (forall d :: d != c ==> (Subscribed(h', d, t) <==> Subscribed(h, d, t)))
  {
    ReachableInv(v, es);
    assert ClientInv(v, Exec(v, es).hub, c);
  }

  // ---------- A run of the code as written that crashes ----------

  ghost function Repeat<T>(x: T, n: nat): seq<T> {
    seq(n, _ => x)
  }

  ghost function Flood<C>(c: C, m: Message, n: nat): seq<Event<C>> {
    [Connect(c), Register, Subscribe(c, m.topic)] + Repeat(Broadcast(m), n)
  }

  ghost function Flooded<C>(c: C, m: Message, n: nat): Hub<C>
    requires n <= QUEUE_CAP + 1
  {
    var evict := n == QUEUE_CAP + 1;
    Hub({c}, {}, if evict then {} else {c}, map[m.topic := {c}], map[c := {m.topic}],
        map[c := Chan(Repeat(m, if evict then QUEUE_CAP else n), evict, [])], {}, if evict then {c} else {})
  }

  lemma FloodStart<C>(c: C, m: Message)
    ensures Exec(AsWritten, Flood(c, m, 0)) == Running(Flooded(c, m, 0))
  {
    var es := Flood(c, m, 0);
    assert es[..2] == [Connect(c), Register] && es[..2][..1] == [Connect(c)] && [Connect(c)][..0] == [];
    var h1 := Apply(AsWritten, Init(), Connect(c));
    assert Exec(AsWritten, [Connect(c)]) == Running(h1);
    var h2 := Apply(AsWritten, h1, Register);
    assert Exec(AsWritten, es[..2]) == Running(h2);
    assert es[2] == Subscribe(c, m.topic);
    assert Repeat(m, 0) == [] && {} + {c} == {c} && Subscribers(h2, m.topic) + {c} == {c};
    assert h2.topics[c] + {m.topic} == {m.topic};
    var h3 := Apply(AsWritten, h2, es[2]);
    assert h3.subscriptions == map[m.topic := {c}] && h3.topics == map[c := {m.topic}];
    assert h3 == Flooded(c, m, 0);
  }

  lemma FloodStep<C>(c: C, m: Message, n: nat)
    requires n <= QUEUE_CAP
    ensures var h := Flooded(c, m, n);
      WellTyped(h) && Enabled(h, Broadcast(m)) && !Panics(h, Broadcast(m))
      && Apply(AsWritten, h, Broadcast(m)) == Flooded(c, m, n + 1)
  {
    var h, want := Flooded(c, m, n), Flooded(c, m, n + 1);
    var h' := Deliver(AsWritten, h, m);
    assert Subscribers(h, m.topic) == {c};
    assert FullOf(h, {c}) == if n == QUEUE_CAP then {c} else {};
    assert h'.chans[c] == want.chans[c] by {
      if n < QUEUE_CAP {
        assert Repeat(m, n) + [m] == Repeat(m, n + 1);
      }
    }
    assert h'.chans == want.chans && h'.clients == want.clients && h'.evicted == want.evicted;
  }

  lemma {:induction false} FloodState<C>(c: C, m: Message, n: nat)
    requires n <= QUEUE_CAP + 1
    ensures Exec(AsWritten, Flood(c, m, n)) == Running(Flooded(c, m, n))
  {
    if n == 0 {
      FloodStart(c, m);
    } else {
      FloodState(c, m, n - 1);
      var es := Flood(c, m, n);
      assert es[..|es| - 1] == Flood(c, m, n - 1) && es[|es| - 1] == Broadcast(m);
      FloodStep(c, m, n - 1);
    }
  }

  // 257 broadcasts to a client that reads nothing evict it; the next one crashes the hub.
  lemma AsWrittenCanCrash<C>(c: C, m: Message)
    ensures Exec(AsWritten, Flood(c, m, 257)).Running? && c in Exec(AsWritten, Flood(c, m, 257)).hub.evicted
    ensures Exec(AsWritten, Flood(c, m, 258)) == Crashed
  {
    var n := QUEUE_CAP + 2;
    FloodState(c, m, n - 1);
    assert Flood(c, m, n)[..|Flood(c, m, n)| - 1] == Flood(c, m, n - 1);
    assert c in Subscribers(Flooded(c, m, n - 1), m.topic);
  }

  // ---------- Per-client FIFO delivery ----------

  // Read off the events alone: the topics c has asked for, and what was broadcast to them.
  ghost function Wanted<C>(es: seq<Event<C>>, c: C): set<string> {
    if es == [] then {}
    else
      var before, e := Wanted(es[..|es| - 1], c), es[|es| - 1];
      match e
      case Subscribe(d, t) => if d == c then before + {t} else before
      case Unsubscribe(d, t) => if d == c then before - {t} else before
      case Unregister(d) => if d == c then {} else before
      case _ => before
  }

  ghost function Heard<C>(es: seq<Event<C>>, c: C): seq<Message> {
    if es == [] then []
    else
      var before, e := Heard(es[..|es| - 1], c), es[|es| - 1];
      if e.Broadcast? && e.m.topic in Wanted(es[..|es| - 1], c) then before + [e.m] else before
  }

  // What the write pump took, followed by what still waits in the queue.
  ghost function Stream<C>(h: Hub<C>, c: C): seq<Message>
    requires c in h.chans
  {
    h.chans[c].taken + h.chans[c].queue
  }

  // es[k] is the broadcast that found c's queue full.
  ghost predicate EvictedBy<C>(v: Variant, es: seq<Event<C>>, c: C, k: nat) {
    && k < |es| && es[k].Broadcast? && es[k].m.topic in Wanted(es[..k], c)
    && Exec(v, es[..k]).Running?
    && c in Exec(v, es[..k]).hub.clients && c in Exec(v, es[..k]).hub.chans
    && |Exec(v, es[..k]).hub.chans[c].queue| == QUEUE_CAP
  }

  ghost predicate FifoOk<C>(v: Variant, es: seq<Event<C>>, h: Hub<C>, c: C)
    requires c in h.chans
  {
    if c in h.evicted then
      exists k: nat :: EvictedBy(v, es, c, k) && Stream(h, c) == Heard(es[..k], c)
    else
      Stream(h, c) == Heard(es, c) && forall t :: Subscribed(h, c, t) <==> t in Wanted(es, c)
  }

  lemma {:induction false} UnknownClient<C>(v: Variant, es: seq<Event<C>>, c: C)
    requires Exec(v, es).Running? && c !in Exec(v, es).hub.connected
    ensures Wanted(es, c) == {} && Heard(es, c) == []
  {
    if es != [] {
      UnknownClient(v, es[..|es| - 1], c);
    }
  }

  // What one step does to one client's stream, for a client with an open channel.
  lemma StreamStep<C>(v: Variant, h: Hub<C>, e: Event<C>, c: C)
    requires Inv(v, h) && Enabled(h, e) && !Panics(h, e) && c in h.connected
    ensures var h' := Apply(v, h, e);
      var sent := e.Broadcast? && Subscribed(h, c, e.m.topic);
      && c in h'.chans
      && Stream(h', c) == (if sent && !IsFull(h, c) then Stream(h, c) + [e.m] else Stream(h, c))
      && (c in h'.evicted <==> c in h.evicted || (sent && IsFull(h, c)))
      && (sent ==> c in h.clients)
  {
    assert ClientInv(v, h, c);
    if e.Broadcast? {
      assert c in Subscribers(h, e.m.topic) <==> Subscribed(h, c, e.m.topic);
      Requeue(h.chans[c].taken, h.chans[c].queue, e.m);
    } else if e.Take? && e.c == c {
      TakeKeepsStream(h.chans[c].taken, h.chans[c].queue);
    }
  }

  lemma Requeue(taken: seq<Message>, queue: seq<Message>, m: Message)
    ensures taken + (queue + [m]) == taken + queue + [m]
  {
  }

  lemma TakeKeepsStream(taken: seq<Message>, queue: seq<Message>)
    requires queue != []
    ensures taken + [queue[0]] + queue[1..] == taken + queue
  {
  }

  lemma TopicsStep<C>(v: Variant, h: Hub<C>, e: Event<C>, c: C, t: string)
    requires Inv(v, h) && Enabled(h, e) && !Panics(h, e) && c in h.connected
    requires c !in Apply(v, h, e).evicted
    ensures Subscribed(Apply(v, h, e), c, t) <==>
      match e
      case Subscribe(d, u) => (d == c && t == u) || Subscribed(h, c, t)
      case Unsubscribe(d, u) => !(d == c && t == u) && Subscribed(h, c, t)
      case Unregister(d) => d != c && Subscribed(h, c, t)
      case _ => Subscribed(h, c, t)
  {
    assert ClientInv(v, h, c);
    if e.Broadcast? {
      assert c in Subscribers(h, e.m.topic) <==> Subscribed(h, c, e.m.topic);
    }
  }

  lemma FifoKeptEvicted<C>(v: Variant, es: seq<Event<C>>, e: Event<C>, c: C)
    requires Exec(v, es).Running? && Exec(v, es + [e]).Running?
    requires var h := Exec(v, es).hub;
      c in h.chans && c in h.evicted && FifoOk(v, es, h, c)
    ensures c in Exec(v, es + [e]).hub.chans && FifoOk(v, es + [e], Exec(v, es + [e]).hub, c)
  {
    var h, es' := Exec(v, es).hub, es + [e];
    assert es'[..|es'| - 1] == es;
    ReachableInv(v, es);
    StreamStep(v, h, e, c);
    assert ClientInv(v, h, c);
    var k: nat :| EvictedBy(v, es, c, k) && Stream(h, c) == Heard(es[..k], c);
    assert es'[..k] == es[..k];
    assert EvictedBy(v, es', c, k);
  }

  lemma FifoKeptLive<C>(v: Variant, es: seq<Event<C>>, e: Event<C>, c: C)
    requires Exec(v, es).Running? && Exec(v, es + [e]).Running?
    requires var h := Exec(v, es).hub;
      c in h.chans && c !in h.evicted && FifoOk(v, es, h, c)
    ensures c in Exec(v, es + [e]).hub.chans && FifoOk(v, es + [e], Exec(v, es + [e]).hub, c)
  {
    var h, es' := Exec(v, es).hub, es + [e];
    assert es'[..|es'| - 1] == es;
    ReachableInv(v, es);
    StreamStep(v, h, e, c);
    var h' := Exec(v, es').hub;
    if c in h'.evicted {
      var k := |es|;
      assert es'[..k] == es;
      assert ClientInv(v, h, c);
      assert EvictedBy(v, es', c, k);
    } else {
      forall t ensures Subscribed(h', c, t) <==> t in Wanted(es', c) {
        TopicsStep(v, h, e, c, t);
      }
    }
  }

  // Over every run: an unevicted client has been sent, in order and nothing
  // else, the broadcasts made while it was subscribed; an evicted one the same up
  // to the broadcast that found its queue full.  No queue exceeds the capacity.
  lemma {:induction false} FifoDelivery<C>(v: Variant, es: seq<Event<C>>, c: C)
    requires Exec(v, es).Running? && c in Exec(v, es).hub.connected
    ensures var h := Exec(v, es).hub;
      && c in h.chans && |h.chans[c].queue| <= QUEUE_CAP
      && FifoOk(v, es, h, c)
  {
    var front, e := es[..|es| - 1], es[|es| - 1];
    assert es == front + [e];
    ReachableInv(v, es);
    var h, h' := Exec(v, front).hub, Exec(v, es).hub;
    assert ClientInv(v, h', c);
    if c !in h.connected {
      UnknownClient(v, front, c);
      assert Stream(h', c) == [];
      ReachableInv(v, front);
      assert forall t :: !Subscribed(h', c, t);
    } else {
      FifoDelivery(v, front, c);
      if c in h.evicted {
        FifoKeptEvicted(v, front, e, c);
      } else {
        FifoKeptLive(v, front, e, c);
      }
    }
  }

  // ---------- What the write pump has received ----------

  // How often the write pump of c received a message.
  ghost function Takes<C>(es: seq<Event<C>>, c: C): nat {
    if es == [] then 0 else Takes(es[..|es| - 1], c) + if es[|es| - 1] == Take(c) then 1 else 0
  }

  lemma {:induction false} NoTakesYet<C>(v: Variant, es: seq<Event<C>>, c: C)
    requires Exec(v, es).Running? && c !in Exec(v, es).hub.connected
    ensures Takes(es, c) == 0
  {
    if es != [] {
      NoTakesYet(v, es[..|es| - 1], c);
    }
  }

  // Each receive takes one message, and nothing else does.
  lemma TakenStep<C>(v: Variant, h: Hub<C>, e: Event<C>, c: C)
    requires WellTyped(h) && Enabled(h, e) && c in h.connected
    ensures var taken', taken := Apply(v, h, e).chans[c].taken, h.chans[c].taken;
      if e == Take(c) then |taken'| == |taken| + 1 else taken' == taken
  {
  }

  lemma {:induction false} TakenIsCounted<C>(v: Variant, es: seq<Event<C>>, c: C)
    requires Exec(v, es).Running? && c in Exec(v, es).hub.connected
    ensures c in Exec(v, es).hub.chans && |Exec(v, es).hub.chans[c].taken| == Takes(es, c)
  {
    var front, e := es[..|es| - 1], es[|es| - 1];
    var h := Exec(v, front).hub;
    if c in h.connected {
      TakenIsCounted(v, front, c);
      TakenStep(v, h, e, c);
    } else {
      NoTakesYet(v, front, c);
    }
  }

  lemma {:induction false} HeardGrows<C>(es: seq<Event<C>>, k: nat, c: C)
    requires k <= |es|
    ensures Heard(es[..k], c) <= Heard(es, c)
    decreases |es|
  {
    if k == |es| {
      assert es[..k] == es;
    } else {
      HeardGrows(es[..|es| - 1], k, c);
      assert es[..|es| - 1][..k] == es[..k];
    }
  }

  // Over every run, evicted or not: n receives have handed over the first n messages broadcast to
  // the client while it was subscribed, one each.
  lemma TakenIsHeard<C>(v: Variant, es: seq<Event<C>>, c: C)
    requires Exec(v, es).Running? && c in Exec(v, es).hub.connected
    ensures c in Exec(v, es).hub.chans && Takes(es, c) <= |Heard(es, c)|
    ensures Exec(v, es).hub.chans[c].taken == Heard(es, c)[..Takes(es, c)]
  {
    FifoDelivery(v, es, c);
    TakenIsCounted(v, es, c);
    var h := Exec(v, es).hub;
    if c in h.evicted {
      var k: nat :| EvictedBy(v, es, c, k) && Stream(h, c) == Heard(es[..k], c);
      HeardGrows(es, k, c);
    }
    assert h.chans[c].taken <= Stream(h, c) <= Heard(es, c);
  }
}
