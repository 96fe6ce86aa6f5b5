/**
 The browser's end of one connection: a registry of callbacks per topic, and the
 messages it puts on the socket.  `TwoEnded` composes it with the hub over the
 FIFO of messages in flight.
 */
module Provider {

  type Callback = nat  // identity of a callback function

  datatype WireMessage = SubscribeMsg(topic: string) | UnsubscribeMsg(topic: string)

  datatype Browser = Browser(registry: map<string, set<Callback>>, wire: seq<WireMessage>)

  function Connected(): Browser {
    Browser(map[], [])
  }

  // Sends a subscribe message every time.
  function Subscribe(b: Browser, topic: string, cb: Callback): Browser {
    var cbs := if topic in b.registry then b.registry[topic] else {};
    Browser(b.registry[topic := cbs + {cb}], b.wire + [SubscribeMsg(topic)])
  }

  // Sends an unsubscribe message only when the last callback goes.
  function Unsubscribe(b: Browser, topic: string, cb: Callback): Browser {
    if topic !in b.registry then b
    else
      var cbs := b.registry[topic] - {cb};
      if cbs == {} then Browser(b.registry - {topic}, b.wire + [UnsubscribeMsg(topic)])
      else b.(registry := b.registry[topic := cbs])
  }

  ghost predicate NoEmptyTopics(b: Browser) {
    forall t :: t in b.registry ==> b.registry[t] != {}
  }

  function ReplayOne(topics: set<string>, m: WireMessage): set<string> {
    match m
    case SubscribeMsg(t) => topics + {t}
    case UnsubscribeMsg(t) => topics - {t}
  }

  // The server's topic set once every message in flight has arrived.
  function Replay(topics: set<string>, wire: seq<WireMessage>): set<string>
    decreases |wire|
  {
    if wire == [] then topics else Replay(ReplayOne(topics, wire[0]), wire[1..])
  }

  lemma {:induction false} ReplaySnoc(topics: set<string>, wire: seq<WireMessage>, m: WireMessage)
    ensures Replay(topics, wire + [m]) == ReplayOne(Replay(topics, wire), m)
    decreases |wire|
  {
    if wire == [] {
      assert [m][1..] == [];
    } else {
      assert (wire + [m])[1..] == wire[1..] + [m];
      ReplaySnoc(ReplayOne(topics, wire[0]), wire[1..], m);
    }
  }

  // A local change keeps the server's eventual topics equal to the registry's.
  lemma LocalStepAgrees(b: Browser, b': Browser, topic: string, cb: Callback, server: set<string>)
    requires b' == Subscribe(b, topic, cb) || b' == Unsubscribe(b, topic, cb)
    requires NoEmptyTopics(b) && Replay(server, b.wire) == b.registry.Keys
    ensures NoEmptyTopics(b') && Replay(server, b'.wire) == b'.registry.Keys
  {
    ReplaySnoc(server, b.wire, SubscribeMsg(topic));
    ReplaySnoc(server, b.wire, UnsubscribeMsg(topic));
  }

  // The registry is a Map of Sets held in a ref; `wire` is the socket's send side.
  class WebSocketProvider {
    var subscriptions: map<string, set<Callback>>
    var wire: seq<WireMessage>

    ghost function Model(): Browser
      reads this
    {
      Browser(subscriptions, wire)
    }

    constructor ()
      ensures Model() == Connected() && NoEmptyTopics(Model())
    {
      subscriptions, wire := map[], [];
    }

    method AddCallback(topic: string, callback: Callback)
      requires NoEmptyTopics(Model())
      modifies this
      ensures Model() == Subscribe(old(Model()), topic, callback) && NoEmptyTopics(Model())
      ensures wire == old(wire) + [SubscribeMsg(topic)]
    {
      if topic !in subscriptions {
        subscriptions := subscriptions[topic := {}];
      }
      subscriptions := subscriptions[topic := subscriptions[topic] + {callback}];
      wire := wire + [SubscribeMsg(topic)];
    }

    method RemoveCallback(topic: string, callback: Callback)
      requires NoEmptyTopics(Model())
      modifies this
      ensures Model() == Unsubscribe(old(Model()), topic, callback) && NoEmptyTopics(Model())
      ensures wire == old(wire) + if topic in old(subscriptions) && old(subscriptions)[topic] == {callback} then [UnsubscribeMsg(topic)] else []
    {
      if topic in subscriptions {
        subscriptions := subscriptions[topic := subscriptions[topic] - {callback}];
        if subscriptions[topic] == {} {
          subscriptions := subscriptions - {topic};
          wire := wire + [UnsubscribeMsg(topic)];
          assert subscriptions == old(subscriptions) - {topic};
        }
      }
    }
  }
}

/** Browser and hub together, over one connection. */
module TwoEnded {
  import HubSpec
  import opened Provider

  // `events` is the hub's run so far; `me` is this browser's connection.
  datatype System<C> = System(events: seq<HubSpec.Event<C>>, browser: Browser)

  datatype Step<C> =
    | AddCallback(topic: string, cb: Callback)
    | RemoveCallback(topic: string, cb: Callback)
    | Arrive                                  // the oldest message in flight reaches the hub
    | Elsewhere(e: HubSpec.Event<C>)          // any other step of the hub

  ghost predicate Mine<C>(e: HubSpec.Event<C>, me: C) {
    (e.Subscribe? || e.Unsubscribe?) && e.c == me
  }

  ghost function ToEvent<C>(m: WireMessage, me: C): HubSpec.Event<C> {
    match m
    case SubscribeMsg(t) => HubSpec.Subscribe(me, t)
    case UnsubscribeMsg(t) => HubSpec.Unsubscribe(me, t)
  }

  ghost predicate CanStep<C>(v: HubSpec.Variant, s: System<C>, me: C, step: Step<C>) {
    match step
    case AddCallback(_, _) => true
    case RemoveCallback(_, _) => true
    case Arrive => s.browser.wire != [] && HubSpec.Exec(v, s.events + [ToEvent(s.browser.wire[0], me)]).Running?
    case Elsewhere(e) => !Mine(e, me) && HubSpec.Exec(v, s.events + [e]).Running?
  }

  ghost function Next<C>(v: HubSpec.Variant, s: System<C>, me: C, step: Step<C>): System<C>
    requires CanStep(v, s, me, step)
  {
    match step
    case AddCallback(t, cb) => s.(browser := Provider.Subscribe(s.browser, t, cb))
    case RemoveCallback(t, cb) => s.(browser := Provider.Unsubscribe(s.browser, t, cb))
    case Arrive => System(s.events + [ToEvent(s.browser.wire[0], me)], s.browser.(wire := s.browser.wire[1..]))
    case Elsewhere(e) => s.(events := s.events + [e])
  }

  datatype Outcome<C> = At(sys: System<C>) | Blocked

  // Where a connection opened after the run `before` is after these steps.
  ghost function After<C>(v: HubSpec.Variant, before: seq<HubSpec.Event<C>>, me: C, steps: seq<Step<C>>): Outcome<C> {
    if steps == [] then
      var events := before + [HubSpec.Connect(me)];
      if HubSpec.Exec(v, events).Running? then At(System(events, Connected())) else Blocked
    else
      var o, step := After(v, before, me, steps[..|steps| - 1]), steps[|steps| - 1];
      if o.At? && CanStep(v, o.sys, me, step) then At(Next(v, o.sys, me, step)) else Blocked
  }

  ghost predicate Agree<C>(v: HubSpec.Variant, s: System<C>, me: C) {
    && HubSpec.Exec(v, s.events).Running?
    && NoEmptyTopics(s.browser)
    && var h := HubSpec.Exec(v, s.events).hub;
    && me in h.topics
    && (v.AsWritten? || me !in h.evicted ==> Replay(h.topics[me], s.browser.wire) == s.browser.registry.Keys)
  }

  lemma ElsewhereKeepsTopics<C>(v: HubSpec.Variant, h: HubSpec.Hub<C>, e: HubSpec.Event<C>, me: C)
    requires HubSpec.Inv(v, h) && HubSpec.Enabled(h, e) && !Mine(e, me) && me in h.topics
    ensures var h' := HubSpec.Apply(v, h, e);
      && me in h'.topics && h.evicted <= h'.evicted
      && (v.AsWritten? || me !in h'.evicted ==> h'.topics[me] == h.topics[me])
  {
  }

  lemma {:induction false} AgreeKept<C>(v: HubSpec.Variant, s: System<C>, me: C, step: Step<C>)
    requires Agree(v, s, me) && CanStep(v, s, me, step)
    ensures Agree(v, Next(v, s, me, step), me)
  {
    var h, s' := HubSpec.Exec(v, s.events).hub, Next(v, s, me, step);
    HubSpec.ReachableInv(v, s.events);
    match step
    case AddCallback(t, cb) =>
      if v.AsWritten? || me !in h.evicted { LocalStepAgrees(s.browser, s'.browser, t, cb, h.topics[me]); }
    case RemoveCallback(t, cb) =>
      if v.AsWritten? || me !in h.evicted { LocalStepAgrees(s.browser, s'.browser, t, cb, h.topics[me]); }
    case Arrive =>
      assert s'.events[..|s'.events| - 1] == s.events;
    case Elsewhere(e) =>
      assert s'.events[..|s'.events| - 1] == s.events;
      ElsewhereKeepsTopics(v, h, e, me);
  }

  // At any moment of a connection, once the messages in flight have arrived the
  // server has this client under exactly the topics that have a local callback.
  lemma {:induction false} SubscriptionAgreement<C>(
    v: HubSpec.Variant, before: seq<HubSpec.Event<C>>, me: C, steps: seq<Step<C>>)
    requires After(v, before, me, steps).At?
    ensures Agree(v, After(v, before, me, steps).sys, me)
  {
    if steps == [] {
      var es := before + [HubSpec.Connect(me)];
      assert es[..|es| - 1] == before;
    } else {
      SubscriptionAgreement(v, before, me, steps[..|steps| - 1]);
      AgreeKept(v, After(v, before, me, steps[..|steps| - 1]).sys, me, steps[|steps| - 1]);
    }
  }

  // The last change of this callback on this topic was an add.
  ghost predicate AddedLast<C>(steps: seq<Step<C>>, topic: string, cb: Callback) {
    if steps == [] then false
    else
      match steps[|steps| - 1]
      case AddCallback(t, c) => (t == topic && c == cb) || AddedLast(steps[..|steps| - 1], topic, cb)
      case RemoveCallback(t, c) => !(t == topic && c == cb) && AddedLast(steps[..|steps| - 1], topic, cb)
      case _ => AddedLast(steps[..|steps| - 1], topic, cb)
  }

  // At any moment a callback is called for a topic exactly when it was added last, not removed.
  lemma {:induction false} ListensIffAddedLast<C>(
    v: HubSpec.Variant, before: seq<HubSpec.Event<C>>, me: C, steps: seq<Step<C>>, topic: string, cb: Callback)
    requires After(v, before, me, steps).At?
    ensures var registry := After(v, before, me, steps).sys.browser.registry;
      (topic in registry && cb in registry[topic]) <==> AddedLast(steps, topic, cb)
  {
    if steps != [] {
      ListensIffAddedLast(v, before, me, steps[..|steps| - 1], topic, cb);
    }
  }

  // End to end: with nothing in flight, a broadcast reaches this client's stream
  // exactly when some callback here listens to its topic.
  lemma BroadcastReachesCallbacks<C>(
    v: HubSpec.Variant, before: seq<HubSpec.Event<C>>, me: C, steps: seq<Step<C>>, s: System<C>, m: HubSpec.Message)
    requires After(v, before, me, steps) == At(s) && s.browser.wire == []
    requires var st := HubSpec.Exec(v, s.events);
      && st.Running? && me !in st.hub.left && me !in st.hub.evicted
      && HubSpec.Exec(v, s.events + [HubSpec.Broadcast(m)]).Running?
    ensures var h, h' := HubSpec.Exec(v, s.events).hub, HubSpec.Exec(v, s.events + [HubSpec.Broadcast(m)]).hub;
      && me in h.chans && me in h'.chans
      && (m.topic !in s.browser.registry ==> HubSpec.Stream(h', me) == HubSpec.Stream(h, me) && me !in h'.evicted)
      && (m.topic in s.browser.registry && !HubSpec.IsFull(h, me) ==>
            HubSpec.Stream(h', me) == HubSpec.Stream(h, me) + [m] && me !in h'.evicted)
      && (m.topic in s.browser.registry && HubSpec.IsFull(h, me) ==> me in h'.evicted)
  {
    SubscriptionAgreement(v, before, me, steps);
    HubSpec.ReachableInv(v, s.events);
    var h, es' := HubSpec.Exec(v, s.events).hub, s.events + [HubSpec.Broadcast(m)];
    assert es'[..|es'| - 1] == s.events;
    assert HubSpec.ClientInv(v, h, me);
    HubSpec.StreamStep(v, h, HubSpec.Broadcast(m), me);
    assert HubSpec.Subscribed(h, me, m.topic) <==> m.topic in s.browser.registry;
  }
}
