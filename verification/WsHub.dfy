/**
 The hub and its clients as objects updated in place.  Every method is proved
 equal to a step of `HubSpec`, in the code's own variant.
 */
module WsHubObjects {
  import opened HubSpec
  import opened Options

  class WsClient {
    const hub: WsHub
    var send: seq<Message>
    var closed: bool
    var topics: set<string>
    ghost var taken: seq<Message>  // what the write pump has received

    constructor (h: WsHub)
      ensures hub == h && send == [] && !closed && topics == {} && taken == []
    {
      hub, send, closed, topics, taken := h, [], false, {}, [];
    }

    // A subscribe message; without a topic it is ignored.
    method HandleSubscribe(topic: Option<string>)
      requires hub.Valid() && this in hub.connected - hub.left
      modifies hub, this
      ensures hub.Valid() && hub.SameGhosts()
      ensures hub.Model() ==
        if topic.None? then old(hub.Model()) else Apply(AsWritten, old(hub.Model()), Subscribe(this, topic.value))
    {
      if topic.None? { return; }
      InvKept(AsWritten, hub.Model(), Subscribe(this, topic.value));
      Enter(topic.value);
    }

    // Both indexes, under the hub's mutex.
    method Enter(t: string)
      requires this in hub.connected
      modifies hub`subscriptions, this`topics
      ensures var h := old(hub.Model());
        hub.Model() == h.(subscriptions := h.subscriptions[t := Subscribers(h, t) + {this}],
                          topics := h.topics[this := h.topics[this] + {t}])
    {
      if t !in hub.subscriptions {
        hub.subscriptions := hub.subscriptions[t := {}];
      }
      hub.subscriptions := hub.subscriptions[t := hub.subscriptions[t] + {this}];
      topics := topics + {t};
      ghost var h, h' := old(hub.Model()), hub.Model();
      assert h'.chans == h.chans;
      assert h'.topics == h.topics[this := h.topics[this] + {t}];
    }

    method HandleUnsubscribe(topic: Option<string>)
      requires hub.Valid() && this in hub.connected - hub.left
      modifies hub, this
      ensures hub.Valid() && hub.SameGhosts()
      ensures hub.Model() ==
        if topic.None? then old(hub.Model()) else Apply(AsWritten, old(hub.Model()), Unsubscribe(this, topic.value))
    {
      if topic.None? { return; }
      InvKept(AsWritten, hub.Model(), Unsubscribe(this, topic.value));
      Leave(topic.value);
    }

    method Leave(t: string)
      requires this in hub.connected
      modifies hub`subscriptions, this`topics
      ensures var h := old(hub.Model());
        hub.Model() == h.(subscriptions := Without(h.subscriptions, {t}, this),
                          topics := h.topics[this := h.topics[this] - {t}])
    {
      if t in hub.subscriptions {
        hub.subscriptions := hub.subscriptions[t := hub.subscriptions[t] - {this}];
      }
      topics := topics - {t};
      ghost var h, h' := old(hub.Model()), hub.Model();
      assert h'.chans == h.chans;
      assert h'.topics == h.topics[this := h.topics[this] - {t}];
    }

    // One receive of the write pump.
    method Receive() returns (message: Message)
      requires hub.Valid() && this in hub.connected && send != []
      modifies this
      ensures message == old(send)[0] && send == old(send)[1..] && taken == old(taken) + [message]
      ensures hub.Valid() && hub.Model() == Apply(AsWritten, old(hub.Model()), Take(this))
    {
      message := send[0];
      send := send[1..];
      taken := taken + [message];
      ghost var want := Apply(AsWritten, old(hub.Model()), Take(this));
      assert hub.Model().topics == want.topics && hub.Model().chans == want.chans;
      InvKept(AsWritten, old(hub.Model()), Take(this));
    }
  }

  class WsHub {
    var clients: set<WsClient>
    var subscriptions: map<string, set<WsClient>>
    ghost var connected: set<WsClient>
    ghost var pending: set<WsClient>
    ghost var left: set<WsClient>
    ghost var evicted: set<WsClient>

    ghost function Model(): Hub<WsClient>
      reads this, connected
    {
      Hub(connected, pending, clients, subscriptions,
          map c | c in connected :: c.topics,
          map c | c in connected :: Chan(c.send, c.closed, c.taken),
          left, evicted)
    }

    ghost predicate Valid()
      reads this, connected
    {
      Inv(AsWritten, Model()) && forall c :: c in connected ==> c.hub == this
    }

    twostate predicate SameGhosts()
      reads this
    {
      connected == old(connected) && pending == old(pending) && left == old(left) && evicted == old(evicted)
    }

    constructor ()
      ensures Valid() && Model() == Init()
    {
      clients, subscriptions := {}, map[];
      connected, pending, left, evicted := {}, {}, {}, {};
    }

    // The hub goroutine receives a new client from the register channel ...
    ghost method Accept(client: WsClient)
      requires Valid() && pending == {} && client !in connected && client.hub == this
      requires client.send == [] && !client.closed && client.topics == {} && client.taken == []
      modifies this
      ensures Valid() && Model() == Apply(AsWritten, old(Model()), Connect(client))
    {
      connected := connected + {client};
      pending := {client};
      ghost var want := Apply(AsWritten, old(Model()), Connect(client));
      assert Model().topics == want.topics && Model().chans == want.chans;
      InvKept(AsWritten, old(Model()), Connect(client));
    }

    // ... and then enters it in `clients`.
    method HandleRegister(client: WsClient)
      requires Valid() && pending == {client}
      modifies this
      ensures Valid() && Model() == Apply(AsWritten, old(Model()), Register)
    {
      ghost var before := Model();
      InvKept(AsWritten, before, Register);
      clients := clients + {client};
      pending := {};
      assert Model().topics == before.topics && Model().chans == before.chans;
    }

    method DropFromTopics(client: WsClient)
      modifies this`subscriptions
      ensures subscriptions == Without(old(subscriptions), client.topics, client)
    {
      var todo := client.topics;
      while todo != {}
        invariant todo <= client.topics
        invariant subscriptions == Without(old(subscriptions), client.topics - todo, client)
      {
        var topic :| topic in todo;
        if topic in subscriptions {
          subscriptions := subscriptions[topic := subscriptions[topic] - {client}];
        }
        todo := todo - {topic};
        assert client.topics - todo == client.topics - (todo + {topic}) + {topic};
      }
      assert client.topics - todo == client.topics;
    }

    // The body of the unregister arm for a client that is still registered.
    method Remove(client: WsClient)
      requires client in connected && !client.closed
      modifies this`clients, this`subscriptions, this`left, client`closed
      ensures var h := old(Model());
        Model() == h.(clients := h.clients - {client}, left := h.left + {client},
                      subscriptions := Without(h.subscriptions, h.topics[client], client),
                      chans := h.chans[client := h.chans[client].(closed := true)])
    {
      clients := clients - {client};
      DropFromTopics(client);
      client.closed := true;
      left := left + {client};
      ghost var h, h' := old(Model()), Model();
      assert h'.topics == h.topics;
      assert h'.chans == h.chans[client := h.chans[client].(closed := true)];
    }

    method HandleUnregister(client: WsClient)
      requires Valid() && pending == {} && client in connected - left
      modifies this, client
      ensures Valid() && Model() == Apply(AsWritten, old(Model()), Unregister(client))
    {
      InvKept(AsWritten, Model(), Unregister(client));
      if client in clients {
        assert ClientInv(AsWritten, Model(), client);
        Remove(client);
      } else {
        ghost var h := Model();
        left := left + {client};
        assert Model().topics == h.topics && Model().chans == h.chans;
      }
    }

    // One non-blocking send, with the eviction branch.
    method TrySend(client: WsClient, message: Message)
      requires client in connected && !client.closed
      modifies this`clients, this`evicted, client`send, client`closed
      ensures Model() == DeliverOne(AsWritten, old(Model()), message, client)
    {
      if |client.send| < QUEUE_CAP {
        client.send := client.send + [message];
      } else {
        client.closed := true;
        clients := clients - {client};
        evicted := evicted + {client};
      }
      ghost var one := DeliverOne(AsWritten, old(Model()), message, client);
      assert Model().chans == one.chans && Model().topics == one.topics;
    }

    method SendNext(client: WsClient, message: Message, ghost h: Hub<WsClient>, ghost done: set<WsClient>)
      requires Inv(AsWritten, h) && Model() == DeliverTo(AsWritten, h, message, done)
      requires client in Subscribers(h, message.topic) - done && !h.chans[client].closed
      modifies this`clients, this`evicted, connected`send, connected`closed
      ensures connected == old(connected) && subscriptions == old(subscriptions)
      ensures Model() == DeliverTo(AsWritten, h, message, done + {client})
    {
      DeliverNext(AsWritten, h, message, done, client);
      assert Model().chans[client] == h.chans[client];
      TrySend(client, message);
    }

    // The loop of the broadcast arm.  The subscribers are visited in no particular
    // order; a send on a closed channel panics and takes the process down.
    method SendToAll(message: Message, ghost h: Hub<WsClient>) returns (panicked: bool)
      requires h == Model() && Inv(AsWritten, h)
      modifies this`clients, this`evicted, connected`send, connected`closed
      ensures panicked <==> Panics(h, Broadcast(message))
      ensures !panicked ==> Model() == Deliver(AsWritten, h, message)
    {
      panicked := false;
      var to := if message.topic in subscriptions then subscriptions[message.topic] else {};
      var todo := to;
      DeliverNone(AsWritten, h, message);
      ghost var done := {};
      while todo != {}
        invariant done !! todo && done + todo == to == Subscribers(h, message.topic)
        invariant connected == old(connected)
        invariant Model() == DeliverTo(AsWritten, h, message, done)
        invariant forall c :: c in done ==> !h.chans[c].closed
      {
        var client :| client in todo;
        assert Model().chans[client] == h.chans[client];
        if client.closed {
          panicked := true;
          return;
        }
        SendNext(client, message, h, done);
        todo, done := todo - {client}, done + {client};
      }
    }

    method HandleBroadcast(message: Message) returns (panicked: bool)
      requires Valid() && pending == {}
      modifies this, connected
      ensures panicked <==> old(Panics(Model(), Broadcast(message)))
      ensures !panicked ==> Valid() && Model() == Apply(AsWritten, old(Model()), Broadcast(message))
    {
      ghost var h := Model();
      panicked := SendToAll(message, h);
      if !panicked {
        InvKept(AsWritten, h, Broadcast(message));
      }
    }

    // Publish hands a message to the hub goroutine if that is waiting for one and
    // drops it otherwise.
    method Publish(message: Message, hubIsWaiting: bool) returns (panicked: bool)
      requires Valid() && (hubIsWaiting ==> pending == {})
      modifies this, connected
      ensures !hubIsWaiting ==> !panicked && Valid() && Model() == old(Model())
      ensures hubIsWaiting ==> (panicked <==> old(Panics(Model(), Broadcast(message))))
      ensures hubIsWaiting && !panicked ==> Valid() && Model() == Apply(AsWritten, old(Model()), Broadcast(message))
    {
      panicked := false;
      if hubIsWaiting {
        panicked := HandleBroadcast(message);
      }
    }
  }
}
