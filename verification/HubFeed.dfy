/**
 The hub and the history page together.  A publication of the feed is a broadcast of the hub to
 the sessions topic; a page whose connection stays subscribed and is not evicted is sent exactly
 the notifications published, in that order.
 */
module HubFeed {
  import opened Lists
  import opened HubSpec
  import Feed
  import opened SessionDb

  const SESSIONS := "sessions"

  datatype Move<C> = AtHub(e: Event<C>) | AtFeed(step: Feed.Step)

  // The hub's events so far, and what was published and received since the beginning.
  datatype Joint<C> = Joint(
    events: seq<Event<C>>, feed: Feed.System, published: seq<Feed.Notification>, received: seq<Feed.Notification>)

  datatype Result<C> = At(joint: Joint<C>) | Blocked

  // `encode` is the JSON form of a notification.
  function MessageOf(encode: Feed.Notification -> string, n: Feed.Notification): Message {
    Message(SESSIONS, encode(n))
  }

  function Messages(encode: Feed.Notification -> string, ns: seq<Feed.Notification>): (r: seq<Message>)
    ensures |r| == |ns|
    ensures forall i :: 0 <= i < |ns| ==> r[i] == MessageOf(encode, ns[i])
  {
    seq(|ns|, i requires 0 <= i < |ns| => MessageOf(encode, ns[i]))
  }

  // Whatever else the hub broadcasts is on another topic.
  ghost predicate CanMove<C>(j: Joint<C>, move: Move<C>) {
    match move
    case AtHub(e) => !(e.Broadcast? && e.m.topic == SESSIONS)
    case AtFeed(step) => Feed.CanStep(j.feed, step)
  }

  ghost function MoveOn<C>(q: Query, encode: Feed.Notification -> string, j: Joint<C>, move: Move<C>): Joint<C>
    requires CanMove(j, move)
  {
    match move
    case AtHub(e) => j.(events := j.events + [e])
    case AtFeed(step) =>
      var feed' := Feed.Next(q, j.feed, step);
      match step
      case Publish(k) =>
        var n := j.feed.outbox[k];
        j.(events := j.events + [Broadcast(MessageOf(encode, n))], feed := feed', published := j.published + [n])
      case Arrive => j.(feed := feed', received := j.received + [j.feed.inbox[0]])
      case _ => j.(feed := feed')
  }

  ghost function After<C>(q: Query, encode: Feed.Notification -> string, j0: Joint<C>, moves: seq<Move<C>>): Result<C> {
    if moves == [] then At(j0)
    else
      var r, move := After(q, encode, j0, moves[..|moves| - 1]), moves[|moves| - 1];
      if r.At? && CanMove(r.joint, move) then At(MoveOn(q, encode, r.joint, move)) else Blocked
  }

  ghost predicate Leaves<C>(e: Event<C>, c: C) {
    (e.Unsubscribe? && e.c == c && e.topic == SESSIONS) || (e.Unregister? && e.c == c)
  }

  // The connection keeps its subscription.
  ghost predicate Stays<C>(moves: seq<Move<C>>, c: C) {
    forall i :: 0 <= i < |moves| && moves[i].AtHub? ==> !Leaves(moves[i].e, c)
  }

  function OnSessions(): Message -> bool {
    (m: Message) => m.topic == SESSIONS
  }

  // What the connection has been sent on the topic.
  ghost function Sent<C>(h: Hub<C>, c: C): seq<Message>
    requires c in h.chans
  {
    Filter(Stream(h, c), OnSessions())
  }

  // ---------- Published and received ----------

  lemma OneMore<T>(a: seq<T>, b: seq<T>, c: seq<T>, d: seq<T>, x: T)
    requires a + b == c + d
    ensures a + (b + [x]) == c + (d + [x])
  {
    assert a + (b + [x]) == a + b + [x];
  }

  // Conservation: what was published, after what was in flight, is what was received and what
  // is in flight.
  lemma {:induction false} NoneLost<C>(q: Query, encode: Feed.Notification -> string, j0: Joint<C>, moves: seq<Move<C>>)
    requires After(q, encode, j0, moves).At? && j0.published == [] && j0.received == []
    ensures var j := After(q, encode, j0, moves).joint;
      j0.feed.inbox + j.published == j.received + j.feed.inbox
  {
    if moves != [] {
      NoneLost(q, encode, j0, moves[..|moves| - 1]);
      var j, move := After(q, encode, j0, moves[..|moves| - 1]).joint, moves[|moves| - 1];
      if move.AtFeed? && move.step.Publish? {
        var n := j.feed.outbox[move.step.k];
        OneMore(j0.feed.inbox, j.published, j.received, j.feed.inbox, n);
      } else if move == AtFeed(Feed.Arrive) {
        assert j.received + j.feed.inbox == j.received + [j.feed.inbox[0]] + j.feed.inbox[1..];
      }
    }
  }

  // ---------- Broadcast and heard ----------

  lemma HeardSnoc<C>(es: seq<Event<C>>, e: Event<C>, c: C)
    ensures Heard(es + [e], c) == if e.Broadcast? && e.m.topic in Wanted(es, c) then Heard(es, c) + [e.m] else Heard(es, c)
    ensures SESSIONS in Wanted(es, c) && !Leaves(e, c) ==> SESSIONS in Wanted(es + [e], c)
  {
    assert (es + [e])[..|es + [e]| - 1] == es;
  }

  lemma MessagesSnoc(encode: Feed.Notification -> string, ns: seq<Feed.Notification>, n: Feed.Notification)
    ensures Messages(encode, ns + [n]) == Messages(encode, ns) + [MessageOf(encode, n)]
  {
  }

  lemma FilterSnoc(ms: seq<Message>, m: Message)
    ensures Filter(ms + [m], OnSessions()) == Filter(ms, OnSessions()) + (if m.topic == SESSIONS then [m] else [])
  {
    FilterConcat(ms, [m], OnSessions());
    assert [m][1..] == [];
  }

  ghost predicate Hears<C>(encode: Feed.Notification -> string, j0: Joint<C>, j: Joint<C>, c: C) {
    && SESSIONS in Wanted(j.events, c)
    && Filter(Heard(j.events, c), OnSessions()) == Filter(Heard(j0.events, c), OnSessions()) + Messages(encode, j.published)
  }

  lemma OtherEvent<C>(es: seq<Event<C>>, e: Event<C>, c: C)
    requires SESSIONS in Wanted(es, c) && !Leaves(e, c) && !(e.Broadcast? && e.m.topic == SESSIONS)
    ensures SESSIONS in Wanted(es + [e], c) && Filter(Heard(es + [e], c), OnSessions()) == Filter(Heard(es, c), OnSessions())
  {
    HeardSnoc(es, e, c);
    if e.Broadcast? { FilterSnoc(Heard(es, c), e.m); }
  }

  lemma PublishedEvent<C>(es: seq<Event<C>>, m: Message, c: C)
    requires SESSIONS in Wanted(es, c) && m.topic == SESSIONS
    ensures SESSIONS in Wanted(es + [Broadcast(m)], c)
    ensures Filter(Heard(es + [Broadcast(m)], c), OnSessions()) == Filter(Heard(es, c), OnSessions()) + [m]
  {
    HeardSnoc(es, Broadcast(m), c);
    FilterSnoc(Heard(es, c), m);
  }

  lemma MoveHears<C>(q: Query, encode: Feed.Notification -> string, j0: Joint<C>, j: Joint<C>, move: Move<C>, c: C)
    requires Hears(encode, j0, j, c) && CanMove(j, move) && (move.AtHub? ==> !Leaves(move.e, c))
    ensures Hears(encode, j0, MoveOn(q, encode, j, move), c)
  {
    match move
    case AtHub(e) => OtherEvent(j.events, e, c);
    case AtFeed(step) =>
      if step.Publish? {
        var n := j.feed.outbox[step.k];
        PublishedEvent(j.events, MessageOf(encode, n), c);
        MessagesSnoc(encode, j.published, n);
      }
  }

  lemma {:induction false} PublishedIsHeard<C>(q: Query, encode: Feed.Notification -> string, j0: Joint<C>, moves: seq<Move<C>>, c: C)
    requires After(q, encode, j0, moves).At? && j0.published == []
    requires SESSIONS in Wanted(j0.events, c) && Stays(moves, c)
    ensures Hears(encode, j0, After(q, encode, j0, moves).joint, c)
  {
    if moves == [] {
      assert Messages(encode, []) == [];
    } else {
      PublishedIsHeard(q, encode, j0, moves[..|moves| - 1], c);
      MoveHears(q, encode, j0, After(q, encode, j0, moves[..|moves| - 1]).joint, moves[|moves| - 1], c);
    }
  }

  // ---------- The hub ran all along ----------

  lemma {:induction false} RanBefore<C>(v: Variant, es: seq<Event<C>>, k: nat)
    requires Exec(v, es).Running? && k <= |es|
    ensures Exec(v, es[..k]).Running? && Exec(v, es[..k]).hub.evicted <= Exec(v, es).hub.evicted
    ensures Exec(v, es[..k]).hub.connected <= Exec(v, es).hub.connected
    decreases |es|
  {
    if k == |es| {
      assert es[..k] == es;
    } else {
      RanBefore(v, es[..|es| - 1], k);
      assert es[..|es| - 1][..k] == es[..k];
      OneStepKeeps(v, Exec(v, es[..|es| - 1]).hub, es[|es| - 1]);
    }
  }

  lemma OneStepKeeps<C>(v: Variant, h: Hub<C>, e: Event<C>)
    requires WellTyped(h) && Enabled(h, e)
    ensures h.evicted <= Apply(v, h, e).evicted && h.connected <= Apply(v, h, e).connected
  {
  }

  lemma {:induction false} EventsGrow<C>(q: Query, encode: Feed.Notification -> string, j0: Joint<C>, moves: seq<Move<C>>)
    requires After(q, encode, j0, moves).At?
    ensures j0.events <= After(q, encode, j0, moves).joint.events
  {
    if moves != [] {
      EventsGrow(q, encode, j0, moves[..|moves| - 1]);
    }
  }

  // For a connection that stays subscribed to the sessions topic and is not evicted, what its
  // stream gains on that topic is exactly what was published, in order; and all of that was in
  // the inbox in that order, behind what was there before.
  lemma StreamGainsPublished<C>(v: Variant, q: Query, encode: Feed.Notification -> string, j0: Joint<C>, moves: seq<Move<C>>, c: C)
    requires j0.published == [] && j0.received == []
    requires Exec(v, j0.events).Running? && c in Exec(v, j0.events).hub.connected
    requires After(q, encode, j0, moves).At?
    requires Exec(v, After(q, encode, j0, moves).joint.events).Running?
    requires SESSIONS in Wanted(j0.events, c) && Stays(moves, c)
    requires c !in Exec(v, After(q, encode, j0, moves).joint.events).hub.evicted
    ensures var j := After(q, encode, j0, moves).joint;
      var h0, h := Exec(v, j0.events).hub, Exec(v, j.events).hub;
      && c in h0.chans && c in h.chans
      && Sent(h, c) == Sent(h0, c) + Messages(encode, j.published)
      && (forall i :: 0 <= i < |j.published| ==> Messages(encode, j.published)[i] == Message("sessions", encode(j.published[i])))
      && j0.feed.inbox + j.published == j.received + j.feed.inbox
  {
    var j := After(q, encode, j0, moves).joint;
    NoneLost(q, encode, j0, moves);
    PublishedIsHeard(q, encode, j0, moves, c);
    EventsGrow(q, encode, j0, moves);
    RanBefore(v, j.events, |j0.events|);
    assert j.events[..|j0.events|] == j0.events;
    FifoDelivery(v, j0.events, c);
    FifoDelivery(v, j.events, c);
  }
}
