/**
 The two ways a response body reaches the client and the log: relayed chunk by
 chunk through one reused buffer, or read to the end first.
 */
module SseRelay {
  import opened Lists

  type byte = x: int | 0 <= x < 256

  const RELAY_ROOM: nat := 4096
  const READ_ALL_ROOM: nat := 512

  // How one Read behaves: the most it returns, and whether an end that it reaches comes with the data.
  datatype Turn = Turn(size: nat, eager: bool)

  // How one Write behaves: the most it takes, and whether it reports success.
  datatype Accept = Accept(limit: nat, ok: bool)

  function Tail<T>(s: seq<T>): seq<T> {
    if s == [] then [] else s[1..]
  }

  function ReadSize(rest: seq<byte>, turns: seq<Turn>, room: nat): (n: nat)
    ensures n <= |rest| && n <= room
  {
    Min(if turns == [] then room else turns[0].size, Min(room, |rest|))
  }

  // This read returns the end of the body: EOF, or the error that cuts it short.
  predicate Ends(rest: seq<byte>, turns: seq<Turn>, room: nat) {
    (turns == [] || turns[0].eager) && ReadSize(rest, turns, room) == |rest|
  }

  // The non-empty pieces in which the reads hand over the body.
  function Chunks(rest: seq<byte>, turns: seq<Turn>, room: nat): seq<seq<byte>>
    requires room > 0
    decreases |turns| + |rest|
  {
    var n := ReadSize(rest, turns, room);
    var head := if n > 0 then [rest[..n]] else [];
    if Ends(rest, turns, room) then head else head + Chunks(rest[n..], Tail(turns), room)
  }

  function Concat(chunks: seq<seq<byte>>): seq<byte> {
    if chunks == [] then [] else chunks[0] + Concat(chunks[1..])
  }

  function Taken(chunk: seq<byte>, accepts: seq<Accept>): (n: nat)
    ensures n <= |chunk|
  {
    if accepts == [] then |chunk| else Min(accepts[0].limit, |chunk|)
  }

  // The write took all of it and reported no error.
  predicate TakesAll(chunk: seq<byte>, accepts: seq<Accept>) {
    Taken(chunk, accepts) == |chunk| && (accepts != [] ==> accepts[0].ok)
  }

  // How many chunks are written in full before the first write that fails.
  function Written(chunks: seq<seq<byte>>, accepts: seq<Accept>): (m: nat)
    ensures m <= |chunks|
  {
    if chunks == [] || !TakesAll(chunks[0], accepts) then 0 else 1 + Written(chunks[1..], Tail(accepts))
  }

  // The chunks written in full, put together.
  function WrittenBytes(chunks: seq<seq<byte>>, accepts: seq<Accept>): seq<byte> {
    Concat(chunks[..Written(chunks, accepts)])
  }

  predicate NoneFails(chunks: seq<seq<byte>>, accepts: seq<Accept>) {
    Written(chunks, accepts) == |chunks|
  }

  // What the relay captures.
  function Captured(body: seq<byte>, turns: seq<Turn>, accepts: seq<Accept>): seq<byte> {
    WrittenBytes(Chunks(body, turns, RELAY_ROOM), accepts)
  }

  predicate AllWritten(body: seq<byte>, turns: seq<Turn>, accepts: seq<Accept>) {
    NoneFails(Chunks(body, turns, RELAY_ROOM), accepts)
  }

  // ---------- Properties ----------

  // However the reads cut the body, nothing is lost, repeated or reordered.
  lemma {:induction false} ChunksAreTheBody(rest: seq<byte>, turns: seq<Turn>, room: nat)
    requires room > 0
    ensures Concat(Chunks(rest, turns, room)) == rest
    ensures forall c :: c in Chunks(rest, turns, room) ==> 0 < |c| <= room
    decreases |turns| + |rest|
  {
    var n := ReadSize(rest, turns, room);
    if Ends(rest, turns, room) {
      assert rest[..n] == rest;
      assert Concat([rest]) == rest + Concat([]);
    } else {
      ChunksAreTheBody(rest[n..], Tail(turns), room);
      FirstChunk(rest, n, Chunks(rest[n..], Tail(turns), room));
    }
  }

  // A read that the sender does not limit fills the buffer of 4096 bytes, or takes what is left.
  lemma FullRead(body: seq<byte>)
    requires body != []
    ensures var chunks := Chunks(body, [], RELAY_ROOM);
      chunks != [] && chunks[0] == if |body| <= 4096 then body else body[..4096]
  {
    assert body[..|body|] == body;
  }

  lemma FirstChunk(rest: seq<byte>, n: nat, more: seq<seq<byte>>)
    requires n <= |rest| && Concat(more) == rest[n..]
    ensures Concat((if n > 0 then [rest[..n]] else []) + more) == rest
  {
    assert rest == rest[..n] + rest[n..];
    if n > 0 {
      ConcatCons(rest[..n], more);
    } else {
      assert rest[n..] == rest && [] + more == more;
    }
  }

  lemma ConcatCons(chunk: seq<byte>, more: seq<seq<byte>>)
    ensures Concat([chunk] + more) == chunk + Concat(more)
  {
    assert ([chunk] + more)[1..] == more;
  }

  lemma {:induction false} ConcatSplit(chunks: seq<seq<byte>>, m: nat)
    requires m <= |chunks|
    ensures Concat(chunks) == Concat(chunks[..m]) + Concat(chunks[m..])
  {
    if m == 0 {
      assert chunks[m..] == chunks;
    } else {
      ConcatSplit(chunks[1..], m - 1);
      assert chunks[1..][..m - 1] == chunks[..m][1..] && chunks[1..][m - 1..] == chunks[m..];
    }
  }

  // A prefix of the body always; the whole body exactly when no write fails.
  lemma CapturedIff(body: seq<byte>, turns: seq<Turn>, accepts: seq<Accept>)
    ensures Captured(body, turns, accepts) <= body
    ensures Captured(body, turns, accepts) == body <==> AllWritten(body, turns, accepts)
  {
    var chunks := Chunks(body, turns, RELAY_ROOM);
    var m := Written(chunks, accepts);
    ChunksAreTheBody(body, turns, RELAY_ROOM);
    ConcatSplit(chunks, m);
    if m < |chunks| {
      assert 0 < |chunks[m]| by { assert chunks[m] in chunks; }
      assert Concat(chunks[m..]) == chunks[m] + Concat(chunks[m..][1..]);
    } else {
      assert chunks[..m] == chunks;
    }
  }

  function Buffered(body: seq<byte>, turns: seq<Turn>): seq<byte> {
    Concat(Chunks(body, turns, READ_ALL_ROOM))
  }

  // The relay logs what the buffered path would log, whatever reads either gets, exactly
  // when no write fails.  A body cut short by a read error is logged the same by both.
  lemma RelayRefinesBuffering(body: seq<byte>, turns: seq<Turn>, accepts: seq<Accept>, turns': seq<Turn>)
    ensures Captured(body, turns, accepts) == Buffered(body, turns') <==> AllWritten(body, turns, accepts)
  {
    CapturedIff(body, turns, accepts);
    ChunksAreTheBody(body, turns', READ_ALL_ROOM);
  }

  // ---------- The code ----------

  class Upstream {
    var rest: seq<byte>
    var turns: seq<Turn>

    // Fills a prefix of the buffer; the remainder of it may hold anything.
    method Read(buf: array<byte>) returns (n: nat, end: bool)
      modifies this, buf
      ensures n == ReadSize(old(rest), old(turns), buf.Length)
      ensures old(turns) != [] && old(turns)[0].size <= |old(rest)| && old(turns)[0].size <= buf.Length ==> n == old(turns)[0].size
      ensures end <==> Ends(old(rest), old(turns), buf.Length)
      ensures end <==> n == |old(rest)| && (old(turns) == [] || old(turns)[0].eager)
      ensures rest == old(rest)[n..] && turns == Tail(old(turns))
      ensures n <= buf.Length && buf[..n] == old(rest)[..n]
    {
      n := ReadSize(rest, turns, buf.Length);
      end := Ends(rest, turns, buf.Length);
      for i := 0 to n
        invariant rest == old(rest) && turns == old(turns)
        invariant forall k :: 0 <= k < i ==> buf[k] == rest[k]
      {
        buf[i] := rest[i];
      }
      rest, turns := rest[n..], Tail(turns);
    }
  }

  class Client {
    var received: seq<byte>
    var accepts: seq<Accept>

    method Write(chunk: seq<byte>) returns (n: nat, ok: bool)
      modifies this
      ensures n == Taken(chunk, old(accepts)) && received == old(received) + chunk[..n]
      ensures n == |chunk| && ok <==> TakesAll(chunk, old(accepts))
      ensures accepts == Tail(old(accepts))
    {
      n := Taken(chunk, accepts);
      ok := accepts == [] || accepts[0].ok;
      received, accepts := received + chunk[..n], Tail(accepts);
    }
  }

  // The relay loop.  The writers are served in turn, client first: a chunk is captured
  // only after the client took all of it.
  method Relay(upstream: Upstream, client: Client) returns (captured: seq<byte>)
    modifies upstream, client
    ensures captured == Captured(old(upstream.rest), old(upstream.turns), old(client.accepts))
    ensures old(client.received) + captured <= client.received <= old(client.received) + old(upstream.rest)
    ensures AllWritten(old(upstream.rest), old(upstream.turns), old(client.accepts))
      ==> client.received == old(client.received) + old(upstream.rest)
  {
    captured := [];
    var buf := new byte[RELAY_ROOM];
    ghost var chunks := Chunks(upstream.rest, upstream.turns, RELAY_ROOM);
    ghost var goal, all := WrittenBytes(chunks, client.accepts), NoneFails(chunks, client.accepts);
    CapturedIff(upstream.rest, upstream.turns, client.accepts);
    while true
      invariant fresh(buf) && buf.Length == RELAY_ROOM
      invariant chunks == Chunks(upstream.rest, upstream.turns, RELAY_ROOM)
      invariant captured + WrittenBytes(chunks, client.accepts) == goal
      invariant all <==> NoneFails(chunks, client.accepts)
      invariant client.received == old(client.received) + captured
      invariant captured + upstream.rest == old(upstream.rest)
      decreases |upstream.turns| + |upstream.rest|
    {
      ghost var rest, turns, accepts := upstream.rest, upstream.turns, client.accepts;
      var n, end := upstream.Read(buf);
      NextChunk(rest, turns);
      if n > 0 {
        var taken, ok := client.Write(buf[..n]);
        WriteOne(chunks, accepts);
        Partial(old(client.received), captured, rest, n, taken);
        if !ok || taken < n { break; }
        Regroup(captured, buf[..n], WrittenBytes(chunks[1..], client.accepts));
        Regroup(old(client.received), captured, buf[..n]);
        captured := captured + buf[..n];
        chunks := chunks[1..];
      }
      if end { break; }
    }
  }

  lemma Partial(base: seq<byte>, captured: seq<byte>, rest: seq<byte>, n: nat, taken: nat)
    requires taken <= n <= |rest|
    ensures base + captured <= base + captured + rest[..n][..taken] <= base + (captured + rest)
    ensures captured + rest[..n] + rest[n..] == captured + rest
  {
    assert rest[..n][..taken] + rest[taken..] == rest;
    assert base + captured + rest[..n][..taken] + rest[taken..] == base + (captured + rest);
  }

  lemma Regroup(a: seq<byte>, b: seq<byte>, c: seq<byte>)
    ensures a + (b + c) == a + b + c
  {
  }

  lemma NextChunk(rest: seq<byte>, turns: seq<Turn>)
    ensures var chunks, n := Chunks(rest, turns, RELAY_ROOM), ReadSize(rest, turns, RELAY_ROOM);
      var more := if Ends(rest, turns, RELAY_ROOM) then [] else Chunks(rest[n..], Tail(turns), RELAY_ROOM);
      if n > 0 then chunks != [] && chunks[0] == rest[..n] && chunks[1..] == more else chunks == more
  {
  }

  lemma WriteOne(chunks: seq<seq<byte>>, accepts: seq<Accept>)
    requires chunks != []
    ensures NoneFails(chunks, accepts) <==> TakesAll(chunks[0], accepts) && NoneFails(chunks[1..], Tail(accepts))
    ensures WrittenBytes(chunks, accepts)
         == if TakesAll(chunks[0], accepts) then chunks[0] + WrittenBytes(chunks[1..], Tail(accepts)) else []
  {
    if TakesAll(chunks[0], accepts) {
      var m := Written(chunks, accepts);
      assert chunks[..m][1..] == chunks[1..][..m - 1];
    }
  }

  lemma ReadOn(body: seq<byte>, rest: seq<byte>, n: nat)
    requires n <= |rest|
    ensures body + rest[..n] + rest[n..] == body + rest
  {
    assert rest == rest[..n] + rest[n..];
  }

  // io.ReadAll.
  method ReadAll(upstream: Upstream) returns (body: seq<byte>)
    modifies upstream
    ensures body == old(upstream.rest)
  {
    body := [];
    var buf := new byte[READ_ALL_ROOM];
    var done := false;
    while !done
      invariant fresh(buf) && buf.Length == READ_ALL_ROOM
      invariant body + upstream.rest == old(upstream.rest) && (done ==> upstream.rest == [])
      decreases !done, |upstream.turns| + |upstream.rest|
    {
      ghost var rest := upstream.rest;
      var n, end := upstream.Read(buf);
      ReadOn(body, rest, n);
      body := body + buf[..n];
      done := end;
    }
  }

  // The body is read to its end, then written at once.
  method Buffer(upstream: Upstream, client: Client) returns (body: seq<byte>)
    modifies upstream, client
    ensures body == Buffered(old(upstream.rest), old(upstream.turns))
    ensures body == old(upstream.rest)
    ensures body == [] ==> client.received == old(client.received) && client.accepts == old(client.accepts)
    ensures body != [] ==>
      && client.received == old(client.received) + body[..Taken(body, old(client.accepts))]
      && client.accepts == Tail(old(client.accepts))
    ensures TakesAll(body, old(client.accepts)) ==> client.received == old(client.received) + body
  {
    ChunksAreTheBody(upstream.rest, upstream.turns, READ_ALL_ROOM);
    body := ReadAll(upstream);
    if body != [] {
      var n, ok := client.Write(body);
    }
  }
}
