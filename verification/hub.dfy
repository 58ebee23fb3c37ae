/** The client registry of WebSocketHub (internal/server/websocket.go): for each
    stream id, the set of connections subscribed to it, and the three transitions
    the hub's Run loop makes on it. */
module Hub {
  /** A WebSocket connection, known only by its identity. */
  datatype Conn = Conn(id: nat)

  type Clients = map<string, set<Conn>>

  /** No stream keeps an empty set: the last unregistration deletes it. */
  predicate Valid(h: Clients) {
    forall s :: s in h ==> h[s] != {}
  }

  /** The connections subscribed to a stream; none when it has no entry. */
  function Subscribers(h: Clients, streamID: string): set<Conn> {
    if streamID in h then h[streamID] else {}
  }

  /** register: create the stream's set if needed and add the connection. */
  function Register(h: Clients, streamID: string, c: Conn): (r: Clients)
    ensures Valid(h) ==> Valid(r)
    ensures Subscribers(r, streamID) == Subscribers(h, streamID) + {c}
    ensures forall s :: s != streamID ==> Subscribers(r, s) == Subscribers(h, s)
    ensures r.Keys == h.Keys + {streamID}
  {
    h[streamID := Subscribers(h, streamID) + {c}]
  }

  /** unregister: a registered connection is removed and its stream's set deleted
      once empty; an unknown stream or connection changes nothing. */
  function Unregister(h: Clients, streamID: string, c: Conn): (r: Clients)
    ensures Valid(h) ==> Valid(r)
    ensures Subscribers(r, streamID) == Subscribers(h, streamID) - {c}
    ensures forall s :: s != streamID ==> Subscribers(r, s) == Subscribers(h, s)
    ensures c !in Subscribers(h, streamID) ==> r == h
  {
    if streamID in h && c in h[streamID] then
      var rest := h[streamID] - {c};
      if rest == {} then h - {streamID} else h[streamID := rest]
    else h
  }

  /** Two registries agree when every stream has the same subscribers; on valid
      registries that makes them equal. */
  lemma SameSubscribers(h1: Clients, h2: Clients)
    requires Valid(h1) && Valid(h2)
    requires forall s :: Subscribers(h1, s) == Subscribers(h2, s)
    ensures h1 == h2
  {
    forall s
      ensures (s in h1 <==> s in h2) && (s in h1 ==> h1[s] == h2[s])
    {
      assert Subscribers(h1, s) == Subscribers(h2, s);
    }
  }

  /** Registering a connection twice is the same as registering it once. */
  lemma RegisterIdempotent(h: Clients, streamID: string, c: Conn)
    ensures Register(Register(h, streamID, c), streamID, c) == Register(h, streamID, c)
  {
    var once := Register(h, streamID, c);
    assert Subscribers(once, streamID) + {c} == Subscribers(once, streamID);
  }

  /** Unregistering a connection that was just registered, and was not before,
      restores the registry. */
  lemma UnregisterUndoesRegister(h: Clients, streamID: string, c: Conn)
    requires Valid(h) && c !in Subscribers(h, streamID)
    ensures Unregister(Register(h, streamID, c), streamID, c) == h
  {
    var r := Unregister(Register(h, streamID, c), streamID, c);
    forall s
      ensures Subscribers(r, s) == Subscribers(h, s)
    {
      if s == streamID {
        assert Subscribers(h, streamID) + {c} - {c} == Subscribers(h, streamID);
      }
    }
    SameSubscribers(r, h);
  }

  /** A connection is subscribed after registering, and not after unregistering. */
  lemma RegisterThenUnregister(h: Clients, streamID: string, c: Conn)
    ensures c in Subscribers(Register(h, streamID, c), streamID)
    ensures c !in Subscribers(Unregister(h, streamID, c), streamID)
  {
  }

  /** Unregistering a list of connections from one stream, one after another. */
  function UnregisterAll(h: Clients, streamID: string, cs: seq<Conn>): (r: Clients)
    ensures Valid(h) ==> Valid(r)
    decreases |cs|
  {
    if |cs| == 0 then h else UnregisterAll(Unregister(h, streamID, cs[0]), streamID, cs[1..])
  }

  /** The registry after every connection in `failed` is dropped from a stream. */
  function Drop(h: Clients, streamID: string, failed: set<Conn>): (r: Clients)
    ensures Valid(h) ==> Valid(r)
  {
    if streamID in h then
      var rest := h[streamID] - failed;
      if rest == {} then h - {streamID} else h[streamID := rest]
    else h
  }

  /** Dropping connections one by one removes exactly the listed ones. */
  lemma {:induction false} UnregisterAllDrops(h: Clients, streamID: string, cs: seq<Conn>)
    requires Valid(h)
    ensures UnregisterAll(h, streamID, cs) == Drop(h, streamID, set c | c in cs)
    decreases |cs|
  {
    if |cs| == 0 {
      assert (set c | c in cs) == {};
      SameSubscribers(h, Drop(h, streamID, {}));
    } else {
      var h1 := Unregister(h, streamID, cs[0]);
      UnregisterAllDrops(h1, streamID, cs[1..]);
      var all := set c | c in cs;
      var rest := set c | c in cs[1..];
      assert all == {cs[0]} + rest by {
        forall c | c in all ensures c in {cs[0]} + rest {
          if c != cs[0] {
            var k :| 0 <= k < |cs| && cs[k] == c;
            assert cs[1..][k - 1] == c;
          }
        }
      }
      var lhs := Drop(h1, streamID, rest);
      var rhs := Drop(h, streamID, all);
      forall s
        ensures Subscribers(lhs, s) == Subscribers(rhs, s)
      {
      }
      SameSubscribers(lhs, rhs);
    }
  }

  /** The outcome of delivering one record to a stream's subscribers. */
  datatype Delivery = Delivery(written: set<Conn>, clients: Clients)

  /** broadcast: the record is written to each connection subscribed to the
      stream; each connection whose write fails is unregistered. `failed` says
      which writes fail. */
  function Broadcast(h: Clients, streamID: string, failed: set<Conn>): (d: Delivery)
    requires Valid(h)
    ensures Valid(d.clients)
    ensures d.written == Subscribers(h, streamID) - failed
    ensures Subscribers(d.clients, streamID) == Subscribers(h, streamID) - failed
    ensures forall s :: s != streamID ==> Subscribers(d.clients, s) == Subscribers(h, s)
  {
    Delivery(Subscribers(h, streamID) - failed, Drop(h, streamID, failed))
  }

  /** When every write succeeds the registry is unchanged. */
  lemma BroadcastWithoutFailures(h: Clients, streamID: string)
    requires Valid(h)
    ensures Broadcast(h, streamID, {}).clients == h
    ensures Broadcast(h, streamID, {}).written == Subscribers(h, streamID)
  {
    SameSubscribers(Broadcast(h, streamID, {}).clients, h);
  }

  /** A broadcast whose failing writes are listed in `cs` leaves the registry as
      unregistering those connections one by one would. */
  lemma BroadcastIsUnregisters(h: Clients, streamID: string, cs: seq<Conn>)
    requires Valid(h)
    ensures Broadcast(h, streamID, set c | c in cs).clients == UnregisterAll(h, streamID, cs)
  {
    UnregisterAllDrops(h, streamID, cs);
  }
}
