/** The registry of live connections: a dictionary from connection id to
    connection, with broadcast and point-to-point sends that prune
    connections found dead. */
module ConnectionManager {
  import opened Protocol
  import opened WebSocketConnection

  /** Every entry is filed under its connection's own id. */
  ghost predicate KeyedById(m: map<string, Connection>)
  {
    forall id :: id in m ==> m[id].id == id
  }

  /** Entries filed under their connection's id hold pairwise distinct connections,
      so the registry counts connections, not just keys. */
  lemma {:induction false} KeyedByIdCount(m: map<string, Connection>)
    ensures KeyedById(m) ==> |m.Values| == |m.Keys|
    decreases |m.Keys|
  {
    if m != map[] && KeyedById(m) {
      var k :| k in m;
      var m' := m - {k};
      KeyedByIdCount(m');
      assert m.Keys == m'.Keys + {k};
      assert m[k] !in m'.Values;
      assert m.Values == m'.Values + {m[k]};
    }
  }

  /** The then-branch of the first loop of BroadcastAsync: one send to every
      Open connection of `cs`, each send's task recorded beside its target. */
  method SendToOpen(cs: set<Connection>, p: Payload, now: int)
      returns (tasks: seq<Outcome<Error>>, ghost targets: seq<Connection>)
    modifies cs`lastActivity, cs`sent
    ensures forall c :: c in cs ==>
      && c.lastActivity == (if c.state == Open then now else old(c.lastActivity))
      && c.sent == if c.state == Open && !c.cancelled && !c.faulty
                   then old(c.sent) + [Message(p)] else old(c.sent)
    ensures |tasks| == |targets|
    ensures forall i :: 0 <= i < |tasks| ==> tasks[i] == AsOutcome(targets[i].SendError(targets[i].cancelled))
    ensures forall c :: c in targets <==> c in cs && c.state == Open
  {
    var pending := cs;
    tasks, targets := [], [];
    while pending != {}
      invariant pending <= cs
      invariant forall c :: c in pending ==> c.sent == old(c.sent) && c.lastActivity == old(c.lastActivity)
      invariant forall c :: c in cs && c !in pending ==>
        && c.lastActivity == (if c.state == Open then now else old(c.lastActivity))
        && c.sent == if c.state == Open && !c.cancelled && !c.faulty
                     then old(c.sent) + [Message(p)] else old(c.sent)
      invariant |tasks| == |targets|
      invariant forall i :: 0 <= i < |tasks| ==> tasks[i] == AsOutcome(targets[i].SendError(targets[i].cancelled))
      invariant forall c :: c in targets <==> c in cs && c !in pending && c.state == Open
      decreases pending
    {
      var c :| c in pending;
      if c.state == Open {
        var s := c.Send(p, now);
        tasks, targets := tasks + [s], targets + [c];
      }
      pending := pending - {c};
    }
  }

  /** The broadcast's outcome, awaited over the tasks SendToOpen records,
      fails exactly when some Open connection cannot transmit, and then with
      that connection's error. */
  lemma BroadcastOutcome(cs: set<Connection>, tasks: seq<Outcome<Error>>, targets: seq<Connection>)
    requires |tasks| == |targets|
    requires forall i :: 0 <= i < |tasks| ==> tasks[i] == AsOutcome(targets[i].SendError(targets[i].cancelled))
    requires forall c :: c in targets <==> c in cs && c.state == Open
    ensures WhenAll(tasks).Pass? <==> forall c :: c in cs && c.state == Open ==> c.SendError(c.cancelled).None?
    ensures WhenAll(tasks).Fail? ==>
      exists c :: c in cs && c.state == Open && c.SendError(c.cancelled) == Some(WhenAll(tasks).error)
    ensures WhenAll(tasks) == Fail(TransportError) <==>
      exists c :: c in cs && c.state == Open && c.SendError(c.cancelled) == Some(TransportError)
  {
    if WhenAll(tasks).Fail? {
      var i :| 0 <= i < |tasks| && tasks[i] == WhenAll(tasks);
      assert targets[i] in cs;
      if c :| c in cs && c.state == Open && c.SendError(c.cancelled) == Some(TransportError) {
        var j :| 0 <= j < |targets| && targets[j] == c;
        assert tasks[j] == Fail(TransportError);
      }
    } else {
      forall c | c in cs && c.state == Open
        ensures c.SendError(c.cancelled).None?
      {
        var i :| 0 <= i < |targets| && targets[i] == c;
        assert tasks[i].Pass?;
      }
    }
  }

  /** The sends of BroadcastAsync and what awaiting them gives: every Open
      connection of `cs` is sent to, and the outcome fails exactly when one of
      those sends failed, with a transport error whenever one had one. */
  method SendAll(cs: set<Connection>, p: Payload, now: int) returns (w: Outcome<Error>)
    modifies cs`lastActivity, cs`sent
    ensures forall c :: c in cs && c.state == Open ==> c.Sent(p, now)
    ensures forall c :: c in cs && c.state != Open ==>
      c.sent == old(c.sent) && c.lastActivity == old(c.lastActivity)
    ensures w.Pass? <==> forall c :: c in cs && c.state == Open ==> c.SendError(c.cancelled).None?
    ensures w.Fail? ==> exists c :: c in cs && c.state == Open && c.SendError(c.cancelled) == Some(w.error)
    ensures w == Fail(TransportError) <==>
      exists c :: c in cs && c.state == Open && c.SendError(c.cancelled) == Some(TransportError)
  {
    var tasks, targets := SendToOpen(cs, p, now);
    BroadcastOutcome(cs, tasks, targets);
    w := WhenAll(tasks);
  }

  class ConnectionRegistry {
    var connections: map<string, Connection>

    ghost predicate Valid()
      reads this
    {
      KeyedById(connections)
    }

    constructor ()
      ensures Valid() && connections == map[]
    {
      connections := map[];
    }

    /** ActiveConnectionCount: the number of registered connections. */
    function ActiveConnectionCount(): (n: nat)
      reads this
      ensures Valid() ==> n == |AllConnections()|
      ensures n == 0 <==> connections == map[]
    {
      |connections|
    }

    /** TryGetConnection. */
    function Lookup(id: string): (r: Option<Connection>)
      reads this
      ensures r.Some? <==> id in connections
      ensures Valid() && r.Some? ==> r.value.id == id && r.value in AllConnections()
    {
      if id in connections then Some(connections[id]) else None
    }

    /** GetAllConnections: every registered connection, each once. */
    function AllConnections(): (r: set<Connection>)
      reads this
      ensures forall id :: id in connections ==> connections[id] in r
      ensures Valid() ==> |r| == |connections|
    {
      KeyedByIdCount(connections);
      connections.Values
    }

    /** Every connection GetAllConnections yields is found again under its id. */
    lemma FiledUnderOwnId(c: Connection)
      requires Valid() && c in AllConnections()
      ensures Lookup(c.id) == Some(c)
    {
      var id :| id in connections && connections[id] == c;
    }

    /** AddConnectionAsync: wraps the socket in a new connection carrying the
        Guid `id` and files it under that id; the id is returned even when the
        dictionary already holds it, in which case nothing is added. */
    method AddConnection(channel: Channel, id: string, now: int) returns (r: string)
      requires Valid()
      modifies this
      ensures Valid() && r == id
      ensures id in old(connections) ==> connections == old(connections)
      ensures id !in old(connections) ==>
        && connections.Keys == old(connections.Keys) + {id}
        && (forall k :: k in old(connections) ==> connections[k] == old(connections[k]))
        && fresh(connections[id])
        && connections[id].state == channel.state && connections[id].inbound == channel.inbound
        && connections[id].lastActivity == now && connections[id].remoteAddress == UnknownAddress
        && connections[id].sent == [] && connections[id].received == []
        && connections[id].faulty == channel.faulty && !connections[id].cancelled
        && connections[id].disconnectedEvents == 0 && connections[id].items == map[]
        && connections[id].connectedAt == now
    {
      var c := new Connection(channel, id, now, None);
      if id !in connections {
        connections := connections[id := c];
      }
      r := c.id;
    }

    /** RemoveConnectionAsync: true exactly when the id was registered. */
    method RemoveConnection(id: string) returns (removed: bool)
      requires Valid()
      modifies this
      ensures Valid()
      ensures removed <==> id in old(connections)
      ensures connections == old(connections) - {id}
    {
      removed := id in connections;
      connections := connections - {id};
    }

    /** The else-branch of the first loop of BroadcastAsync: the ids of the
        connections that are not Open. */
    method ClosedIds() returns (dead: seq<string>)
      requires Valid()
      ensures forall id :: id in dead <==> id in connections && connections[id].state != Open
    {
      var todo := connections.Keys;
      dead := [];
      while todo != {}
        invariant todo <= connections.Keys
        invariant forall id :: id in dead <==> id in connections && id !in todo && connections[id].state != Open
        decreases todo
      {
        var id :| id in todo;
        if connections[id].state != Open {
          dead := dead + [id];
        }
        todo := todo - {id};
      }
    }

    /** The second loop of BroadcastAsync: removes every listed id. */
    method RemoveAll(dead: seq<string>)
      requires Valid()
      modifies this
      ensures Valid()
      ensures forall id :: id in connections <==> id in old(connections) && id !in dead
      ensures forall id :: id in connections ==> connections[id] == old(connections[id])
    {
      var i := 0;
      while i < |dead|
        invariant 0 <= i <= |dead|
        invariant Valid()
        invariant forall id :: id in connections <==> id in old(connections) && id !in dead[..i]
        invariant forall id :: id in connections ==> connections[id] == old(connections[id])
      {
        var _ := RemoveConnection(dead[i]);
        assert dead[..i + 1] == dead[..i] + [dead[i]];
        i := i + 1;
      }
      assert dead[..i] == dead;
    }

    /** BroadcastAsync, for text and binary payloads alike: sends to every Open
        connection, removes every other one, and then fails exactly when one of
        the dispatched sends failed, with a transport error whenever one of
        them had one.  A connection whose send failed stays
        registered.  The loop over the dictionary is taken as two passes, one
        per branch; sends change no socket state, so the outcome is the same. */
    method Broadcast(p: Payload, now: int) returns (r: Outcome<Error>)
      requires Valid()
      modifies this, connections.Values`lastActivity, connections.Values`sent
      ensures Valid()
      ensures forall id :: id in connections <==> id in old(connections) && old(connections[id].state) == Open
      ensures forall id :: id in connections ==> connections[id] == old(connections[id])
      ensures forall c :: c in old(connections.Values) && c.state == Open ==> c.Sent(p, now)
      ensures forall c :: c in old(connections.Values) && c.state != Open ==>
        c.sent == old(c.sent) && c.lastActivity == old(c.lastActivity)
      ensures r.Pass? <==>
        forall c :: c in old(connections.Values) && c.state == Open ==> c.SendError(c.cancelled).None?
      ensures r.Fail? ==>
        exists c :: c in old(connections.Values) && c.state == Open && c.SendError(c.cancelled) == Some(r.error)
      ensures r == Fail(TransportError) <==>
        exists c :: c in old(connections.Values) && c.state == Open && c.SendError(c.cancelled) == Some(TransportError)
    {
      var dead := ClosedIds();
      r := SendAll(connections.Values, p, now);
      RemoveAll(dead);
    }

    /** SendToAsync, for text and binary payloads alike: false for an unknown
        id; otherwise sends, and on failure removes the connection and answers
        false. */
    method SendTo(id: string, p: Payload, now: int) returns (ok: bool)
      requires Valid()
      modifies this, connections.Values`lastActivity, connections.Values`sent
      ensures Valid()
      ensures id !in old(connections) ==> !ok && connections == old(connections)
      ensures forall c :: c in old(connections.Values) && old(Lookup(id)) != Some(c) ==>
        c.sent == old(c.sent) && c.lastActivity == old(c.lastActivity)
      ensures id in old(connections) ==>
        && old(connections[id]).Sent(p, now)
        && (ok <==> old(connections[id].SendError(connections[id].cancelled)).None?)
        && connections == if ok then old(connections) else old(connections) - {id}
    {
      ok := false;
      if id in connections {
        var c := connections[id];
        var s := c.Send(p, now);
        if s.Pass? {
          ok := true;
        } else {
          var _ := RemoveConnection(id);
        }
      }
    }
  }
}
