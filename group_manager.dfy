/** Groups of connections (WebSocketGroupManager): two mirrored dictionaries,
    group name to member ids and connection id to group names, kept free of
    empty entries, and a fan-out that sends to a group's Open members and
    drops the others from the group. */
module GroupManager {
  import opened Protocol
  import opened WebSocketConnection
  import opened ConnectionManager

  /** A set-valued dictionary, as the dictionaries of dictionaries are used:
      only the keys of the inner dictionaries matter. */
  type Index = map<string, set<string>>

  /** `v` is filed under `k`. */
  predicate Member(m: Index, k: string, v: string)
  {
    k in m && v in m[k]
  }

  /** The members filed under `k`; none when `k` is not a key. */
  function Under(m: Index, k: string): set<string>
  {
    if k in m then m[k] else {}
  }

  /** The two dictionaries hold the same pairs, each the other way round. */
  ghost predicate Mirrored(groups: Index, connectionGroups: Index)
  {
    forall g, c :: Member(groups, g, c) <==> Member(connectionGroups, c, g)
  }

  /** No key is filed with an empty set, and no key is the empty string. */
  ghost predicate Pruned(m: Index)
  {
    "" !in m && forall k :: k in m ==> m[k] != {}
  }

  /** GetOrAdd followed by TryAdd: files `v` under `k`. */
  function Insert(m: Index, k: string, v: string): (r: Index)
    ensures forall k', v' :: Member(r, k', v') <==> Member(m, k', v') || (k' == k && v' == v)
    ensures r.Keys == m.Keys + {k}
  {
    m[k := Under(m, k) + {v}]
  }

  /** TryRemove of `v` from the entry of `k`, then removal of the entry once
      it is empty. */
  function Delete(m: Index, k: string, v: string): (r: Index)
    ensures forall k', v' :: Member(r, k', v') <==> Member(m, k', v') && (k' != k || v' != v)
    ensures r.Keys <= m.Keys
    ensures Pruned(m) ==> Pruned(r)
  {
    if k !in m then m
    else
      var rest := m[k] - {v};
      if rest == {} then
        assert forall v' :: v' in m[k] ==> v' in rest || v' == v;
        m - {k}
      else m[k := rest]
  }

  /** A pruned dictionary is determined by its pairs: the postconditions
      below, stated on pairs, fix the whole new state. */
  lemma SamePairsSameIndex(a: Index, b: Index)
    requires Pruned(a) && Pruned(b)
    requires forall k, v :: Member(a, k, v) <==> Member(b, k, v)
    ensures a == b
  {
    forall k | k in a
      ensures k in b && a[k] == b[k]
    {
      var v :| v in a[k];
      assert Member(a, k, v);
      forall v' ensures v' in a[k] <==> v' in b[k] {
        assert Member(a, k, v') <==> Member(b, k, v');
      }
    }
    forall k | k in b
      ensures k in a
    {
      var v :| v in b[k];
      assert Member(b, k, v);
    }
  }

  /** Filing a new pair and then removing it restores a pruned dictionary
      exactly. */
  lemma InsertThenDelete(m: Index, k: string, v: string)
    requires Pruned(m) && k != "" && !Member(m, k, v)
    ensures Delete(Insert(m, k, v), k, v) == m
  {
    var r := Delete(Insert(m, k, v), k, v);
    assert Pruned(Insert(m, k, v));
    SamePairsSameIndex(r, m);
  }

  /** Filing a pair twice files it once. */
  lemma InsertIdempotent(m: Index, k: string, v: string)
    ensures Insert(Insert(m, k, v), k, v) == Insert(m, k, v)
  {
    assert Under(Insert(m, k, v), k) + {v} == Under(m, k) + {v};
  }

  /** The then- and else-branches of the first loop of SendToGroupAsync over
      the member ids of one group, as a count of the members registered and
      Open and a list of every other member. */
  method ClassifyMembers(members: set<string>, m: map<string, Connection>)
      returns (count: nat, dead: seq<string>, open: set<string>)
    ensures forall id :: id in open <==> id in members && id in m && m[id].state == Open
    ensures count == |open|
    ensures forall id :: id in dead <==> id in members && id !in open
  {
    var pending := members;
    count, dead, open := 0, [], {};
    while pending != {}
      invariant pending <= members
      invariant forall id :: id in open <==> id in members && id !in pending && id in m && m[id].state == Open
      invariant count == |open|
      invariant forall id :: id in dead <==> id in members && id !in pending && id !in open
      decreases pending
    {
      var id :| id in pending;
      if id in m && m[id].state == Open {
        open, count := open + {id}, count + 1;
      } else {
        dead := dead + [id];
      }
      pending := pending - {id};
    }
  }

  /** The connections filed under `ids`; in a dictionary keyed by id, the
      entry under an id is among them exactly when the id is listed. */
  function ConnectionsOf(m: map<string, Connection>, ids: set<string>): (r: set<Connection>)
    requires KeyedById(m) && ids <= m.Keys
    ensures forall id :: id in m ==> (m[id] in r <==> id in ids)
    ensures forall c :: c in r ==> c.id in ids && m[c.id] == c
  {
    set id | id in ids :: m[id]
  }

  /** The sends of SendToGroupAsync, one to each connection filed under an
      id of `open`, and the outcome Task.WhenAll then raises. */
  method FanOut(m: map<string, Connection>, open: set<string>, p: Payload, now: int) returns (w: Outcome<Error>)
    requires KeyedById(m) && open <= m.Keys
    requires forall id :: id in open ==> m[id].state == Open
    modifies m.Values`lastActivity, m.Values`sent
    ensures forall id :: id in m ==>
      if id in open then m[id].Sent(p, now)
      else m[id].sent == old(m[id].sent) && m[id].lastActivity == old(m[id].lastActivity)
    ensures w.Pass? <==> forall id :: id in open ==> old(m[id].SendError(m[id].cancelled)).None?
    ensures w.Fail? ==> exists id :: id in open && old(m[id].SendError(m[id].cancelled)) == Some(w.error)
    ensures w == Fail(TransportError) <==>
      exists id :: id in open && old(m[id].SendError(m[id].cancelled)) == Some(TransportError)
  {
    var cs := ConnectionsOf(m, open);
    w := SendAll(cs, p, now);
  }

  class GroupManager {
    /** The connection manager the fan-out looks members up in. */
    const registry: ConnectionRegistry
    /** `_groups`: group name to the ids of its members. */
    var groups: Index
    /** `_connectionGroups`: connection id to the names of its groups. */
    var connectionGroups: Index

    ghost predicate Valid()
      reads this
    {
      Mirrored(groups, connectionGroups) && Pruned(groups) && Pruned(connectionGroups)
    }

    constructor (registry: ConnectionRegistry)
      ensures Valid() && this.registry == registry
      ensures groups == map[] && connectionGroups == map[]
    {
      this.registry := registry;
      groups, connectionGroups := map[], map[];
    }

    /** AddToGroupAsync: files the pair both ways; an empty id or name changes
        nothing. */
    method AddToGroup(connectionId: string, groupName: string)
      requires Valid()
      modifies this`groups, this`connectionGroups
      ensures Valid()
      ensures connectionId == "" || groupName == "" ==>
        groups == old(groups) && connectionGroups == old(connectionGroups)
      ensures connectionId != "" && groupName != "" ==>
        && groups == Insert(old(groups), groupName, connectionId)
        && connectionGroups == Insert(old(connectionGroups), connectionId, groupName)
    {
      if connectionId == "" || groupName == "" {
        return;
      }
      groups := Insert(groups, groupName, connectionId);
      connectionGroups := Insert(connectionGroups, connectionId, groupName);
    }

    /** RemoveFromGroupAsync: drops the one pair both ways, and any entry it
        empties; an empty id or name changes nothing. */
    method RemoveFromGroup(connectionId: string, groupName: string)
      requires Valid()
      modifies this`groups, this`connectionGroups
      ensures Valid()
      ensures connectionId == "" || groupName == "" ==>
        groups == old(groups) && connectionGroups == old(connectionGroups)
      ensures connectionId != "" && groupName != "" ==>
        && groups == Delete(old(groups), groupName, connectionId)
        && connectionGroups == Delete(old(connectionGroups), connectionId, groupName)
    {
      if connectionId == "" || groupName == "" {
        return;
      }
      groups := Delete(groups, groupName, connectionId);
      connectionGroups := Delete(connectionGroups, connectionId, groupName);
    }

    /** RemoveFromAllGroupsAsync: removes the connection's own entry, then the
        connection from each group that entry names. */
    method RemoveFromAllGroups(connectionId: string)
      requires Valid()
      modifies this`groups, this`connectionGroups
      ensures Valid()
      ensures forall g, c :: Member(groups, g, c) <==> Member(old(groups), g, c) && c != connectionId
      ensures connectionGroups == old(connectionGroups) - {connectionId}
    {
      if connectionId == "" || connectionId !in connectionGroups {
        return;
      }
      var names := connectionGroups[connectionId];
      connectionGroups := connectionGroups - {connectionId};
      var pending := names;
      while pending != {}
        invariant pending <= names
        invariant connectionGroups == old(connectionGroups) - {connectionId}
        invariant Pruned(groups)
        invariant forall g, c :: Member(groups, g, c) <==>
          Member(old(groups), g, c) && (c != connectionId || g in pending)
        decreases pending
      {
        var g :| g in pending;
        groups := Delete(groups, g, connectionId);
        pending := pending - {g};
      }
      assert forall c, g :: Member(connectionGroups, c, g) <==>
        Member(old(connectionGroups), c, g) && c != connectionId;
    }

    /** The ids filed under `groupName`. */
    function Members(groupName: string): (r: set<string>)
      reads this
      ensures forall c :: c in r <==> Member(groups, groupName, c)
      ensures Valid() ==> forall c :: c in r <==> groupName in Under(connectionGroups, c)
    {
      Under(groups, groupName)
    }

    /** The second loop of SendToGroupAsync: removes every listed member from
        the group. */
    method RemoveAllFromGroup(dead: seq<string>, groupName: string)
      requires Valid()
      modifies this`groups, this`connectionGroups
      ensures Valid()
      ensures forall g, c :: Member(groups, g, c) <==>
        Member(old(groups), g, c) && (g != groupName || c !in dead)
    {
      var i := 0;
      while i < |dead|
        invariant 0 <= i <= |dead|
        invariant Valid()
        invariant forall g, c :: Member(groups, g, c) <==>
          Member(old(groups), g, c) && (g != groupName || c !in dead[..i])
      {
        RemoveFromGroup(dead[i], groupName);
        assert dead[..i + 1] == dead[..i] + [dead[i]];
        i := i + 1;
      }
      assert dead[..i] == dead;
    }

    /** The sends of SendToGroupAsync to the ids `members`: one to every
        member registered and Open, whose ids are `open`; `dead` lists every
        other member. */
    method Deliver(members: set<string>, p: Payload, now: int)
        returns (count: nat, dead: seq<string>, open: set<string>, w: Outcome<Error>)
      requires registry.Valid()
      modifies registry.connections.Values`lastActivity, registry.connections.Values`sent
      ensures forall id :: id in open <==>
        id in members && id in registry.connections && registry.connections[id].state == Open
      ensures count == |open|
      ensures forall id :: id in dead <==> id in members && id !in open
      ensures forall id :: id in registry.connections ==>
        var c := registry.connections[id];
        if id in open then c.Sent(p, now)
        else c.sent == old(c.sent) && c.lastActivity == old(c.lastActivity)
      ensures w.Pass? <==> forall id :: id in open ==>
        old(registry.connections[id].SendError(registry.connections[id].cancelled)).None?
      ensures w.Fail? ==>
        exists id :: id in open &&
          old(registry.connections[id].SendError(registry.connections[id].cancelled)) == Some(w.error)
      ensures w == Fail(TransportError) <==>
        exists id :: id in open &&
          old(registry.connections[id].SendError(registry.connections[id].cancelled)) == Some(TransportError)
    {
      var m := registry.connections;
      count, dead, open := ClassifyMembers(members, m);
      w := FanOut(m, open, p, now);
    }

    /** SendToGroupAsync, for text and binary payloads alike: nothing for an
        empty or unknown name; otherwise a send to every member registered
        and Open, the removal of every other member from the group, and then
        the number of sends, unless a dispatched send failed, whose error is
        raised instead. */
    method SendToGroup(groupName: string, p: Payload, now: int) returns (r: Result<nat, Error>, ghost reached: set<string>)
      requires Valid() && registry.Valid()
      modifies this`groups, this`connectionGroups, registry.connections.Values`lastActivity,
               registry.connections.Values`sent
      ensures forall id :: id in reached <==>
        Member(old(groups), groupName, id) && id in registry.connections && registry.connections[id].state == Open
      ensures Valid()
      ensures groupName == "" || groupName !in old(groups) ==>
        r == Ok(0) && groups == old(groups) && connectionGroups == old(connectionGroups)
      ensures forall g, c :: Member(groups, g, c) <==> Member(old(groups), g, c) && (g != groupName || c in reached)
      ensures forall id :: id in registry.connections ==>
        var c := registry.connections[id];
        if id in reached then c.Sent(p, now)
        else c.sent == old(c.sent) && c.lastActivity == old(c.lastActivity)
      ensures r.Ok? <==> forall id :: id in reached ==>
        old(registry.connections[id].SendError(registry.connections[id].cancelled)).None?
      ensures r.Ok? ==> r.value == |reached|
      ensures r.Err? ==>
        exists id :: id in reached &&
          old(registry.connections[id].SendError(registry.connections[id].cancelled)) == Some(r.error)
      ensures r == Err(TransportError) <==>
        exists id :: id in reached &&
          old(registry.connections[id].SendError(registry.connections[id].cancelled)) == Some(TransportError)
    {
      if groupName == "" || groupName !in groups {
        return Ok(0), {};
      }
      var count, dead, open, w := Deliver(groups[groupName], p, now);
      reached := open;
      RemoveAllFromGroup(dead, groupName);
      r := if w.Pass? then Ok(count) else Err(w.error);
    }

    /** GetConnectionsInGroup: the registered connections of the group's
        members, each once; nothing for an empty or unknown name. */
    method ConnectionsInGroup(groupName: string) returns (r: seq<Connection>)
      requires Valid() && registry.Valid()
      ensures forall i :: 0 <= i < |r| ==>
        Member(groups, groupName, r[i].id) && registry.Lookup(r[i].id) == Some(r[i])
      ensures forall id :: Member(groups, groupName, id) && id in registry.connections ==>
        registry.connections[id] in r
      ensures forall i, j :: 0 <= i < j < |r| ==> r[i] != r[j]
    {
      r := [];
      if groupName == "" || groupName !in groups {
        return;
      }
      var pending := groups[groupName];
      while pending != {}
        invariant pending <= groups[groupName]
        invariant forall i :: 0 <= i < |r| ==>
          r[i].id in groups[groupName] - pending && registry.Lookup(r[i].id) == Some(r[i])
        invariant forall id :: id in groups[groupName] - pending && id in registry.connections ==>
          registry.connections[id] in r
        invariant forall i, j :: 0 <= i < j < |r| ==> r[i] != r[j]
        decreases pending
      {
        var id :| id in pending;
        var found := registry.Lookup(id);
        if found.Some? {
          r := r + [found.value];
        }
        pending := pending - {id};
      }
    }

    /** GetGroupsForConnection: the groups the connection belongs to. */
    function GroupsFor(connectionId: string): (r: set<string>)
      reads this
      ensures connectionId == "" || connectionId !in connectionGroups ==> r == {}
      ensures Valid() ==> forall g :: g in r <==> Member(groups, g, connectionId)
    {
      if connectionId == "" then {} else Under(connectionGroups, connectionId)
    }

    /** GetAllGroups: the names of the groups that have members. */
    function AllGroups(): (r: set<string>)
      reads this
      ensures Valid() ==> forall g :: g in r <==> Members(g) != {}
    {
      groups.Keys
    }

    /** GetConnectionCountInGroup: zero for an empty or unknown name. */
    function ConnectionCountInGroup(groupName: string): (n: nat)
      reads this
      ensures Valid() ==> n == |Members(groupName)|
      ensures groupName == "" || groupName !in groups ==> n == 0
      ensures Valid() ==> (n == 0 <==> groupName !in AllGroups())
    {
      if groupName == "" || groupName !in groups then 0 else |groups[groupName]|
    }
  }
}
