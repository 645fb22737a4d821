/** The heartbeat service (WebSocketHeartbeatService): at every interval one
    cycle over a snapshot of the registry pings the live connections and
    closes and removes the ones silent for longer than the timeout. */
module HeartbeatService {
  import opened Protocol
  import opened WebSocketConnection
  import opened ConnectionManager

  /** WebSocketHeartbeatOptions; times in milliseconds. */
  datatype HeartbeatOptions = HeartbeatOptions(
    heartbeatInterval: int,
    connectionTimeout: int,
    enableHeartbeat: bool,
    enableTimeoutDisconnect: bool)

  /** The option defaults: a 60 s interval, a 120 s timeout, both checks on. */
  const DefaultOptions: HeartbeatOptions := HeartbeatOptions(60_000, 120_000, true, true)

  /** Close description of an evicted connection ("connection timed out"). */
  const TimeoutReason: string := "连接超时"

  /** What one cycle does with one connection. */
  datatype Verdict = Evict | Ping | Skip

  /** The rule applied to each connection of the snapshot, with `now` read
      once per cycle: a connection idle since before `now - timeout` is
      evicted and not pinged; any other one is pinged when heartbeats are on
      and it is Open. */
  function Decide(o: HeartbeatOptions, lastActivity: int, now: int, isActive: bool): Verdict
  {
    if o.enableTimeoutDisconnect && lastActivity < now - o.connectionTimeout then Evict
    else if o.enableHeartbeat && isActive then Ping
    else Skip
  }

  /** The ping message, `{"type":"ping","timestamp":<ms>}`, as the serializer
      writes the anonymous object. */
  function PingMessage(timestamp: int): Payload
  {
    TextPayload("{\"type\":\"ping\",\"timestamp\":" + IntToString(timestamp) + "}")
  }

  // ---------------------------------------------------------------------------
  // One connection over successive cycles.

  /** The last activity of a connection after the cycle at `now`, or None
      when that cycle evicts it.  A ping records the cycle's time. */
  function Next(o: HeartbeatOptions, lastActivity: int, isActive: bool, now: int): Option<int>
  {
    match Decide(o, lastActivity, now, isActive)
    case Evict => None
    case Ping => Some(now)
    case Skip => Some(lastActivity)
  }

  /** The last activity of a connection after the cycles at `times`, or None
      once a cycle has evicted it.  The connection's socket state is taken as
      fixed. */
  function Survive(o: HeartbeatOptions, lastActivity: int, isActive: bool, times: seq<int>): Option<int>
    decreases |times|
  {
    if times == [] then Some(lastActivity)
    else match Next(o, lastActivity, isActive, times[0])
      case None => None
      case Some(l) => Survive(o, l, isActive, times[1..])
  }

  /** One more cycle at the end: Survive is the cycles taken one after the
      other, oldest first. */
  lemma {:induction false} SurviveSnoc(o: HeartbeatOptions, lastActivity: int, isActive: bool, times: seq<int>, now: int)
    ensures Survive(o, lastActivity, isActive, times + [now]) ==
      match Survive(o, lastActivity, isActive, times)
      case None => None
      case Some(l) => Next(o, l, isActive, now)
    decreases |times|
  {
    if times == [] {
      assert ([] + [now])[1..] == [];
    } else {
      assert (times + [now])[0] == times[0] && (times + [now])[1..] == times[1..] + [now];
      match Next(o, lastActivity, isActive, times[0])
      case None =>
      case Some(l) => SurviveSnoc(o, l, isActive, times[1..], now);
    }
  }

  /** Cycles no further apart than `bound`, the first within `bound` of the
      last activity. */
  ghost predicate Spaced(bound: int, lastActivity: int, times: seq<int>)
  {
    && (times != [] ==> times[0] - lastActivity <= bound)
    && forall i :: 0 < i < |times| ==> times[i] - times[i - 1] <= bound
  }

  /** With heartbeats on, an Open connection whose cycles come no further apart
      than the timeout is never evicted: every ping refreshes its activity
      before the next cycle looks at it. */
  lemma {:induction false} KeepAlive(o: HeartbeatOptions, lastActivity: int, times: seq<int>)
    requires o.enableHeartbeat
    requires Spaced(o.connectionTimeout, lastActivity, times)
    ensures Survive(o, lastActivity, true, times).Some?
    decreases |times|
  {
    if times != [] {
      assert Decide(o, lastActivity, times[0], true) == Ping;
      assert Spaced(o.connectionTimeout, times[0], times[1..]) by {
        forall i | 0 < i < |times[1..]|
          ensures times[1..][i] - times[1..][i - 1] <= o.connectionTimeout
        {
          assert times[1..][i] == times[i + 1] && times[1..][i - 1] == times[i];
        }
      }
      KeepAlive(o, times[0], times[1..]);
    }
  }

  /** The loop waits one heartbeat interval after each cycle, so successive
      cycles lie one interval plus the previous cycle's running time (`lag`)
      apart.  When the interval and the lag together fit in the timeout, an
      Open connection is never evicted. */
  lemma IntervalKeepsAlive(o: HeartbeatOptions, lastActivity: int, times: seq<int>, lag: int)
    requires o.enableHeartbeat && 0 <= lag && o.heartbeatInterval + lag <= o.connectionTimeout
    requires Spaced(o.heartbeatInterval + lag, lastActivity, times)
    ensures Survive(o, lastActivity, true, times).Some?
  {
    KeepAlive(o, lastActivity, times);
  }

  /** With the defaults (a 60 s interval against a 120 s timeout) a cycle may
      run for up to 60 s before an Open connection is at risk. */
  lemma DefaultsKeepAlive(lastActivity: int, times: seq<int>, lag: int)
    requires 0 <= lag <= 60_000
    requires Spaced(DefaultOptions.heartbeatInterval + lag, lastActivity, times)
    ensures Survive(DefaultOptions, lastActivity, true, times).Some?
  {
    IntervalKeepsAlive(DefaultOptions, lastActivity, times, lag);
  }

  /** A connection never pinged (heartbeats off, or not Open) is evicted by the
      first cycle that finds it idle for longer than the timeout. */
  lemma {:induction false} SilentConnectionEvicted(o: HeartbeatOptions, lastActivity: int, isActive: bool, times: seq<int>, k: nat)
    requires o.enableTimeoutDisconnect && !(o.enableHeartbeat && isActive)
    requires k < |times| && lastActivity < times[k] - o.connectionTimeout
    ensures Survive(o, lastActivity, isActive, times).None?
    decreases k
  {
    if Decide(o, lastActivity, times[0], isActive) != Evict {
      SilentConnectionEvicted(o, lastActivity, isActive, times[1..], k - 1);
    }
  }

  // ---------------------------------------------------------------------------
  // One cycle.

  /** The verdict of the cycle at `now` on `c`, from its state before the cycle. */
  function VerdictOf(o: HeartbeatOptions, c: Connection, now: int): Verdict
    reads c`lastActivity, c`state
  {
    Decide(o, c.lastActivity, now, c.IsActive())
  }

  /** SendPingAsync: the send's failure is caught and dropped. */
  method SendPing(c: Connection, now: int)
    modifies c`lastActivity, c`sent
    ensures c.Sent(PingMessage(now), now)
  {
    var _ := c.Send(PingMessage(now), now);
  }

  /** The foreach over the snapshot in CheckConnectionsAsync: lists the ids
      of the connections due for eviction (`doomed` holds those connections
      beside their ids) and starts a ping task for each connection due a
      ping.  The tasks are the ones Task.WhenAll then awaits. */
  method Survey(cs: set<Connection>, o: HeartbeatOptions, now: int)
      returns (dead: seq<string>, ghost doomed: seq<Connection>, due: set<Connection>)
    ensures |dead| == |doomed| && forall i :: 0 <= i < |dead| ==> dead[i] == doomed[i].id
    ensures forall i, j :: 0 <= i < j < |doomed| ==> doomed[i] != doomed[j]
    ensures forall c :: c in doomed <==> c in cs && VerdictOf(o, c, now) == Evict
    ensures forall c :: c in due <==> c in cs && VerdictOf(o, c, now) == Ping
  {
    var pending := cs;
    dead, doomed, due := [], [], {};
    while pending != {}
      invariant pending <= cs
      invariant |dead| == |doomed| && forall i :: 0 <= i < |dead| ==> dead[i] == doomed[i].id
      invariant forall i, j :: 0 <= i < j < |doomed| ==> doomed[i] != doomed[j]
      invariant forall c :: c in doomed <==> c in cs && c !in pending && VerdictOf(o, c, now) == Evict
      invariant forall c :: c in due <==> c in cs && c !in pending && VerdictOf(o, c, now) == Ping
      decreases pending
    {
      var c :| c in pending;
      var v := VerdictOf(o, c, now);
      if v == Evict {
        dead, doomed := dead + [c.id], doomed + [c];
      } else if v == Ping {
        due := due + {c};
      }
      pending := pending - {c};
    }
  }

  /** The ping tasks run to completion (Task.WhenAll): every connection in
      `due` is pinged once. */
  method PingAll(due: set<Connection>, now: int)
    modifies due`lastActivity, due`sent
    ensures forall c :: c in due ==> c.Sent(PingMessage(now), now)
  {
    var pending := due;
    while pending != {}
      invariant pending <= due
      invariant forall c :: c in pending ==> c.lastActivity == old(c.lastActivity) && c.sent == old(c.sent)
      // Sent, written out field by field so that it carries over the later pings
      invariant forall c :: c in due && c !in pending ==>
        c.lastActivity == now && c.sent == old(c.sent + if c.SendError(c.cancelled).None? then [Message(PingMessage(now))] else [])
      decreases pending
    {
      var c :| c in pending;
      SendPing(c, now);
      pending := pending - {c};
    }
  }

  /** One cycle's work on the snapshot: the survey, then the pings.  The
      pings touch only the pinged connection's activity and sent messages,
      which no verdict on another connection reads. */
  method PingOrMark(cs: set<Connection>, o: HeartbeatOptions, now: int)
      returns (dead: seq<string>, ghost doomed: seq<Connection>)
    modifies cs`lastActivity, cs`sent
    ensures |dead| == |doomed| && forall i :: 0 <= i < |dead| ==> dead[i] == doomed[i].id
    ensures forall i, j :: 0 <= i < j < |doomed| ==> doomed[i] != doomed[j]
    ensures forall c :: c in doomed <==> c in cs && old(VerdictOf(o, c, now)) == Evict
    ensures forall c :: c in doomed ==> unchanged(c)
    ensures forall c :: c in cs ==>
      if old(VerdictOf(o, c, now)) == Ping then c.Sent(PingMessage(now), now)
      else c.lastActivity == old(c.lastActivity) && c.sent == old(c.sent)
  {
    var due;
    dead, doomed, due := Survey(cs, o, now);
    PingAll(due, now);
  }

  /** In a dictionary keyed by id, an id is listed exactly when its entry is
      among the listed connections. */
  lemma DeadIds(m: map<string, Connection>, dead: seq<string>, doomed: seq<Connection>)
    requires KeyedById(m)
    requires |dead| == |doomed| && forall i :: 0 <= i < |dead| ==> dead[i] == doomed[i].id
    requires forall c :: c in doomed ==> c in m.Values
    ensures forall id :: id in m ==> (id in dead <==> m[id] in doomed)
  {
    forall id | id in m
      ensures id in dead <==> m[id] in doomed
    {
      if id in dead {
        var i :| 0 <= i < |dead| && dead[i] == id;
        assert doomed[i] in m.Values;
        var k :| k in m && m[k] == doomed[i];
      }
      if m[id] in doomed {
        var i :| 0 <= i < |doomed| && doomed[i] == m[id];
        assert dead[i] == id;
      }
    }
  }

  /** The effect of the cycle at `now` on one connection of the snapshot. */
  twostate predicate CycleEffect(o: HeartbeatOptions, c: Connection, now: int)
    reads c
  {
    match old(VerdictOf(o, c, now))
    case Evict => c.Closing(NormalClosure, TimeoutReason)
    case Ping =>
      && c.Sent(PingMessage(now), now)
      && c.state == old(c.state) && c.cancelled == old(c.cancelled)
      && c.disconnectedEvents == old(c.disconnectedEvents)
      && c.inbound == old(c.inbound) && c.received == old(c.received)
      && c.items == old(c.items) && c.faulty == old(c.faulty)
    case Skip => unchanged(c)
  }

  /** The events the service loop meets: an interval elapsing at a time, the
      host stopping the service, or a cycle failing with an error other than
      a cancellation. */
  datatype Tick = Elapsed(now: int) | Stop | Fault

  /** The times of the cycles the service loop runs on `ticks`, in order: one
      per elapsed interval, up to the first stop.  A failing cycle does not
      end the loop. */
  function CycleTimes(ticks: seq<Tick>): seq<int>
  {
    if ticks == [] || ticks[0].Stop? then []
    else (if ticks[0].Elapsed? then [ticks[0].now] else []) + CycleTimes(ticks[1..])
  }

  /** Tick `i`, not a stop, adds its own time, if it elapses, to the times of
      the ticks before it. */
  lemma CycleTimesStep(ticks: seq<Tick>, i: nat, done: seq<int>)
    requires i < |ticks| && !ticks[i].Stop?
    requires CycleTimes(ticks) == done + CycleTimes(ticks[i..])
    ensures ticks[i].Elapsed? ==> CycleTimes(ticks) == (done + [ticks[i].now]) + CycleTimes(ticks[i + 1..])
    ensures ticks[i].Fault? ==> CycleTimes(ticks) == done + CycleTimes(ticks[i + 1..])
  {
    assert ticks[i..][0] == ticks[i] && ticks[i..][1..] == ticks[i + 1..];
    if ticks[i].Elapsed? {
      assert done + ([ticks[i].now] + CycleTimes(ticks[i + 1..])) == (done + [ticks[i].now]) + CycleTimes(ticks[i + 1..]);
    } else {
      assert [] + CycleTimes(ticks[i + 1..]) == CycleTimes(ticks[i + 1..]);
    }
  }

  class HeartbeatService {
    const registry: ConnectionRegistry
    const options: HeartbeatOptions

    constructor (registry: ConnectionRegistry, options: HeartbeatOptions)
      ensures this.registry == registry && this.options == options
    {
      this.registry := registry;
      this.options := options;
    }

    /** The closes of the second loop of CheckConnectionsAsync: each marked
        connection still registered is closed; a close that throws is
        swallowed. */
    method CloseMarked(dead: seq<string>, ghost doomed: seq<Connection>)
      requires registry.Valid()
      requires |dead| == |doomed| && forall i :: 0 <= i < |dead| ==> dead[i] == doomed[i].id
      requires forall i, j :: 0 <= i < j < |doomed| ==> doomed[i] != doomed[j]
      requires forall c :: c in doomed ==> c in registry.AllConnections()
      modifies set c | c in doomed
      ensures forall c :: c in doomed ==> c.Closing(NormalClosure, TimeoutReason)
    {
      forall j | 0 <= j < |dead|
        ensures registry.Lookup(dead[j]) == Some(doomed[j])
      {
        registry.FiledUnderOwnId(doomed[j]);
      }
      var i := 0;
      while i < |dead|
        invariant 0 <= i <= |dead|
        invariant forall j :: 0 <= j < i ==> doomed[j].Closing(NormalClosure, TimeoutReason)
        invariant forall j :: i <= j < |doomed| ==> unchanged(doomed[j])
      {
        var found := registry.Lookup(dead[i]);
        if found.Some? {
          var _ := found.value.Close(NormalClosure, TimeoutReason);
        }
        i := i + 1;
      }
    }

    /** The second loop of CheckConnectionsAsync: each marked connection still
        registered is closed, and removed whether or not the close throws.
        Closes change no registry entry and removals change no connection, so
        the loop is taken as two passes: the closes, then the removals. */
    method CloseAndRemove(dead: seq<string>, ghost doomed: seq<Connection>)
      requires registry.Valid()
      requires |dead| == |doomed| && forall i :: 0 <= i < |dead| ==> dead[i] == doomed[i].id
      requires forall i, j :: 0 <= i < j < |doomed| ==> doomed[i] != doomed[j]
      requires forall c :: c in doomed ==> c in registry.AllConnections()
      modifies registry, set c | c in doomed
      ensures registry.Valid()
      ensures forall id :: id in registry.connections <==> id in old(registry.connections) && id !in dead
      ensures forall id :: id in registry.connections ==> registry.connections[id] == old(registry.connections[id])
      ensures forall c :: c in doomed ==> c.Closing(NormalClosure, TimeoutReason)
    {
      CloseMarked(dead, doomed);
      registry.RemoveAll(dead);
    }

    /** CheckConnectionsAsync at `now`: over a snapshot of the registry, pings
        and evicts as Decide says; afterwards the registry holds exactly the
        connections not evicted. */
    method CheckConnections(now: int)
      requires registry.Valid()
      modifies registry, registry.connections.Values
      ensures registry.Valid()
      ensures forall id :: id in registry.connections <==>
        id in old(registry.connections) && old(VerdictOf(options, registry.connections[id], now)) != Evict
      ensures forall id :: id in registry.connections ==> registry.connections[id] == old(registry.connections[id])
      ensures forall c :: c in old(registry.AllConnections()) ==> CycleEffect(options, c, now)
    {
      var snapshot := registry.AllConnections();
      var dead, doomed := PingOrMark(snapshot, options, now);
      DeadIds(registry.connections, dead, doomed);
      label Marked:
      CloseAndRemove(dead, doomed);
      forall c | c in snapshot && old(VerdictOf(options, c, now)) == Evict
        ensures CycleEffect(options, c, now)
      {
        assert c in doomed;
      }
      forall c | c in snapshot && old(VerdictOf(options, c, now)) != Evict
        ensures CycleEffect(options, c, now)
      {
        assert c !in doomed;
      }
    }

    /** Connection `c`, last active at `lastActivity` and with activity
        `isActive` when the service loop started, is where Survive puts it
        after the cycles at `times`: filed under its id, last active at
        Survive's time and with its socket state unchanged while it survives;
        gone from the registry once a cycle has evicted it. */
    ghost predicate Follows(c: Connection, lastActivity: int, isActive: bool, times: seq<int>)
      reads registry, c
    {
      var s := Survive(options, lastActivity, isActive, times);
      && (c.id in registry.connections <==> s.Some?)
      && (s.Some? ==> registry.connections[c.id] == c && c.lastActivity == s.value && c.IsActive() == isActive)
    }

    /** The state of the service loop after the cycles at `times`: every
        connection of the registry it `started` with follows Survive from
        its first activity, and the registry keeps only entries of the
        `initial` one, unchanged. */
    ghost predicate Tracked(started: set<Connection>, lastActivity: map<Connection, int>,
                            isActive: map<Connection, bool>, initial: map<string, Connection>, times: seq<int>)
      reads registry, started
    {
      && registry.Valid()
      && (forall c :: c in started ==>
            c in lastActivity && c in isActive && Follows(c, lastActivity[c], isActive[c], times))
      && (forall id :: id in registry.connections ==> id in initial && registry.connections[id] == initial[id])
    }

    /** The try block of ExecuteAsync's loop when the interval elapses at
        `now`: one cycle, which takes the loop one cycle further. */
    method RunCycle(now: int, ghost started: set<Connection>, ghost lastActivity: map<Connection, int>,
                    ghost isActive: map<Connection, bool>, ghost initial: map<string, Connection>, ghost times: seq<int>)
      requires Tracked(started, lastActivity, isActive, initial, times)
      modifies registry, registry.connections.Values
      ensures Tracked(started, lastActivity, isActive, initial, times + [now])
      ensures forall id :: id in registry.connections <==>
        id in old(registry.connections) && old(VerdictOf(options, registry.connections[id], now)) != Evict
      ensures forall c :: c in old(registry.AllConnections()) ==> CycleEffect(options, c, now)
    {
      CheckConnections(now);
      forall c | c in started
        ensures Follows(c, lastActivity[c], isActive[c], times + [now])
      {
        SurviveSnoc(options, lastActivity[c], isActive[c], times, now);
        var s := Survive(options, lastActivity[c], isActive[c], times);
        if s.Some? {
          assert c in old(registry.AllConnections());
          assert old(VerdictOf(options, c, now)) == Decide(options, s.value, now, isActive[c]);
        }
      }
    }

    /** The rest of ExecuteAsync's loop from tick `start` on, after the cycles
        at `done`: it runs the cycles of the ticks up to the first stop, and
        changes nothing when none of them elapses. */
    method RunLoop(ticks: seq<Tick>, start: nat, ghost started: set<Connection>, ghost lastActivity: map<Connection, int>,
                   ghost isActive: map<Connection, bool>, ghost initial: map<string, Connection>, ghost done: seq<int>,
                   cyclesSoFar: nat)
      returns (cycles: nat)
      requires start <= |ticks|
      requires Tracked(started, lastActivity, isActive, initial, done)
      requires CycleTimes(ticks) == done + CycleTimes(ticks[start..]) && cyclesSoFar == |done|
      modifies registry, initial.Values
      ensures Tracked(started, lastActivity, isActive, initial, CycleTimes(ticks))
      ensures cycles == |CycleTimes(ticks)|
      ensures cycles == cyclesSoFar ==> unchanged(registry) && unchanged(initial.Values)
    {
      cycles := cyclesSoFar;
      ghost var times := done;
      var i := start;
      while i < |ticks| && !ticks[i].Stop?
        invariant start <= i <= |ticks|
        invariant Tracked(started, lastActivity, isActive, initial, times)
        invariant CycleTimes(ticks) == times + CycleTimes(ticks[i..]) && cycles == |times| && cycles >= cyclesSoFar
        invariant cycles == cyclesSoFar ==> unchanged(registry) && unchanged(initial.Values)
      {
        CycleTimesStep(ticks, i, times);
        if ticks[i].Elapsed? {
          assert registry.connections.Values <= initial.Values;
          RunCycle(ticks[i].now, started, lastActivity, isActive, initial, times);
          times, cycles := times + [ticks[i].now], cycles + 1;
        }
        i := i + 1;
      }
      assert CycleTimes(ticks[i..]) == [] && times + [] == times;
    }

    /** ExecuteAsync over the events `ticks`: a cycle per elapsed interval; a
        failing cycle is skipped and the loop goes on; it ends only when the
        host stops the service.  Each connection the loop started with ends
        where Survive puts it after all the cycles run; the cycles only ever
        remove entries. */
    method Execute(ticks: seq<Tick>) returns (cycles: nat)
      requires registry.Valid()
      modifies registry, registry.connections.Values
      ensures registry.Valid()
      ensures cycles == |CycleTimes(ticks)|
      ensures forall c :: c in old(registry.AllConnections()) ==>
        Follows(c, old(c.lastActivity), old(c.IsActive()), CycleTimes(ticks))
      ensures forall id :: id in registry.connections ==>
        id in old(registry.connections) && registry.connections[id] == old(registry.connections[id])
      ensures ticks == [] || ticks[0].Stop? ==>
        && registry.connections == old(registry.connections)
        && forall c :: c in old(registry.AllConnections()) ==> unchanged(c)
      ensures ticks != [] && ticks[0].Elapsed? && |CycleTimes(ticks)| == 1 ==>
        && (forall id :: id in registry.connections <==>
              id in old(registry.connections) && old(VerdictOf(options, registry.connections[id], ticks[0].now)) != Evict)
        && forall c :: c in old(registry.AllConnections()) ==> CycleEffect(options, c, ticks[0].now)
    {
      cycles := 0;
      forall c | c in registry.AllConnections() ensures Follows(c, c.lastActivity, c.IsActive(), []) {
        registry.FiledUnderOwnId(c);
      }
      if ticks == [] || ticks[0].Stop? {
        return;
      }
      ghost var started := registry.AllConnections();
      ghost var lastActivity := map c: Connection | c in started :: c.lastActivity;
      ghost var isActive := map c: Connection | c in started :: c.IsActive();
      ghost var initial := registry.connections;
      ghost var done: seq<int> := [];
      // The first pass of the loop, written out: its cycle, if the interval
      // elapses, starts from the state the service was given.
      CycleTimesStep(ticks, 0, done);
      if ticks[0].Elapsed? {
        RunCycle(ticks[0].now, started, lastActivity, isActive, initial, done);
        done, cycles := done + [ticks[0].now], 1;
      }
      label First:
      cycles := RunLoop(ticks, 1, started, lastActivity, isActive, initial, done, cycles);
      if ticks[0].Elapsed? && cycles == 1 {
        // No later cycle ran: the first one's effects are the loop's.
        forall c | c in old(registry.AllConnections())
          ensures CycleEffect(options, c, ticks[0].now)
        {
          assert c in initial.Values;
        }
      }
      forall c | c in old(registry.AllConnections())
        ensures Follows(c, old(c.lastActivity), old(c.IsActive()), CycleTimes(ticks))
      {
        assert c in started && lastActivity[c] == old(c.lastActivity) && isActive[c] == old(c.IsActive());
      }
    }
  }
}
