# WebSocket messaging core, modelled in Dafny

This project models the in-memory messaging core of a small ASP.NET WebSocket
server and proves properties of the model. The core has five parts:

- **Connection** (`connection.dfy`, module `WebSocketConnection`). One live
  connection owns one socket. The class holds the socket's state, the frames
  its peer is going to deliver (`inbound`), what it has transmitted (`sent`),
  the last-activity time, the cancellation flag and the number of times the
  disconnect event was raised. On top of that:
  - sends record activity before they transmit;
  - the close is guarded by the socket state;
  - the receive loop reassembles messages from frames of at most the
    4096-byte buffer. `ReceiveLoop` is the function that specifies it, and
    `StartReceiveLoop` is the method with the loops.
- **Connection registry** (`connection_manager.dfy`, module
  `ConnectionManager`). A map from connection id to connection, with add,
  remove, lookup, snapshot, broadcast and point-to-point send.
- **Group registry** (`group_manager.dfy`, module `GroupManager`). Two
  mirrored set-valued maps: group name to member ids, and connection id to
  group names. `Valid` says they hold the same pairs and that no entry is
  empty. Add, remove, remove-from-all and the group fan-out keep `Valid`.
- **Heartbeat service** (`heartbeat_service.dfy`, module `HeartbeatService`).
  The evict/ping rule `Decide`, the cycle `CheckConnections` over a snapshot
  of the registry, and the service loop `Execute` over a sequence of timer
  events. `Survive` is a reference definition that follows one connection
  over many cycles. `Execute` ensures that each connection ends where
  `Survive` puts it after the cycles the loop runs, so the lemmas about
  `Survive` (`KeepAlive`, `IntervalKeepsAlive`, `DefaultsKeepAlive`,
  `SilentConnectionEvicted`) hold for the service loop itself.
- **Route table** (`route_handler.dfy`, module `RouteHandler`). Paths mapped
  to handlers, seeded with `"/ws"`. Its handler greets the client and then
  hands frames to the message handler until a close frame.

`protocol.dfy` (module `Protocol`) holds the shared vocabulary:
- socket states, frames and payloads;
- close codes 1000 and 1011 (section 7.4.1 of RFC 6455);
- the outcome of a call that may throw;
- `WhenAll`, the awaiting of a list of completed send tasks.

Environment stand-ins:
- The clock is an integer `now` in milliseconds, passed to each operation.
  Inbound data frames carry their arrival time.
- A fresh Guid is a parameter of `AddConnection`.
- The socket is part of the connection. Its peer is the `inbound` script of
  frames. `faulty` says whether the transport rejects writes; a `Drop` frame
  is a receive that fails.
- Each operation is one atomic step.

How the code behaves, as modelled:
- **Send failures surface late.** A failed asynchronous send surfaces only
  where the tasks are awaited, after the dead entries have been pruned. So a
  broadcast or group send removes only the non-Open entries, never the ones
  whose send failed, and then reports the failure.
- **Option defaults.** The documentation comment of `HeartbeatInterval` says
  30 s. The code sets 60 s, and the model follows the code. The middleware's
  registration helper configures 30 s, but that helper is not part of this
  model.

## Model

| member | source | states |
|---|---|---|
| Protocol.WhenAll | WebSockets/Managers/WebSocketConnectionManager.cs:111 | awaiting the tasks passes exactly when every task passed; it fails with TransportError exactly when some task did, and otherwise with the failure of one of the tasks, so a transport error takes precedence over a cancellation |
| Protocol.IntToString | WebSockets/Services/WebSocketHeartbeatService.cs:151 | the timestamp is written as decimal digits whose value is the number; a minus sign comes first exactly when it is negative, and no zero follows it |
| Protocol.NatToString | WebSockets/Services/WebSocketHeartbeatService.cs:151 | the digits of a non-negative number denote it and have no leading zero, except for 0 itself |
| WebSocketConnection.Connection.constructor | WebSockets/Models/WebSocketConnection.cs:15-23 | a new connection has its last activity equal to its connection time, empty items, no sends and no events, and the placeholder address "未知" when none is given |
| WebSocketConnection.Connection.SocketSend | WebSockets/Models/WebSocketConnection.cs:89 | the socket transmits the message exactly when it is Open or CloseReceived (a half-closed socket still sends), the token is not cancelled and the transport works; otherwise it raises that error |
| WebSocketConnection.Connection.SocketClose | WebSockets/Models/WebSocketConnection.cs:128 | the close handshake closes the socket and transmits the close frame, unless the socket state, the token or the transport makes it raise; a failing close changes nothing |
| WebSocketConnection.Connection.SocketReceive | WebSockets/Models/WebSocketConnection.cs:152 | a receive yields the next frame of the peer's script; a close frame moves the socket to CloseReceived; a broken transport aborts it |
| WebSocketConnection.Connection.Send | WebSockets/Models/WebSocketConnection.cs:84-100 | activity is set to `now` before the transmission, and stays set even when the transmission fails; the outcome is the socket's error, if any |
| WebSocketConnection.Connection.Close | WebSockets/Models/WebSocketConnection.cs:122-138 | only an Open or CloseReceived socket is closed; success transmits the close frame and raises the disconnect event once; failure sets the cancelled flag and propagates the error; in any other state nothing changes |
| WebSocketConnection.Connection.CloseNormally | WebSockets/Models/WebSocketConnection.cs:114-117 | the parameterless close is the guarded close with 1000 and "连接正常关闭" |
| WebSocketConnection.Connection.ReadToEndOfMessage | WebSockets/Models/WebSocketConnection.cs:184-188 | the inner loop returns exactly the reassembly `Reassemble` defines: the bytes of every frame up to the one that ends the message, typed by that last frame, and leaves the rest of the frames unread |
| WebSocketConnection.Connection.ReceiveNext | WebSockets/Models/WebSocketConnection.cs:152-199 | one pass of the loop reports one message and records the arrival time of its first frame; what is left of `ReceiveLoop` is exactly what follows |
| WebSocketConnection.Connection.ReadMessages | WebSockets/Models/WebSocketConnection.cs:150-200 | the loop reports exactly the messages of `ReceiveLoop` in order, consumes exactly its frames and ends the way it says: Aborted after a failed receive, CloseReceived after a close frame |
| WebSocketConnection.Connection.StartReceiveLoop | WebSockets/Models/WebSocketConnection.cs:143-215 | the loop runs only while Open and not cancelled. A peer close triggers the normal close (two disconnect events). A close that fails leaves the connection cancelled and fails with Canceled. A failed receive leads to the internal-error close, a no-op on the aborted socket. Every way out raises the disconnect event in the finally block |
| WebSocketConnection.ReassembleReadsPrefix | WebSockets/Models/WebSocketConnection.cs:181-188 | reassembly reads a prefix of the frames, leaves the rest untouched, and a completed message holds exactly the bytes of the frames read |
| WebSocketConnection.DeliveredInArrivalOrder | WebSockets/Models/WebSocketConnection.cs:150-200 | the bytes of the reported messages are a prefix of the bytes of the frames read, in order and without duplicates, and all of them unless a receive failed mid-message; the unread frames are a suffix of the script |
| WebSocketConnection.DataFrameDelivered | WebSockets/Models/WebSocketConnection.cs:166-177 | the same delivery property when the script starts with a data frame |
| WebSocketConnection.FullFrameDelivered | WebSockets/Models/WebSocketConnection.cs:178-199 | the same delivery property when the first frame fills the whole buffer, for a completed, a close-typed and a broken reassembly |
| WebSocketConnection.ShortFrameIsWholeMessage | WebSockets/Models/WebSocketConnection.cs:166-177 | a first frame shorter than the buffer is reported at once as one message of exactly its bytes, whether or not it ends the message |
| WebSocketConnection.FragmentsConcatenated | WebSockets/Models/WebSocketConnection.cs:180-198 | fragments after a full first buffer are concatenated up to the one that ends the message, and the message type is that of the last fragment |
| WebSocketConnection.FragmentedMessageReported | WebSockets/Models/WebSocketConnection.cs:178-198 | a message received as a full buffer plus fragments is reported as one message holding all their bytes, typed by the last fragment |
| ConnectionManager.KeyedByIdCount | WebSockets/Managers/WebSocketConnectionManager.cs:30 | when each entry is filed under its own connection's id, the map holds as many distinct connections as keys |
| ConnectionManager.SendToOpen | WebSockets/Managers/WebSocketConnectionManager.cs:86-103 | exactly the Open connections are sent to, once each, with a task recorded per send; every other connection is untouched |
| ConnectionManager.BroadcastOutcome | WebSockets/Managers/WebSocketConnectionManager.cs:111 | the awaited tasks fail exactly when some Open connection cannot transmit, and then with the error of one of them; they fail with TransportError exactly when some Open connection's transport rejects the send |
| ConnectionManager.SendAll | WebSockets/Managers/WebSocketConnectionManager.cs:86-111 | exactly the Open connections are sent to, every other one is untouched, and the awaited tasks pass, fail or fail with TransportError exactly as those sends do |
| ConnectionManager.ConnectionRegistry.constructor | WebSockets/Managers/WebSocketConnectionManager.cs:15 | the registry starts empty |
| ConnectionManager.ConnectionRegistry.ActiveConnectionCount | WebSockets/Managers/WebSocketConnectionManager.cs:20 | the count is the number of registered connections, and is zero exactly when the registry is empty |
| ConnectionManager.ConnectionRegistry.Lookup | WebSockets/Managers/WebSocketConnectionManager.cs:63-66 | succeeds exactly when the id is registered, with the connection carrying that id |
| ConnectionManager.ConnectionRegistry.AllConnections | WebSockets/Managers/WebSocketConnectionManager.cs:72-75 | every registered connection, each once |
| ConnectionManager.ConnectionRegistry.FiledUnderOwnId | WebSockets/Managers/WebSocketConnectionManager.cs:72-75 | every connection of the snapshot is found again under its own id |
| ConnectionManager.ConnectionRegistry.AddConnection | WebSockets/Managers/WebSocketConnectionManager.cs:27-37 | a new id gains one new entry, a fresh connection over the socket: connected and last active at `now`, with no items, no sends, no events, not cancelled, and the socket's transport; every other entry is kept; an id already present changes nothing; the id is returned either way |
| ConnectionManager.ConnectionRegistry.RemoveConnection | WebSockets/Managers/WebSocketConnectionManager.cs:44-55 | true exactly when the id was registered; afterwards the id is absent and every other entry is unchanged |
| ConnectionManager.ConnectionRegistry.ClosedIds | WebSockets/Managers/WebSocketConnectionManager.cs:94-97 | the listed ids are exactly the registered ones whose socket is not Open |
| ConnectionManager.ConnectionRegistry.RemoveAll | WebSockets/Managers/WebSocketConnectionManager.cs:106-109 | exactly the listed ids are removed, and the remaining entries are unchanged |
| ConnectionManager.ConnectionRegistry.Broadcast | WebSockets/Managers/WebSocketConnectionManager.cs:81-112 | afterwards the registry holds exactly the entries that were Open; each of them was sent to, and no other entry was; the broadcast fails exactly when one of those sends failed, and with TransportError exactly when one of them met a broken transport |
| ConnectionManager.ConnectionRegistry.SendTo | WebSockets/Managers/WebSocketConnectionManager.cs:157-174 | an unknown id answers false and changes nothing; otherwise the target is sent to; on success the answer is true and the registry is kept; on failure the target is removed and the answer is false |
| GroupManager.Insert | WebSockets/Managers/WebSocketGroupManager.cs:36-41 | filing adds exactly the one pair and keeps every other pair |
| GroupManager.Delete | WebSockets/Managers/WebSocketGroupManager.cs:57-78 | removes exactly the one pair, keeps every other pair, and drops the entry it empties, so no empty entry is stored |
| GroupManager.SamePairsSameIndex | WebSockets/Managers/WebSocketGroupManager.cs:16-17 | two maps without empty entries that hold the same pairs are equal |
| GroupManager.InsertIdempotent | WebSockets/Managers/WebSocketGroupManager.cs:36-41 | adding the same pair twice is adding it once |
| GroupManager.InsertThenDelete | WebSockets/Managers/WebSocketGroupManager.cs:36-78 | filing a new pair and then removing it gives back the map it started from |
| GroupManager.ClassifyMembers | WebSockets/Managers/WebSocketGroupManager.cs:130-157 | the count is the number of members registered and Open; every other member is listed as dead |
| GroupManager.ConnectionsOf | WebSockets/Managers/WebSocketGroupManager.cs:132 | the connections registered under the given ids, and only those |
| GroupManager.FanOut | WebSockets/Managers/WebSocketGroupManager.cs:136-165 | each given member is sent to once and every other connection is untouched; the awaited tasks fail exactly when one of those sends failed, and with TransportError exactly when one of them met a broken transport |
| GroupManager.GroupManager.constructor | WebSockets/Managers/WebSocketGroupManager.cs:16-25 | both maps start empty and consistent |
| GroupManager.GroupManager.AddToGroup | WebSockets/Managers/WebSocketGroupManager.cs:30-47 | an empty id or name changes nothing; otherwise the pair is filed both ways, so the connection is a member of the group and the group is listed for the connection; both maps stay mirrored and free of empty entries |
| GroupManager.GroupManager.RemoveFromGroup | WebSockets/Managers/WebSocketGroupManager.cs:52-83 | an empty id or name changes nothing; otherwise only that pair is removed, both ways, and any emptied entry goes with it |
| GroupManager.GroupManager.RemoveFromAllGroups | WebSockets/Managers/WebSocketGroupManager.cs:88-113 | afterwards the connection has no groups and is a member of none; every other pair is kept |
| GroupManager.GroupManager.Members | WebSockets/Managers/WebSocketGroupManager.cs:123 | the members of a group are exactly the connections that list the group |
| GroupManager.GroupManager.RemoveAllFromGroup | WebSockets/Managers/WebSocketGroupManager.cs:159-163 | exactly the listed members leave the group; every other pair is kept |
| GroupManager.GroupManager.Deliver | WebSockets/Managers/WebSocketGroupManager.cs:126-157 | sends exactly to the members that are registered and Open, counts them, and lists every other member; the sends fail with TransportError exactly when one of those members' transport rejects them |
| GroupManager.GroupManager.SendToGroup | WebSockets/Managers/WebSocketGroupManager.cs:118-229 | an empty or unknown name gives 0 and changes nothing. Otherwise the registered Open members are sent to, and every other member leaves the group. The result is their number, unless a dispatched send failed, and then the error of one such send: TransportError exactly when one of them met a broken transport. Both maps stay consistent |
| GroupManager.GroupManager.ConnectionsInGroup | WebSockets/Managers/WebSocketGroupManager.cs:243-259 | only members that are found in the connection registry, each under its own id, all of them, each once |
| GroupManager.GroupManager.GroupsFor | WebSockets/Managers/WebSocketGroupManager.cs:264-270 | nothing for an empty or unknown id; otherwise exactly the groups the connection is a member of |
| GroupManager.GroupManager.AllGroups | WebSockets/Managers/WebSocketGroupManager.cs:275-278 | exactly the groups that have members |
| GroupManager.GroupManager.ConnectionCountInGroup | WebSockets/Managers/WebSocketGroupManager.cs:283-289 | zero for an empty or unknown name; otherwise the number of members, which is zero exactly when the group is not listed |
| HeartbeatService.SurviveSnoc | WebSockets/Services/WebSocketHeartbeatService.cs:58-64 | following a connection over some cycles and then one more is the same as following it cycle after cycle |
| HeartbeatService.KeepAlive | WebSockets/Services/WebSocketHeartbeatService.cs:95-109 | with heartbeats on, an Open connection whose cycles come no further apart than the timeout is never evicted |
| HeartbeatService.IntervalKeepsAlive | WebSockets/Services/WebSocketHeartbeatService.cs:59-64 | cycles one heartbeat interval plus a lag apart never evict an Open connection when the interval and the lag together fit within the timeout |
| HeartbeatService.DefaultsKeepAlive | WebSockets/Services/WebSocketHeartbeatService.cs:17-32 | under the default options (a 60 s interval, a 120 s timeout, both checks on) an Open connection survives cycles that each run for up to 60 s |
| HeartbeatService.SilentConnectionEvicted | WebSockets/Services/WebSocketHeartbeatService.cs:95-109 | a connection that is never pinged is evicted by the first cycle that finds it idle past the timeout |
| HeartbeatService.SendPing | WebSockets/Services/WebSocketHeartbeatService.cs:147-159 | the ping message is sent, and its failure is swallowed |
| HeartbeatService.Survey | WebSockets/Services/WebSocketHeartbeatService.cs:92-110 | lists exactly the ids of the connections idle past the timeout, each once, and picks exactly the other connections that are due a ping; it changes nothing |
| HeartbeatService.PingAll | WebSockets/Services/WebSocketHeartbeatService.cs:112-116 | every connection due a ping is sent the ping message once |
| HeartbeatService.PingOrMark | WebSockets/Services/WebSocketHeartbeatService.cs:85-116 | marks exactly the connections the rule evicts and leaves them untouched; pings exactly the ones it pings; leaves the rest alone |
| HeartbeatService.HeartbeatService.constructor | WebSockets/Services/WebSocketHeartbeatService.cs:44-52 | the service keeps its registry and options |
| HeartbeatService.HeartbeatService.CloseMarked | WebSockets/Services/WebSocketHeartbeatService.cs:119-130 | each marked connection still registered gets the guarded close with 1000 and "连接超时"; a close that throws is swallowed |
| HeartbeatService.HeartbeatService.CloseAndRemove | WebSockets/Services/WebSocketHeartbeatService.cs:119-136 | each marked connection is closed and removed from the registry, whether or not its close throws; the other entries are unchanged |
| HeartbeatService.HeartbeatService.CheckConnections | WebSockets/Services/WebSocketHeartbeatService.cs:83-142 | afterwards the registry holds exactly the connections the rule did not evict, unchanged; evicted ones were closed and not pinged; pinged ones keep their socket state, script, received messages, items, flags and events; the rest are untouched; groups are not touched |
| HeartbeatService.HeartbeatService.RunCycle | WebSockets/Services/WebSocketHeartbeatService.cs:60-64 | one cycle at `now` takes every connection the loop started with one step further along `Survive`, and has the effect of `CheckConnections` at `now` |
| HeartbeatService.HeartbeatService.RunLoop | WebSockets/Services/WebSocketHeartbeatService.cs:58-74 | the rest of the loop runs the cycles of every elapsed interval up to the first stop, skipping failed ones, and changes nothing when no interval elapses |
| HeartbeatService.HeartbeatService.Execute | WebSockets/Services/WebSocketHeartbeatService.cs:54-78 | the loop runs one cycle per elapsed interval up to the first stop, and a failing cycle does not end it. Each connection it started with ends where `Survive` puts it after those cycles: registered under its id and last active at Survive's time exactly when Survive keeps it. The cycles only ever remove entries, and every kept id keeps its connection. A stop before any interval changes nothing; a single cycle at the first tick has exactly the effect of `CheckConnections` at its time |
| RouteHandler.ServedInOrder | WebSockets/Handlers/WebSocketRouteHandler.cs:90-96 | the handled frames are the data frames the script starts with, in order; the close frame, if any, comes right after them; the rest follows it |
| RouteHandler.HandOver | WebSockets/Handlers/WebSocketRouteHandler.cs:87-96 | the receive loop hands over exactly the frames of `Serve` and stops at its close frame, which leaves the socket CloseReceived, or at a failed receive, which aborts it |
| RouteHandler.HandleMessages | WebSockets/Handlers/WebSocketRouteHandler.cs:77-107 | the greeting `{"type":"connection","id":…}` is sent before the first receive, and a failed greeting ends the handler. On an Open socket frames are then handed over in order until a close frame, whose status and description are echoed in the closing handshake; a socket already half-closed by its peer takes the greeting and refuses the receive. Every error is caught |
| RouteHandler.RouteTable.constructor | WebSockets/Handlers/WebSocketRouteHandler.cs:22-29 | a new table has exactly the one route "/ws" |
| RouteHandler.RouteTable.AddRoute | WebSockets/Handlers/WebSocketRouteHandler.cs:66-69 | the path is bound to the handler, replacing an earlier one, and every other route is unchanged |
| RouteHandler.RouteTable.HandleRoute | WebSockets/Handlers/WebSocketRouteHandler.cs:49-59 | an unknown path fails with the not-found message and invokes nothing; a known path invokes its own handler |

## Left out

- Concurrency: the concurrent dictionaries, the overlap of dispatched sends and the race between the two group maps are not modelled. Each operation is one sequential step.
- The loops of `BroadcastAsync` and `SendToGroupAsync` are modelled as three passes: first the Open/not-Open classification (`ClosedIds`, `ClassifyMembers`), then the sends, then the removals. Sends change no socket state, so the outcome is the same.
- Delays and the clock: `Task.Delay`, `DateTime.UtcNow` and the stopping token are replaced by the integer `now` and by the `Tick` events of `Execute`.
- HeartbeatService.SendPing: the ping's timestamp and the activity the send records are both taken as the cycle's `now`. The source reads the clock again for each of them.
- JSON serialization is left out: only the fixed shapes of the ping and the greeting are written out. `SendObjectAsync` and `SendObjectToGroupAsync` are `SendAsync` and `SendToGroupAsync` on the serializer's text, so they are not modelled separately.
- UTF-8 encoding of sent text and decoding of received text: payloads are kept as text or bytes, and received messages as bytes.
- Logging.
- The events are modelled as a counter of disconnect events and a list of reported messages. The subscribers are not modelled, and are taken not to throw.
- HeartbeatService.PingOrMark: the survey of the snapshot and the pings are two passes. The source starts each ping task inside the loop and awaits them all after it. A ping changes only its own connection's activity and sent messages, which no verdict on another connection reads, so the outcome is the same.
- HeartbeatService.HeartbeatService.CloseAndRemove: closes first, then removes. The source closes and removes each id in turn. Closes change no registry entry and removals change no connection, so the result is the same.
- The middleware (`WebSocketServerMiddleware.cs`), `Program.cs` and dependency injection are not part of this model. The middleware's cleanup calls only `RemoveConnectionAsync`, so the group model does not assume that dead ids are swept from the groups.
- The message handler (`WebSocketMessageHandler.cs`) only decodes and logs. The model records the frames handed to it.
- RouteHandler.RouteTable.HandleRoute: a handler registered with `AddRoute` is known only by name. Its effect on the connection is not modelled: the model takes it to leave the connection unchanged.
- WebSocketConnection.ReceiveLoop: a script of frames that runs out reads as a broken transport. A real socket would wait instead.
- HeartbeatService.Survive: the socket state of the connection is taken as fixed over the cycles. It is fixed in the model, because nothing but the service runs between cycles; clients that close their sockets meanwhile are not modelled.
- JWT, the controllers and the data layer have no part in the messaging core.
- `Protocol.AsOutcome` (a raised error as a failed outcome), `GroupManager.Under` (the set filed under a key), `HeartbeatService.Decide` (the evict/ping rule) and `RouteHandler.RouteTable.HasRoute` (a key lookup) are plain definitions with no contract of their own. The members that use them state what they mean: `SocketSend`, `SocketClose`, `Send` and `SendToOpen` for the first; `Insert`, `Members` and `GroupsFor` for the second; `Survey`, `CheckConnections`, `KeepAlive`, `IntervalKeepsAlive` and `SilentConnectionEvicted` for the rule; `AddRoute` for the lookup.
- The `IdleTime` and `IsActive` members are plain definitions (`now - lastActivity`, state is Open), so they have no contract of their own.
