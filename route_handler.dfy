/** The route table (WebSocketRouteHandler): request paths mapped to
    connection handlers, seeded with the "/ws" handler that greets the client
    and then hands each received frame to the message handler until the peer
    closes. */
module RouteHandler {
  import opened Protocol
  import opened WebSocketConnection

  /** The path the table is seeded with. */
  const DefaultPath: string := "/ws"

  /** A connection handler: the seeded "/ws" one, or one registered later,
      known here only by name (what it does is not part of this model). */
  datatype Handler = MessageLoop | Custom(name: string)

  /** The greeting `{"type":"connection","id":"<id>"}`, as the serializer
      writes the anonymous object (a Guid string needs no escaping). */
  function Greeting(id: string): Payload
  {
    TextPayload("{\"type\":\"connection\",\"id\":\"" + id + "\"}")
  }

  /** The not-found error HandleRouteAsync raises. */
  function NotFound(path: string): string
  {
    "未找到路径 " + path + " 的WebSocket处理器"
  }

  /** How the loop of HandleWebSocketMessageAsync goes on a socket's inbound
      frames: the frames handed to the message handler, the close frame that
      ends the loop (None when a receive fails first), and the frames left. */
  datatype Session = Session(handled: seq<Inbound>, close: Option<CloseStatus>, rest: seq<Inbound>)

  /** The status and description of a peer's close frame. */
  datatype CloseStatus = CloseStatus(status: int, description: string)

  function Serve(script: seq<Inbound>): (s: Session)
    ensures |s.rest| < |script| || script == []
    decreases |script|
  {
    if script == [] then Session([], None, [])
    else match script[0]
      case Drop => Session([], None, script[1..])
      case CloseFrame(status, description) => Session([], Some(CloseStatus(status, description)), script[1..])
      case Data(_, _, _, _) =>
        var s := Serve(script[1..]);
        Session([script[0]] + s.handled, s.close, s.rest)
  }

  /** Each frame is handed over in arrival order and nothing is skipped: the
      handled frames are the data frames the script starts with, the close
      frame, if any, comes right after them, and the rest follows it. */
  lemma {:induction false} ServedInOrder(script: seq<Inbound>)
    ensures var s := Serve(script);
      && (forall i :: 0 <= i < |s.handled| ==> s.handled[i].Data?)
      && s.handled <= script
      && (s.close.Some? ==>
            |s.handled| < |script| && script[|s.handled|] == CloseFrame(s.close.value.status, s.close.value.description))
      && (s.close.None? && |s.handled| < |script| ==> script[|s.handled|].Drop?)
      && s.rest == (if |s.handled| < |script| then script[|s.handled| + 1..] else [])
    decreases |script|
  {
    if script != [] && script[0].Data? {
      ServedInOrder(script[1..]);
      var s := Serve(script[1..]);
      assert [script[0]] + s.handled <= [script[0]] + script[1..];
      assert [script[0]] + script[1..] == script;
    }
  }

  /** The effect of HandleWebSocketMessageAsync on the connection: the greeting
      is sent first (a failed send ends the handler at once, and so does the
      first receive on a socket that is not Open); then each
      received frame goes to the message handler until a close frame, whose
      status and description are echoed in the closing handshake, or a failed
      receive.  Every error is caught. */
  twostate predicate Served(c: Connection, now: int, handled: seq<Inbound>)
    reads c
  {
    && c.lastActivity == now
    && c.cancelled == old(c.cancelled) && c.faulty == old(c.faulty)
    && c.items == old(c.items) && c.received == old(c.received)
    && c.disconnectedEvents == old(c.disconnectedEvents)
    && if old(c.SendError(c.cancelled)).Some? then
         handled == [] && c.state == old(c.state) && c.inbound == old(c.inbound) && c.sent == old(c.sent)
       else if old(c.state) != Open then
         handled == [] && c.state == old(c.state) && c.inbound == old(c.inbound)
         && c.sent == old(c.sent) + [Message(Greeting(c.id))]
       else
         var s := Serve(old(c.inbound));
         && handled == s.handled
         && c.inbound == s.rest
         && match s.close
            case None =>
              c.state == Aborted && c.sent == old(c.sent) + [Message(Greeting(c.id))]
            case Some(f) =>
              && c.state == Closed
              && c.sent == old(c.sent) + [Message(Greeting(c.id)), CloseHandshake(f.status, f.description)]
  }

  /** The receive loop of HandleWebSocketMessageAsync on an Open socket:
      hands each data frame over until a close frame or a failed receive, and
      reports the close frame it stopped at. */
  method HandOver(c: Connection) returns (handled: seq<Inbound>, close: Option<CloseStatus>)
    requires c.state == Open
    modifies c`state, c`inbound
    ensures Session(handled, close, c.inbound) == old(Serve(c.inbound))
    ensures c.state == if close.Some? then CloseReceived else Aborted
  {
    handled := [];
    ghost var s0 := Serve(c.inbound);
    var result := c.SocketReceive(false);
    while result.Ok? && !result.value.CloseFrame?
      invariant result.Ok? && !result.value.CloseFrame? ==>
        && c.state == Open
        && s0 == Session(handled + [result.value] + Serve(c.inbound).handled, Serve(c.inbound).close, Serve(c.inbound).rest)
      invariant result.Ok? && result.value.CloseFrame? ==>
        c.state == CloseReceived && s0 == Session(handled, Some(CloseStatus(result.value.status, result.value.description)), c.inbound)
      invariant result.Err? ==> c.state == Aborted && s0 == Session(handled, None, c.inbound)
      decreases |c.inbound|, if result.Ok? && !result.value.CloseFrame? then 1 else 0
    {
      handled := handled + [result.value];
      result := c.SocketReceive(false);
    }
    close := if result.Ok? then Some(CloseStatus(result.value.status, result.value.description)) else None;
  }

  /** HandleWebSocketMessageAsync; `handled` lists the frames handed to the
      message handler, which only decodes and logs them. */
  method HandleMessages(c: Connection, now: int) returns (handled: seq<Inbound>)
    modifies c`lastActivity, c`sent, c`state, c`inbound
    ensures Served(c, now, handled)
  {
    handled := [];
    var greeted := c.Send(Greeting(c.id), now);
    if greeted.Pass? && c.state == Open {
      var close;
      handled, close := HandOver(c);
      if close.Some? {
        var _ := c.SocketClose(close.value.status, close.value.description, false);
      }
    } else if greeted.Pass? {
      // A socket half-closed by its peer takes the greeting but refuses the receive.
      var _ := c.SocketReceive(false);
    }
  }

  class RouteTable {
    /** `_routeHandlers`: exact path to handler. */
    var routes: map<string, Handler>

    /** A new table holds the "/ws" route only. */
    constructor ()
      ensures routes == map[DefaultPath := MessageLoop]
    {
      routes := map[DefaultPath := MessageLoop];
    }

    /** HasRoute: exact-key lookup. */
    function HasRoute(path: string): bool
      reads this
    {
      path in routes
    }

    /** AddRoute: adds the route, or replaces the handler of an existing one. */
    method AddRoute(path: string, handler: Handler)
      modifies this
      ensures routes == old(routes)[path := handler]
      ensures HasRoute(path)
    {
      routes := routes[path := handler];
    }

    /** HandleRouteAsync: invokes the path's handler, or fails with not-found
        and invokes nothing.  The result names the handler invoked. */
    method HandleRoute(path: string, c: Connection, now: int) returns (r: Result<Handler, string>, handled: seq<Inbound>)
      modifies c`lastActivity, c`sent, c`state, c`inbound
      ensures path !in routes ==> r == Err(NotFound(path)) && handled == [] && unchanged(c)
      ensures path in routes ==> r == Ok(routes[path])
      ensures path in routes && routes[path] == MessageLoop ==> Served(c, now, handled)
      ensures path in routes && routes[path].Custom? ==> handled == [] && unchanged(c)
    {
      handled := [];
      if path !in routes {
        return Err(NotFound(path)), handled;
      }
      var h := routes[path];
      if h == MessageLoop {
        handled := HandleMessages(c, now);
      }
      r := Ok(h);
    }
  }
}
