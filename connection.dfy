/** One live connection (WebSocketConnection): its identity, timestamps and
    metadata, the socket it owns, sending, the guarded close, and the receive
    loop that reassembles inbound messages from the socket's frames. */
module WebSocketConnection {
  import opened Protocol

  /** Placeholder remote address ("unknown") when the adapter gives none. */
  const UnknownAddress: string := "未知"

  /** Close description used by the parameterless close ("closed normally"). */
  const NormalCloseReason: string := "连接正常关闭"

  /** Close description used when the receive loop fails ("internal server error"). */
  const InternalErrorReason: string := "服务器内部错误"

  /** An accepted socket as the environment hands it over: its state, the frames
      its peer is going to deliver, and whether its transport rejects writes. */
  datatype Channel = Channel(state: SocketState, inbound: seq<Inbound>, faulty: bool)

  // ---------------------------------------------------------------------------
  // Specification of the receive loop, over the socket's inbound frames.

  /** The bytes carried by data frames, in arrival order. */
  function Chunks(script: seq<Inbound>): seq<byte>
  {
    if script == [] then [] else (if script[0].Data? then script[0].chunk else []) + Chunks(script[1..])
  }

  /** The bytes of a sequence of messages, in delivery order. */
  function Flatten(messages: seq<ReceivedMessage>): seq<byte>
  {
    if messages == [] then [] else messages[0].data + Flatten(messages[1..])
  }

  /** Result of the inner `while (!EndOfMessage)` loop. */
  datatype Assembly =
    | Assembled(message: ReceivedMessage, rest: seq<Inbound>)
    | Broken(rest: seq<Inbound>)

  /** Reads frames after a full-buffer first frame, appending each frame's bytes
      to `acc`, until a result has endOfMessage set; the message type is that of
      the last result.  A close frame counts as a zero-byte result with
      endOfMessage set; a failed receive breaks the message. */
  function Reassemble(script: seq<Inbound>, acc: seq<byte>, kind: MessageType, endOfMessage: bool): (r: Assembly)
    ensures |r.rest| <= |script|
    decreases |script|
  {
    if endOfMessage then Assembled(ReceivedMessage(kind, acc), script)
    else if script == [] then Broken([])
    else match script[0]
      case Drop => Broken(script[1..])
      case CloseFrame(_, _) => Reassemble(script[1..], acc, Close, true)
      case Data(k, c, e, _) => Reassemble(script[1..], acc + c, k, e)
  }

  /** Why the receive loop ended: it never ran (socket not Open or connection
      cancelled), a receive failed, the peer sent a close frame, or a close frame
      ended a fragmented message (the socket is then CloseReceived, so the loop
      guard fails). */
  datatype LoopExit = NotStarted | Dropped | PeerClosed | ClosedMidMessage

  /** What the receive loop does with a script: the messages it reports, how it
      ends, the frames it leaves unread, and the arrival time of the last frame
      that started a message (the loop records activity there). */
  datatype Trace = Trace(messages: seq<ReceivedMessage>, exit: LoopExit, rest: seq<Inbound>, activity: Option<int>)

  /** `t` preceded by one message whose first frame arrived at `at`. */
  function Then(m: ReceivedMessage, at: int, t: Trace): Trace
  {
    Trace([m] + t.messages, t.exit, t.rest, if t.activity.Some? then t.activity else Some(at))
  }

  /** `t` preceded by messages already reported and activity already recorded. */
  function Extend(done: seq<ReceivedMessage>, activity: Option<int>, t: Trace): Trace
  {
    Trace(done + t.messages, t.exit, t.rest, if t.activity.Some? then t.activity else activity)
  }

  /** The receive loop on an Open socket of a connection that is not cancelled.
      A first frame shorter than the buffer is a whole message by itself, with or
      without endOfMessage; a full-buffer frame starts a Reassemble.  An
      exhausted script reads as a broken transport. */
  function ReceiveLoop(script: seq<Inbound>): (t: Trace)
    ensures |t.rest| <= |script|
    decreases |script|
  {
    if script == [] then Trace([], Dropped, [], None)
    else match script[0]
      case Drop => Trace([], Dropped, script[1..], None)
      case CloseFrame(_, _) => Trace([], PeerClosed, script[1..], None)
      case Data(k, c, e, at) =>
        if |c| < ReceiveBufferSize then Then(ReceivedMessage(k, c), at, ReceiveLoop(script[1..]))
        else match Reassemble(script[1..], c, k, e)
          case Broken(rest) => Trace([], Dropped, rest, Some(at))
          case Assembled(m, rest) =>
            if m.messageType == Close then Trace([m], ClosedMidMessage, rest, Some(at))
            else Then(m, at, ReceiveLoop(rest))
  }

  lemma {:induction false} ChunksAppend(a: seq<Inbound>, b: seq<Inbound>)
    ensures Chunks(a + b) == Chunks(a) + Chunks(b)
  {
    if a == [] {
      assert a + b == b;
    } else {
      assert (a + b)[1..] == a[1..] + b;
      ChunksAppend(a[1..], b);
    }
  }

  lemma FlattenCons(m: ReceivedMessage, ms: seq<ReceivedMessage>)
    ensures Flatten([m] + ms) == m.data + Flatten(ms)
  {
    assert ([m] + ms)[1..] == ms;
  }

  /** Reassembly reads a prefix of the script and leaves the rest untouched; the
      message it completes holds exactly the bytes of the frames it read. */
  lemma {:induction false} ReassembleReadsPrefix(script: seq<Inbound>, acc: seq<byte>, kind: MessageType, endOfMessage: bool)
    ensures var r := Reassemble(script, acc, kind, endOfMessage);
      var n := |script| - |r.rest|;
      && script[n..] == r.rest
      && (r.Assembled? ==> r.message.data == acc + Chunks(script[..n]))
    decreases |script|
  {
    var r := Reassemble(script, acc, kind, endOfMessage);
    if endOfMessage {
      assert script[..0] == [];
    } else if script == [] {
    } else {
      var tail := script[1..];
      var n := |script| - |r.rest|;
      match script[0]
      case Drop =>
      case CloseFrame(_, _) =>
        ReassembleReadsPrefix(tail, acc, Close, true);
        assert script[..n] == [script[0]] + tail[..n - 1];
        ChunksAppend([script[0]], tail[..n - 1]);
      case Data(k, c, e, _) =>
        ReassembleReadsPrefix(tail, acc + c, k, e);
        assert script[..n] == [script[0]] + tail[..n - 1];
        ChunksAppend([script[0]], tail[..n - 1]);
    }
  }

  /** The delivery property of one trace of `script`: the frames not read are a
      suffix of the script, and the bytes of the reported messages are a prefix
      of the bytes of the frames read (all of them unless a receive failed). */
  ghost predicate DeliveredInOrder(script: seq<Inbound>, t: Trace)
  {
    var n := |script| - |t.rest|;
    && 0 <= n
    && script[n..] == t.rest
    && Flatten(t.messages) <= Chunks(script[..n])
    && (t.exit != Dropped ==> Flatten(t.messages) == Chunks(script[..n]))
  }

  lemma PrefixAfter(c: seq<byte>, x: seq<byte>, y: seq<byte>)
    requires x <= y
    ensures c + x <= c + y
  {
    assert (c + y)[..|c + x|] == c + x;
  }

  /** Messages are reported in arrival order and nothing is duplicated: the bytes
      of the reported messages are a prefix of the bytes of the frames the loop
      read, and all of them unless a receive failed mid-message. */
  lemma {:induction false} DeliveredInArrivalOrder(script: seq<Inbound>)
    ensures DeliveredInOrder(script, ReceiveLoop(script))
    decreases |script|, 2
  {
    if script != [] {
      match script[0]
      case Drop =>
      case CloseFrame(_, _) =>
        assert script[..1] == [script[0]];
        assert Chunks([script[0]]) == [] + Chunks([]);
      case Data(_, _, _, _) =>
        DataFrameDelivered(script);
    }
  }

  lemma {:induction false} DataFrameDelivered(script: seq<Inbound>)
    requires script != [] && script[0].Data?
    ensures DeliveredInOrder(script, ReceiveLoop(script))
    decreases |script|, 1
  {
    var Data(k, c, e, at) := script[0];
    if |c| < ReceiveBufferSize {
      assert ReceiveLoop(script) == Then(ReceivedMessage(k, c), at, ReceiveLoop(script[1..]));
      assert script[..1] == [script[0]];
      assert Chunks([script[0]]) == c + Chunks([]);
      DeliveredInArrivalOrder(script[1..]);
      ThenDelivered(script, 1, ReceivedMessage(k, c), at, ReceiveLoop(script[1..]));
    } else {
      FullFrameDelivered(script);
    }
  }

  lemma {:induction false} FullFrameDelivered(script: seq<Inbound>)
    requires script != [] && script[0].Data? && |script[0].chunk| == ReceiveBufferSize
    ensures DeliveredInOrder(script, ReceiveLoop(script))
    decreases |script|, 0
  {
    var Data(k, c, e, at) := script[0];
    var tail := script[1..];
    var a := Reassemble(tail, c, k, e);
    ReassembleReadsPrefix(tail, c, k, e);
    var n1 := |tail| - |a.rest|;
    if a.Assembled? {
      FirstFrameThenPrefix(script, n1);
      if a.message.messageType == Close {
        assert ReceiveLoop(script) == Trace([a.message], ClosedMidMessage, a.rest, Some(at));
        FlattenCons(a.message, []);
      } else {
        assert ReceiveLoop(script) == Then(a.message, at, ReceiveLoop(a.rest));
        DeliveredInArrivalOrder(a.rest);
        ThenDelivered(script, n1 + 1, a.message, at, ReceiveLoop(a.rest));
      }
    } else {
      assert ReceiveLoop(script) == Trace([], Dropped, a.rest, Some(at));
      assert script[n1 + 1..] == a.rest;
    }
  }

  /** The frames read by a full-buffer first frame and its reassembly. */
  lemma FirstFrameThenPrefix(script: seq<Inbound>, n1: nat)
    requires script != [] && script[0].Data? && n1 < |script|
    ensures script[..n1 + 1] == [script[0]] + script[1..][..n1]
    ensures Chunks(script[..n1 + 1]) == script[0].chunk + Chunks(script[1..][..n1])
  {
    assert script[..n1 + 1] == [script[0]] + script[1..][..n1];
    ChunksAppend([script[0]], script[1..][..n1]);
    assert Chunks([script[0]]) == script[0].chunk + Chunks([]);
  }

  /** One message made of the first `n1` frames, followed by a trace of the
      remaining frames that delivers in order, delivers in order. */
  lemma ThenDelivered(script: seq<Inbound>, n1: nat, m: ReceivedMessage, at: int, u: Trace)
    requires 0 < n1 <= |script|
    requires m.data == Chunks(script[..n1])
    requires DeliveredInOrder(script[n1..], u)
    ensures DeliveredInOrder(script, Then(m, at, u))
  {
    var rest := script[n1..];
    var n2 := |rest| - |u.rest|;
    FlattenCons(m, u.messages);
    assert script[..n1 + n2] == script[..n1] + rest[..n2];
    assert script[n1 + n2..] == rest[n2..];
    ChunksAppend(script[..n1], rest[..n2]);
    PrefixAfter(m.data, Flatten(u.messages), Chunks(rest[..n2]));
  }

  /** A first frame shorter than the buffer is reported at once as a whole
      message of exactly its bytes, even when endOfMessage is not set. */
  lemma ShortFrameIsWholeMessage(script: seq<Inbound>)
    requires |script| > 0 && script[0].Data? && |script[0].chunk| < ReceiveBufferSize
    ensures var t := ReceiveLoop(script);
      |t.messages| > 0 && t.messages[0] == ReceivedMessage(script[0].kind, script[0].chunk)
  {
  }

  /** Fragments following a full first buffer are concatenated up to the one
      that ends the message, and the message type is taken from that last one. */
  lemma {:induction false} FragmentsConcatenated(frags: seq<Inbound>, rest: seq<Inbound>, acc: seq<byte>, kind: MessageType)
    requires |frags| > 0
    requires forall i :: 0 <= i < |frags| ==> frags[i].Data? && (frags[i].endOfMessage <==> i == |frags| - 1)
    ensures Reassemble(frags + rest, acc, kind, false)
         == Assembled(ReceivedMessage(frags[|frags| - 1].kind, acc + Chunks(frags)), rest)
    decreases |frags|
  {
    var f := frags[0];
    assert (frags + rest)[0] == f && (frags + rest)[1..] == frags[1..] + rest;
    if |frags| == 1 {
      assert Chunks(frags) == f.chunk + Chunks([]);
    } else {
      FragmentsConcatenated(frags[1..], rest, acc + f.chunk, f.kind);
      assert frags[1..][|frags[1..]| - 1] == frags[|frags| - 1];
    }
  }

  /** A message of several fragments, received as the first thing on the
      socket, is reported as one message holding all their bytes. */
  lemma FragmentedMessageReported(first: Inbound, frags: seq<Inbound>, rest: seq<Inbound>)
    requires first.Data? && |first.chunk| == ReceiveBufferSize && !first.endOfMessage
    requires |frags| > 0
    requires forall i :: 0 <= i < |frags| ==> frags[i].Data? && (frags[i].endOfMessage <==> i == |frags| - 1)
    ensures var t := ReceiveLoop([first] + frags + rest);
      |t.messages| > 0
      && t.messages[0] == ReceivedMessage(frags[|frags| - 1].kind, first.chunk + Chunks(frags))
  {
    var script := [first] + frags + rest;
    assert script[0] == first && script[1..] == frags + rest;
    FragmentsConcatenated(frags, rest, first.chunk, first.kind);
  }

  /** Reports and activity accumulate: extending twice is extending once. */
  lemma ExtendExtend(done: seq<ReceivedMessage>, activity: Option<int>,
                     more: seq<ReceivedMessage>, at: Option<int>, t: Trace)
    ensures Extend(done, activity, Extend(more, at, t))
         == Extend(done + more, if at.Some? then at else activity, t)
  {
    assert done + (more + t.messages) == (done + more) + t.messages;
  }

  // ---------------------------------------------------------------------------

  class Connection {
    /** Process-unique identity, fixed at creation. */
    const id: string
    const connectedAt: int
    const remoteAddress: string
    /** Session data owned by higher layers; the core never inspects it. */
    var items: map<string, object>

    // The socket this connection exclusively owns.
    var state: SocketState
    /** Frames the peer is going to deliver, in order (the environment's script). */
    var inbound: seq<Inbound>
    /** Whether the transport rejects writes (sends and close handshakes). */
    var faulty: bool
    /** Everything the socket has transmitted, in order. */
    var sent: seq<Outbound>

    var lastActivity: int
    /** Whether the connection's cancellation source has been cancelled. */
    var cancelled: bool
    /** How many times the disconnect event has been raised. */
    var disconnectedEvents: nat
    /** The messages reported by the message-received event, in order. */
    var received: seq<ReceivedMessage>

    /** A new connection around an accepted socket; `id` stands for the fresh
        Guid, `now` for the clock, and `remoteIpAddress` None for null. */
    constructor (channel: Channel, id: string, now: int, remoteIpAddress: Option<string>)
      ensures this.id == id && connectedAt == now && lastActivity == connectedAt
      ensures remoteAddress == if remoteIpAddress.Some? then remoteIpAddress.value else UnknownAddress
      ensures items == map[]
      ensures state == channel.state && inbound == channel.inbound && faulty == channel.faulty
      ensures sent == [] && !cancelled && disconnectedEvents == 0 && received == []
    {
      this.id := id;
      connectedAt := now;
      lastActivity := now;
      remoteAddress := if remoteIpAddress.Some? then remoteIpAddress.value else UnknownAddress;
      items := map[];
      state := channel.state;
      inbound := channel.inbound;
      faulty := channel.faulty;
      sent := [];
      cancelled := false;
      disconnectedEvents := 0;
      received := [];
    }

    predicate IsActive()
      reads this`state
    {
      state == Open
    }

    function IdleTime(now: int): int
      reads this`lastActivity
    {
      now - lastActivity
    }

    /** The error Socket.SendAsync raises now, if any: a socket sends while
        Open and, half-closed by its peer, while CloseReceived. */
    function SendError(tokenCanceled: bool): Option<Error>
      reads this`state, this`faulty
    {
      if state != Open && state != CloseReceived then Some(TransportError)
      else if tokenCanceled then Some(Canceled)
      else if faulty then Some(TransportError)
      else None
    }

    /** The error Socket.CloseAsync raises now, if any. */
    function CloseError(tokenCanceled: bool): Option<Error>
      reads this`state, this`faulty
    {
      if state != Open && state != CloseReceived && state != CloseSent then Some(TransportError)
      else if tokenCanceled then Some(Canceled)
      else if faulty then Some(TransportError)
      else None
    }

    /** The error Socket.ReceiveAsync raises before reading, if any. */
    function ReceiveError(tokenCanceled: bool): Option<Error>
      reads this`state
    {
      if state != Open && state != CloseSent then Some(TransportError)
      else if tokenCanceled then Some(Canceled)
      else None
    }

    /** Socket.SendAsync of one complete message. */
    method SocketSend(p: Payload, tokenCanceled: bool) returns (r: Outcome<Error>)
      modifies this`sent
      ensures r == AsOutcome(SendError(tokenCanceled))
      ensures sent == if r.Pass? then old(sent) + [Message(p)] else old(sent)
    {
      r := AsOutcome(SendError(tokenCanceled));
      if r.Pass? {
        sent := sent + [Message(p)];
      }
    }

    /** Socket.CloseAsync: the close handshake; the peer is taken to answer it. */
    method SocketClose(status: int, description: string, tokenCanceled: bool) returns (r: Outcome<Error>)
      modifies this`state, this`sent
      ensures r == AsOutcome(old(CloseError(tokenCanceled)))
      ensures r.Pass? ==>
        state == Closed && sent == old(sent) + (if old(state) == CloseSent then [] else [CloseHandshake(status, description)])
      ensures r.Fail? ==> state == old(state) && sent == old(sent)
    {
      r := AsOutcome(CloseError(tokenCanceled));
      if r.Pass? {
        if state != CloseSent {
          sent := sent + [CloseHandshake(status, description)];
        }
        state := Closed;
      }
    }

    /** Socket.ReceiveAsync: the next frame of the script.  A close frame moves
        the socket to CloseReceived (Closed after a close of our own); a broken
        transport, or an exhausted script, aborts it. */
    method SocketReceive(tokenCanceled: bool) returns (r: Result<Inbound, Error>)
      modifies this`state, this`inbound
      ensures old(ReceiveError(tokenCanceled)).Some? ==>
        r == Err(old(ReceiveError(tokenCanceled)).value) && state == old(state) && inbound == old(inbound)
      ensures old(ReceiveError(tokenCanceled)).None? && (old(inbound) == [] || old(inbound[0]).Drop?) ==>
        r == Err(TransportError) && state == Aborted && inbound == (if old(inbound) == [] then [] else old(inbound[1..]))
      ensures old(ReceiveError(tokenCanceled)).None? && old(inbound) != [] && !old(inbound[0]).Drop? ==>
        && r == Ok(old(inbound[0])) && inbound == old(inbound[1..])
        && state == (if !r.value.CloseFrame? then old(state) else if old(state) == CloseSent then Closed else CloseReceived)
      ensures r.Ok? ==> !r.value.Drop?
    {
      var e := ReceiveError(tokenCanceled);
      if e.Some? {
        r := Err(e.value);
      } else if inbound == [] || inbound[0].Drop? {
        r := Err(TransportError);
        state := Aborted;
        inbound := if inbound == [] then [] else inbound[1..];
      } else {
        r := Ok(inbound[0]);
        inbound := inbound[1..];
        if r.value.CloseFrame? {
          state := if state == CloseSent then Closed else CloseReceived;
        }
      }
    }

    /** The effect of one send: activity is recorded first, then the message is
        transmitted if the socket accepts it.  (The frame of Send says that
        nothing else changes.) */
    twostate predicate Sent(p: Payload, now: int)
      reads this`lastActivity, this`sent, this`state, this`cancelled, this`faulty
    {
      && lastActivity == now
      && sent == (if old(SendError(cancelled)).None? then old(sent) + [Message(p)] else old(sent))
    }

    /** SendAsync, for text and for binary messages alike. */
    method Send(p: Payload, now: int) returns (r: Outcome<Error>)
      modifies this`lastActivity, this`sent
      ensures Sent(p, now)
      ensures r == AsOutcome(old(SendError(cancelled)))
    {
      lastActivity := now;
      r := SocketSend(p, cancelled);
    }

    /** The effect of CloseAsync(status, description). */
    twostate predicate Closing(status: int, description: string)
      reads this
    {
      && lastActivity == old(lastActivity) && inbound == old(inbound) && faulty == old(faulty)
      && items == old(items) && received == old(received)
      && if old(state) != Open && old(state) != CloseReceived then
           state == old(state) && sent == old(sent) && cancelled == old(cancelled)
           && disconnectedEvents == old(disconnectedEvents)
         else if old(CloseError(cancelled)).None? then
           state == Closed && sent == old(sent) + [CloseHandshake(status, description)]
           && cancelled == old(cancelled) && disconnectedEvents == old(disconnectedEvents) + 1
         else
           state == old(state) && sent == old(sent) && cancelled
           && disconnectedEvents == old(disconnectedEvents)
    }

    /** CloseAsync(status, description): only an Open or CloseReceived socket is
        closed; success raises the disconnect event, failure cancels the
        connection and the error propagates. */
    method Close(status: int, description: string) returns (r: Outcome<Error>)
      modifies this`state, this`sent, this`cancelled, this`disconnectedEvents
      ensures Closing(status, description)
      ensures r == if old(state) == Open || old(state) == CloseReceived
                   then AsOutcome(old(CloseError(cancelled))) else Pass
    {
      r := Pass;
      if state == Open || state == CloseReceived {
        r := SocketClose(status, description, cancelled);
        if r.Pass? {
          disconnectedEvents := disconnectedEvents + 1;
        } else {
          cancelled := true;
        }
      }
    }

    /** CloseAsync(): a normal closure. */
    method CloseNormally() returns (r: Outcome<Error>)
      modifies this`state, this`sent, this`cancelled, this`disconnectedEvents
      ensures Closing(NormalClosure, NormalCloseReason)
      ensures r == if old(state) == Open || old(state) == CloseReceived
                   then AsOutcome(old(CloseError(cancelled))) else Pass
    {
      r := Close(NormalClosure, NormalCloseReason);
    }

    /** The trace the receive loop follows from the present state. */
    function LoopTrace(): Trace
      reads this
    {
      if state == Open && !cancelled then ReceiveLoop(inbound) else Trace([], NotStarted, inbound, None)
    }

    /** The inner loop of StartReceiveLoop: reads the rest of a message whose
        first, full-buffer frame has been read. */
    method ReadToEndOfMessage(first: seq<byte>, kind: DataType, endOfMessage: bool) returns (a: Assembly)
      requires state == Open && !cancelled
      modifies this`state, this`inbound
      ensures a == old(Reassemble(inbound, first, kind, endOfMessage))
      ensures inbound == a.rest
      ensures state == if a.Broken? then Aborted else if a.message.messageType == MessageType.Close then CloseReceived else Open
    {
      var acc, eom := first, endOfMessage;
      var lastType: MessageType := kind;
      var broken := false;
      while !eom && !broken
        invariant !broken ==> Reassemble(inbound, acc, lastType, eom) == old(Reassemble(inbound, first, kind, endOfMessage))
        invariant broken ==> Broken(inbound) == old(Reassemble(inbound, first, kind, endOfMessage))
        invariant state == if broken then Aborted else if lastType == MessageType.Close then CloseReceived else Open
        invariant lastType == MessageType.Close ==> eom
        decreases |inbound|, if eom || broken then 0 else 1
      {
        var next := SocketReceive(cancelled);
        if next.Err? {
          broken := true;
        } else if next.value.CloseFrame? {
          lastType, eom := MessageType.Close, true;
        } else {
          acc, lastType, eom := acc + next.value.chunk, next.value.kind, next.value.endOfMessage;
        }
      }
      a := if broken then Broken(inbound) else Assembled(ReceivedMessage(lastType, acc), inbound);
    }

    /** One pass of the while loop of StartReceiveLoop: reads one frame and,
        for a data frame, the rest of its message.  `messages` and `at` are what
        the pass reports and records; the loop goes on (`running`) only after a
        message that is not a close. */
    method ReceiveNext() returns (running: bool, exit: LoopExit,
                                  ghost messages: seq<ReceivedMessage>, ghost at: Option<int>, ghost ahead: Trace)
      requires state == Open && !cancelled
      modifies this`state, this`inbound, this`lastActivity, this`received
      ensures old(ReceiveLoop(inbound)) == Extend(messages, at, ahead)
      ensures ahead == if running then ReceiveLoop(inbound) else Trace([], exit, inbound, None)
      ensures received == old(received) + messages
      ensures lastActivity == if at.Some? then at.value else old(lastActivity)
      ensures running ==> state == Open && exit == NotStarted && |inbound| < |old(inbound)|
      ensures !running ==> exit != NotStarted && state == if exit == Dropped then Aborted else CloseReceived
    {
      running, exit, messages, at := false, NotStarted, [], None;
      var result := SocketReceive(false);
      if result.Err? {
        exit := Dropped;
      } else if result.value.CloseFrame? {
        exit := PeerClosed;
      } else {
        var Data(k, chunk, eom, arrived) := result.value;
        lastActivity, at := arrived, Some(arrived);
        if |chunk| < ReceiveBufferSize {
          var m := ReceivedMessage(k, chunk);
          received, messages, running := received + [m], [m], true;
        } else {
          var a := ReadToEndOfMessage(chunk, k, eom);
          if a.Broken? {
            exit := Dropped;
          } else {
            var m := a.message;
            received, messages := received + [m], [m];
            if m.messageType == MessageType.Close {
              exit := ClosedMidMessage;
            } else {
              running := true;
            }
          }
        }
      }
      ahead := if running then ReceiveLoop(inbound) else Trace([], exit, inbound, None);
    }

    /** The while loop of StartReceiveLoop on an Open socket of a connection
        that is not cancelled: it reads until the peer closes or a receive fails,
        reporting each message and recording each first frame's activity. */
    method ReadMessages() returns (exit: LoopExit)
      requires state == Open && !cancelled
      modifies this`state, this`inbound, this`lastActivity, this`received
      ensures var t := old(ReceiveLoop(inbound));
        && exit == t.exit
        && received == old(received) + t.messages
        && inbound == t.rest
        && lastActivity == (if t.activity.Some? then t.activity.value else old(lastActivity))
      ensures exit != NotStarted
      ensures state == if exit == Dropped then Aborted else CloseReceived
    {
      ghost var t0 := ReceiveLoop(inbound);
      var running := true;
      exit := NotStarted;
      ghost var done: seq<ReceivedMessage> := [];
      ghost var activity: Option<int> := None;
      ghost var ahead := t0;
      ghost var received0, lastActivity0 := received, lastActivity;
      while running
        invariant running ==> state == Open && exit == NotStarted && ahead == ReceiveLoop(inbound)
        invariant !running ==> exit != NotStarted && state == (if exit == Dropped then Aborted else CloseReceived)
                               && ahead == Trace([], exit, inbound, None)
        invariant received == received0 + done
        invariant lastActivity == if activity.Some? then activity.value else lastActivity0
        invariant Extend(done, activity, ahead) == t0
        decreases |inbound| + (if running then 1 else 0)
      {
        ghost var messages, at, next;
        running, exit, messages, at, next := ReceiveNext();
        ExtendExtend(done, activity, messages, at, next);
        assert received == received0 + (done + messages);
        ahead := next;
        done, activity := done + messages, if at.Some? then at else activity;
      }
    }

    /** StartReceiveLoop: reports every reassembled message, closes when the
        peer closes, closes with Internal Error when a receive fails, and raises
        the disconnect event on every way out (so twice after a peer close). */
    method StartReceiveLoop() returns (r: Outcome<Error>)
      modifies this
      ensures var t := old(LoopTrace());
        && received == old(received) + t.messages
        && inbound == t.rest
        && lastActivity == (if t.activity.Some? then t.activity.value else old(lastActivity))
        && items == old(items) && faulty == old(faulty)
      ensures old(LoopTrace()).exit == NotStarted ==>
        state == old(state) && sent == old(sent) && cancelled == old(cancelled)
        && disconnectedEvents == old(disconnectedEvents) + 1 && r == Pass
      ensures old(LoopTrace()).exit == Dropped ==>
        state == Aborted && sent == old(sent) && !cancelled
        && disconnectedEvents == old(disconnectedEvents) + 1 && r == Pass
      ensures old(LoopTrace()).exit == ClosedMidMessage ==>
        state == CloseReceived && sent == old(sent) && !cancelled
        && disconnectedEvents == old(disconnectedEvents) + 1 && r == Pass
      ensures old(LoopTrace()).exit == PeerClosed && !old(faulty) ==>
        state == Closed && sent == old(sent) + [CloseHandshake(NormalClosure, NormalCloseReason)] && !cancelled
        && disconnectedEvents == old(disconnectedEvents) + 2 && r == Pass
      ensures old(LoopTrace()).exit == PeerClosed && old(faulty) ==>
        state == CloseReceived && sent == old(sent) && cancelled
        && disconnectedEvents == old(disconnectedEvents) + 1 && r == Fail(Canceled)
    {
      r := Pass;
      if state == Open && !cancelled {
        var exit := ReadMessages();
        var failure: Option<Error> := if exit == Dropped then Some(TransportError) else None;
        if exit == PeerClosed {
          var c := CloseNormally();
          if c.Fail? {
            failure := Some(c.error);
          }
        }
        if failure.Some? && failure.value != Canceled {
          var c := Close(InternalServerError, InternalErrorReason);
          if c.Fail? {
            r := c;
          }
        }
      }
      disconnectedEvents := disconnectedEvents + 1;
    }
  }
}
