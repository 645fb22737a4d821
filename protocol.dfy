/** Vocabulary shared by the whole messaging core: results, bytes, the socket's
    states and frames, and the close codes the core uses.  The values mirror what
    System.Net.WebSockets surfaces for RFC 6455 connections. */
module Protocol {

  datatype Option<+T> = None | Some(value: T)

  /** The outcome of an operation that either completes or throws. */
  datatype Outcome<+E> = Pass | Fail(error: E)

  /** A value returned by an operation that may throw instead. */
  datatype Result<+T, +E> = Ok(value: T) | Err(error: E)

  /** The outcome a socket operation has when it fails with `e`, or passes. */
  function AsOutcome(e: Option<Error>): Outcome<Error>
  {
    if e.Some? then Fail(e.value) else Pass
  }

  /** Awaiting Task.WhenAll over completed tasks.  It passes when every task
      passed.  Otherwise it rethrows the exception of the first faulted task;
      only when no task faulted and one was cancelled does it raise the
      cancellation. */
  function WhenAll(tasks: seq<Outcome<Error>>): (r: Outcome<Error>)
    ensures r.Pass? <==> forall i :: 0 <= i < |tasks| ==> tasks[i].Pass?
    ensures r == Fail(TransportError) <==> exists i :: 0 <= i < |tasks| && tasks[i] == Fail(TransportError)
    ensures r.Fail? ==> exists i :: 0 <= i < |tasks| && tasks[i] == r
  {
    if tasks == [] then Pass
    else
      var rest := WhenAll(tasks[1..]);
      if tasks[0] == Fail(TransportError) || rest == Fail(TransportError) then Fail(TransportError)
      else if tasks[0].Fail? then tasks[0]
      else rest
  }

  newtype byte = b: int | 0 <= b < 256

  /** The states of a socket, as WebSocketState names them. */
  datatype SocketState = Connecting | Open | CloseSent | CloseReceived | Closed | Aborted

  /** WebSocketMessageType: the kind of a received frame or message. */
  datatype MessageType = Text | Binary | Close

  /** The kinds a data frame can carry. */
  type DataType = t: MessageType | t != Close witness Text

  /** Close status 1000, Normal Closure (section 7.4.1 of RFC 6455). */
  const NormalClosure: int := 1000

  /** Close status 1011, Internal Error (section 7.4.1 of RFC 6455). */
  const InternalServerError: int := 1011

  /** Both receive paths hand the socket a 4 KiB buffer. */
  const ReceiveBufferSize: nat := 4096

  /** What one receive can place in the buffer: never more than the buffer holds. */
  type Chunk = s: seq<byte> | |s| <= ReceiveBufferSize witness []

  /** One completed receive on a socket, in the order the peer produced them.
      A message larger than the buffer (RFC 6455 fragmentation, section 5.4, as
      .NET surfaces it) arrives as several Data results, the last with
      endOfMessage set.  Drop stands for a receive that fails because the
      transport broke. */
  datatype Inbound =
    | Data(kind: DataType, chunk: Chunk, endOfMessage: bool, arrivedAt: int)
    | CloseFrame(status: int, description: string)
    | Drop

  /** A complete outbound message, as handed to the socket in one send. */
  datatype Payload = TextPayload(text: string) | BinaryPayload(data: seq<byte>)

  /** What the socket has transmitted: messages and close handshakes. */
  datatype Outbound = Message(payload: Payload) | CloseHandshake(status: int, description: string)

  /** One reassembled inbound message, as the message-received event reports it
      (the UTF-8 decoding of text messages is not modelled). */
  datatype ReceivedMessage = ReceivedMessage(messageType: MessageType, data: seq<byte>)

  /** Failures a socket operation can raise: a transport or state error
      (WebSocketException) or a cancelled token (OperationCanceledException). */
  datatype Error = TransportError | Canceled

  /** The number a string of decimal digits denotes. */
  function DigitsValue(s: string): int
  {
    if s == [] then 0 else 10 * DigitsValue(s[..|s| - 1]) + (s[|s| - 1] as int - '0' as int)
  }

  /** Decimal digits of an integer, as System.Text.Json writes a number: a
      minus sign for a negative one, then the digits of its magnitude. */
  function IntToString(n: int): (s: string)
    ensures n >= 0 ==> |s| > 0 && s[0] != '-' && DigitsValue(s) == n
    ensures n >= 0 ==> forall i :: 0 <= i < |s| ==> '0' <= s[i] <= '9'
    ensures n < 0 ==> |s| > 1 && s[0] == '-' && DigitsValue(s[1..]) == -n && s[1] != '0'
    ensures n < 0 ==> forall i :: 1 <= i < |s| ==> '0' <= s[i] <= '9'
  {
    if n < 0 then "-" + NatToString(-n) else NatToString(n)
  }

  /** The decimal digits of `n`, without leading zeros. */
  function NatToString(n: nat): (s: string)
    ensures |s| > 0 && forall i :: 0 <= i < |s| ==> '0' <= s[i] <= '9'
    ensures DigitsValue(s) == n
    ensures s[0] == '0' ==> n == 0 && s == "0"
  {
    var digit := [('0' as int + n % 10) as char];
    if n < 10 then
      assert digit[..0] == [];
      digit
    else
      var high := NatToString(n / 10);
      assert (high + digit)[..|high + digit| - 1] == high;
      high + digit
  }
}
