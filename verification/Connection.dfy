/**
 The framing state machine of main/TConnection.cpp.

 The bufferevent's input is one contiguous byte string; a read event appends a chunk to
 it. `beyond` stands for whatever memory follows that string, which the recognisers may
 touch. A package handed over for processing is recorded in `delivered`; an input given
 to the HTTP server and thrown away is recorded in `discarded`.
 */
module Connection {
  import opened CrcRegister
  import opened Packages

  datatype AppState =
    | TransInit | AppInit | AppReadFrameSize | AppReadRequest
    | AppWaitTask | AppSendResult | AppCloseConnection

  datatype SocketState = SocketRecvFraming | SocketRecv | SocketSend

  datatype Conn = Conn(
    app: AppState,
    sock: SocketState,
    readWant: nat,
    frameSize: nat,
    open: bool,
    input: seq<byte>,
    delivered: seq<Package>,
    discarded: seq<seq<byte>>)

  type Beyond = nat -> byte

  /** The protocols in the order the server adds them. */
  const PROTOCOLS: seq<Protocol> := [ChatProtocol, EchoProtocol]

  /** At least `n` bytes of memory from the start of the input. */
  function Memory(input: seq<byte>, beyond: Beyond, n: nat): (mem: seq<byte>)
    ensures input <= mem && |mem| == if |input| < n then n else |input|
  {
    if |input| < n then input + Past(beyond, n - |input|) else input
  }

  function Past(beyond: Beyond, k: nat): (s: seq<byte>)
    ensures |s| == k
  {
    seq(k, i requires 0 <= i => beyond(i))
  }

  function Drain(input: seq<byte>, n: nat): (rest: seq<byte>)
    ensures |rest| == if n <= |input| then |input| - n else 0
  {
    if n <= |input| then input[n..] else []
  }

  function Max(a: nat, b: nat): nat { if a < b then b else a }

  // ---- ranks: how many calls can follow before input must be drained ----

  predicate Live(c: Conn) { c.frameSize > 0 && c.input != [] }

  function TransitionRank(c: Conn): nat {
    match c.app
    case TransInit => 6
    case AppInit => 5
    case AppReadFrameSize => if Live(c) then 2 else 8
    case AppReadRequest => if Live(c) then 1 else 7
    case _ => 0
  }

  function RecvFramingRank(c: Conn): nat {
    match c.app
    case TransInit => 7
    case AppInit => 6
    case AppReadFrameSize => 3
    case AppReadRequest => 2
    case _ => 1
  }

  function WorkSocketRank(c: Conn): nat {
    match c.sock
    case SocketRecvFraming => RecvFramingRank(c) + 1
    case SocketRecv => TransitionRank(c) + 1
    case SocketSend => 0
  }

  // ---- the machine ----

  function Close(c: Conn): Conn {
    c.(open := false, input := [], app := AppCloseConnection)
  }

  function Transition(c: Conn, beyond: Beyond): Conn
    decreases |c.input|, TransitionRank(c)
  {
    match c.app
    case TransInit => Transition(c.(app := AppInit), beyond)
    case AppInit => WorkSocket(c.(sock := SocketRecvFraming, app := AppReadFrameSize), beyond)
    case AppReadFrameSize =>
      if c.readWant == 0 then Transition(c.(app := AppReadRequest), beyond)
      else c.(sock := SocketRecv, app := AppReadRequest)
    case AppReadRequest => ReadRequest(c, beyond)
    case AppCloseConnection => Close(c)
    case _ => c
  }

  function WorkSocket(c: Conn, beyond: Beyond): Conn
    decreases |c.input|, WorkSocketRank(c)
  {
    match c.sock
    case SocketRecvFraming => RecvFraming(c, beyond)
    case SocketRecv => Transition(c, beyond)
    case SocketSend => c
  }

  function Peek(c: Conn, beyond: Beyond): Parsed {
    MultiParse(PROTOCOLS, Memory(c.input, beyond, 3), |c.input|, Parsed(false, 0, c.frameSize, c.readWant))
  }

  function RecvFraming(c: Conn, beyond: Beyond): Conn
    decreases |c.input|, RecvFramingRank(c)
  {
    if c.input == [] then c
    else
      var p := Peek(c, beyond);
      var c1 := c.(frameSize := p.frameSize, readWant := p.readWant);
      if p.found then Transition(c1.(input := Drain(c.input, p.framePos)), beyond)
      else if p.framePos > 0 then c1.(discarded := c.discarded + [c.input], input := Drain(c.input, p.framePos))
      else c1
  }

  function Fetch(c: Conn, beyond: Beyond): Option<Package> {
    if c.input == [] then None
    else MultiGet(PROTOCOLS, Memory(c.input, beyond, Max(3, c.frameSize)), c.frameSize)
  }

  function ReadRequest(c: Conn, beyond: Beyond): Conn
    decreases |c.input|, if Live(c) then 0 else 6
  {
    var pkg := Fetch(c, beyond);
    Transition(c.(delivered := if pkg.Some? then c.delivered + [pkg.value] else c.delivered,
                  input := Drain(c.input, c.frameSize),
                  app := AppInit), beyond)
  }

  /** The read callback, after `chunk` has been appended to the input. */
  function ReadCallback(c: Conn, chunk: seq<byte>, beyond: Beyond): Conn {
    WorkSocket(c.(input := c.input + chunk), beyond)
  }

  function HeartBeat(c: Conn, expired: bool, notified: bool): Conn {
    var c1 := c.(app := AppCloseConnection);
    if expired && !notified then Close(c1) else c1
  }
}
