/**
 The two free lists of main/MainServer.cpp and main/PortListener.cpp as one machine.

 Connections and sockets are numbered in the order they are allocated. Accepting takes
 two locked regions, so a socket can be in flight between them; closing is one step.
 */
module Recycling {

  type Conn = nat
  type Sock = nat
  type Fd = int

  const INVALID_SOCKET: Fd := -1
  const IOTHREAD_SIZE: nat := 10

  datatype Server = Server(
    active: seq<Conn>,           // activeTConnectionVector
    reuse: seq<Conn>,            // ReuseConnectionQueue
    socketOf: map<Conn, Sock>,   // socket_ of the connections that have one
    threadOf: seq<nat>,          // the I/O thread of each connection ever allocated
    selected: nat,               // selectIOThread_
    activeSocket: map<Fd, Sock>,
    reuseSockets: seq<Sock>,
    fdOf: seq<Fd>,               // socket_ of each socket ever allocated
    inFlight: set<Sock>)         // accepted, not yet handed to a connection

  const STARTED := Server([], [], map[], [], 0, map[], [], [], {})

  datatype Step =
    | Accept(fd: Fd)             // PortListener::ReuseTSocket
    | Handle(sock: Sock)         // MainServer::handlerConn
    | Close(conn: Conn)          // TConnection::close

  predicate Enabled(s: Server, step: Step) {
    match step
    case Accept(fd) => fd >= 0
    case Handle(sock) => sock in s.inFlight
    case Close(conn) => conn in s.active && conn in s.socketOf && s.socketOf[conn] < |s.fdOf|
  }

  /** The erase-remove idiom. */
  function Without(s: seq<Conn>, x: Conn): seq<Conn> {
    if s == [] then []
    else if s[0] == x then Without(s[1..], x)
    else [s[0]] + Without(s[1..], x)
  }

  /** std::map::insert leaves an entry that is already there. */
  function Insert(m: map<Fd, Sock>, fd: Fd, sock: Sock): map<Fd, Sock> {
    if fd in m then m else m[fd := sock]
  }

  function AfterAccept(s: Server, fd: Fd): Server {
    if s.reuseSockets == [] then
      s.(fdOf := s.fdOf + [fd],
         activeSocket := Insert(s.activeSocket, fd, |s.fdOf|),
         inFlight := s.inFlight + {|s.fdOf|})
    else
      var sock := s.reuseSockets[0];
      s.(reuseSockets := s.reuseSockets[1..],
         fdOf := if sock < |s.fdOf| then s.fdOf[sock := fd] else s.fdOf,
         activeSocket := Insert(s.activeSocket, fd, sock),
         inFlight := s.inFlight + {sock})
  }

  function AfterHandle(s: Server, sock: Sock): Server {
    if s.reuse == [] then
      var selected := (s.selected + 1) % IOTHREAD_SIZE;
      s.(selected := selected,
         threadOf := s.threadOf + [selected],
         socketOf := s.socketOf[|s.threadOf| := sock],
         active := s.active + [|s.threadOf|],
         inFlight := s.inFlight - {sock})
    else
      s.(reuse := s.reuse[1..],
         socketOf := s.socketOf[s.reuse[0] := sock],
         active := s.active + [s.reuse[0]],
         inFlight := s.inFlight - {sock})
  }

  function AfterClose(s: Server, conn: Conn): Server
    requires Enabled(s, Close(conn))
  {
    var sock := s.socketOf[conn];
    s.(activeSocket := s.activeSocket - {s.fdOf[sock]},
       fdOf := s.fdOf[sock := INVALID_SOCKET],
       reuseSockets := s.reuseSockets + [sock],
       active := Without(s.active, conn),
       socketOf := s.socketOf - {conn},
       reuse := s.reuse + [conn])
  }

  function After(s: Server, step: Step): Server
    requires Enabled(s, step)
  {
    match step
    case Accept(fd) => AfterAccept(s, fd)
    case Handle(sock) => AfterHandle(s, sock)
    case Close(conn) => AfterClose(s, conn)
  }

  // ---- the invariants ----

  function Times(b: bool): nat { if b then 1 else 0 }

  /** Every connection allocated is in exactly one of the two lists, once. */
  ghost predicate ConnectionsPlaced(s: Server) {
    && |s.active| + |s.reuse| == |s.threadOf|
    && forall c: Conn :: multiset(s.active)[c] + multiset(s.reuse)[c] == Times(c < |s.threadOf|)
  }

  /** The active connections, and no others, have sockets, each its own. */
  ghost predicate SocketsHeld(s: Server) {
    && (forall c :: c in s.socketOf <==> c in s.active)
    && (forall c, d | c in s.socketOf && d in s.socketOf && s.socketOf[c] == s.socketOf[d] :: c == d)
    && (forall c | c in s.socketOf :: s.socketOf[c] !in s.inFlight)
  }

  ghost predicate InUse(s: Server, k: Sock) {
    k in s.inFlight || k in s.socketOf.Values
  }

  /** A socket allocated is in use with a descriptor, or waits, once, without one. */
  ghost predicate SocketsPlaced(s: Server) {
    && |s.active| + |s.inFlight| + |s.reuseSockets| == |s.fdOf|
    && (forall k: Sock :: InUse(s, k) <==> k < |s.fdOf| && s.fdOf[k] != INVALID_SOCKET)
    && (forall k: Sock :: multiset(s.reuseSockets)[k] == Times(k < |s.fdOf| && s.fdOf[k] == INVALID_SOCKET))
  }

  /** The descriptor map is the inverse of the descriptors that the sockets hold. */
  ghost predicate MapInverts(s: Server) {
    && (forall fd | fd in s.activeSocket :: s.activeSocket[fd] < |s.fdOf| && s.fdOf[s.activeSocket[fd]] == fd >= 0)
    && (forall k: Sock | k < |s.fdOf| && s.fdOf[k] != INVALID_SOCKET ::
          s.fdOf[k] in s.activeSocket && s.activeSocket[s.fdOf[k]] == k)
  }

  ghost predicate RoundRobin(s: Server) {
    && s.selected == |s.threadOf| % IOTHREAD_SIZE
    && forall c: Conn | c < |s.threadOf| :: s.threadOf[c] == (c + 1) % IOTHREAD_SIZE
  }

  ghost predicate Inv(s: Server) {
    ConnectionsPlaced(s) && SocketsHeld(s) && SocketsPlaced(s) && MapInverts(s) && RoundRobin(s)
  }

  // ---- the erase-remove idiom ----

  lemma {:induction false} WithoutRemoves(s: seq<Conn>, x: Conn)
    ensures multiset(Without(s, x)) == multiset(s)[x := 0]
    ensures |Without(s, x)| == |s| - multiset(s)[x]
    decreases |s|
  {
    if s != [] {
      WithoutRemoves(s[1..], x);
      assert s == [s[0]] + s[1..];
    }
  }

  /** What is left keeps its order. */
  lemma {:induction false} WithoutKeepsOrder(a: seq<Conn>, x: Conn, b: seq<Conn>)
    requires x !in a && x !in b
    ensures Without(a + [x] + b, x) == a + b
    decreases |a|
  {
    var s := a + [x] + b;
    if a == [] {
      WithoutIsWhole(b, x);
      assert s[1..] == b && a + b == b;
    } else {
      WithoutKeepsOrder(a[1..], x, b);
      assert s[1..] == a[1..] + [x] + b && a + b == [a[0]] + (a[1..] + b);
    }
  }

  lemma {:induction false} WithoutIsWhole(s: seq<Conn>, x: Conn)
    requires x !in s
    ensures Without(s, x) == s
    decreases |s|
  {
    if s != [] {
      WithoutIsWhole(s[1..], x);
    }
  }

  // ---- each step keeps them ----

  lemma AcceptKeepsConnections(s: Server, fd: Fd)
    requires ConnectionsPlaced(s)
    ensures ConnectionsPlaced(AfterAccept(s, fd))
  {
  }

  lemma HandleKeepsConnections(s: Server, sock: Sock)
    requires ConnectionsPlaced(s)
    ensures ConnectionsPlaced(AfterHandle(s, sock))
  {
    if s.reuse != [] {
      assert s.reuse == [s.reuse[0]] + s.reuse[1..];
    }
  }

  lemma CloseKeepsConnections(s: Server, conn: Conn)
    requires ConnectionsPlaced(s) && Enabled(s, Close(conn))
    ensures ConnectionsPlaced(AfterClose(s, conn))
  {
    WithoutRemoves(s.active, conn);
    assert conn in multiset(s.active);
  }

  lemma AcceptKeepsHeld(s: Server, fd: Fd)
    requires SocketsHeld(s) && SocketsPlaced(s)
    ensures SocketsHeld(AfterAccept(s, fd))
  {
    if s.reuseSockets == [] {
      assert !InUse(s, |s.fdOf|);
    } else {
      var sock := s.reuseSockets[0];
      assert sock in multiset(s.reuseSockets);
      assert !InUse(s, sock);
    }
  }

  lemma HandleKeepsHeld(s: Server, sock: Sock)
    requires ConnectionsPlaced(s) && SocketsHeld(s) && Enabled(s, Handle(sock))
    ensures SocketsHeld(AfterHandle(s, sock))
  {
    var conn := if s.reuse == [] then |s.threadOf| else s.reuse[0];
    if s.reuse != [] {
      assert conn in multiset(s.reuse);
    }
    assert conn !in multiset(s.active);
  }

  lemma CloseKeepsHeld(s: Server, conn: Conn)
    requires SocketsHeld(s) && Enabled(s, Close(conn))
    ensures SocketsHeld(AfterClose(s, conn))
  {
    WithoutRemoves(s.active, conn);
    assert forall c :: c in Without(s.active, conn) <==> c in multiset(Without(s.active, conn));
    assert forall c :: c in s.active <==> c in multiset(s.active);
  }

  /** The socket an accept takes is not in use. */
  function Taken(s: Server): Sock {
    if s.reuseSockets == [] then |s.fdOf| else s.reuseSockets[0]
  }

  lemma TakenIsFree(s: Server)
    requires SocketsPlaced(s)
    ensures !InUse(s, Taken(s))
    ensures s.reuseSockets != [] ==> Taken(s) < |s.fdOf| && s.fdOf[Taken(s)] == INVALID_SOCKET
  {
    if s.reuseSockets != [] {
      assert s.reuseSockets[0] in multiset(s.reuseSockets);
    }
  }

  /** What an accept does to the sockets, whether it allocates one or takes one from the queue. */
  lemma AcceptShape(s: Server, fd: Fd)
    requires SocketsPlaced(s)
    ensures var s' := AfterAccept(s, fd); var sock := Taken(s);
      && s'.activeSocket == Insert(s.activeSocket, fd, sock)
      && s'.inFlight == s.inFlight + {sock} && s'.socketOf == s.socketOf
      && sock < |s'.fdOf| && s'.fdOf[sock] == fd
      && (forall k: Sock | k != sock :: (k < |s'.fdOf| <==> k < |s.fdOf|) && (k < |s.fdOf| ==> s'.fdOf[k] == s.fdOf[k]))
      && |s'.fdOf| - |s'.reuseSockets| == |s.fdOf| - |s.reuseSockets| + 1
      && (forall k: Sock :: multiset(s'.reuseSockets)[k] == if k == sock then 0 else multiset(s.reuseSockets)[k])
  {
    TakenIsFree(s);
    if s.reuseSockets != [] {
      assert s.reuseSockets == [s.reuseSockets[0]] + s.reuseSockets[1..];
    }
  }

  lemma AcceptKeepsSockets(s: Server, fd: Fd)
    requires SocketsPlaced(s) && Enabled(s, Accept(fd))
    ensures SocketsPlaced(AfterAccept(s, fd))
  {
    AcceptShape(s, fd);
    TakenIsFree(s);
    hide AfterAccept, Taken;
    var s' := AfterAccept(s, fd);
    forall k: Sock
      ensures InUse(s', k) <==> InUse(s, k) || k == Taken(s)
    {
    }
  }

  lemma HandleKeepsUse(s: Server, sock: Sock, k: Sock)
    requires ConnectionsPlaced(s) && SocketsHeld(s) && Enabled(s, Handle(sock))
    ensures InUse(AfterHandle(s, sock), k) <==> InUse(s, k)
  {
    var conn := if s.reuse == [] then |s.threadOf| else s.reuse[0];
    if s.reuse != [] {
      assert conn in multiset(s.reuse);
    }
    assert conn !in multiset(s.active);
    ValuesOfUpdate(s.socketOf, conn, sock);
  }

  lemma HandleKeepsSockets(s: Server, sock: Sock)
    requires ConnectionsPlaced(s) && SocketsHeld(s) && SocketsPlaced(s) && Enabled(s, Handle(sock))
    ensures SocketsPlaced(AfterHandle(s, sock))
  {
    forall k: Sock
      ensures InUse(AfterHandle(s, sock), k) <==> InUse(s, k)
    {
      HandleKeepsUse(s, sock, k);
    }
    hide InUse, ConnectionsPlaced, SocketsHeld;
  }

  lemma ValuesOfUpdate(m: map<Conn, Sock>, c: Conn, k: Sock)
    requires c !in m
    ensures m[c := k].Values == m.Values + {k}
  {
    var m' := m[c := k];
    assert forall d | d in m :: m'[d] == m[d];
    assert m'[c] == k;
  }

  lemma ValuesOfRemoval(m: map<Conn, Sock>, c: Conn)
    requires c in m && forall d, e | d in m && e in m && m[d] == m[e] :: d == e
    ensures (m - {c}).Values == m.Values - {m[c]}
  {
    var m' := m - {c};
    forall k
      ensures k in m'.Values <==> k in m.Values && k != m[c]
    {
      if k in m.Values && k != m[c] {
        var d :| d in m && m[d] == k;
        assert d in m' && m'[d] == k;
      }
    }
  }

  lemma CloseKeepsSockets(s: Server, conn: Conn)
    requires ConnectionsPlaced(s) && SocketsHeld(s) && SocketsPlaced(s) && Enabled(s, Close(conn))
    ensures SocketsPlaced(AfterClose(s, conn))
  {
    var s' := AfterClose(s, conn);
    var sock := s.socketOf[conn];
    ValuesOfRemoval(s.socketOf, conn);
    assert InUse(s, sock);
    forall k: Sock
      ensures InUse(s', k) <==> InUse(s, k) && k != sock
    {
    }
    WithoutRemoves(s.active, conn);
    assert conn in multiset(s.active);
  }

  lemma FreshAcceptKeepsMap(s: Server, s': Server, sock: Sock, fd: Fd)
    requires MapInverts(s) && fd >= 0 && fd !in s.activeSocket
    requires s'.activeSocket == s.activeSocket[fd := sock] && sock < |s'.fdOf| && s'.fdOf[sock] == fd
    requires sock < |s.fdOf| ==> s.fdOf[sock] == INVALID_SOCKET
    requires forall k: Sock | k != sock ::
      (k < |s'.fdOf| <==> k < |s.fdOf|) && (k < |s.fdOf| ==> s'.fdOf[k] == s.fdOf[k])
    ensures MapInverts(s')
  {
  }

  /** Accepting keeps the map an inverse if and only if the descriptor was not in it: insert does not overwrite. */
  lemma AcceptKeepsMapIff(s: Server, fd: Fd)
    requires SocketsPlaced(s) && MapInverts(s) && Enabled(s, Accept(fd))
    ensures MapInverts(AfterAccept(s, fd)) <==> fd !in s.activeSocket
  {
    if fd in s.activeSocket {
      AcceptShape(s, fd);
      TakenIsFree(s);
      hide AfterAccept, Taken;
      var s' := AfterAccept(s, fd);
      var k := s.activeSocket[fd];
      assert InUse(s, k);
      assert s'.activeSocket[fd] == k != Taken(s) && s'.fdOf[Taken(s)] == fd;
    } else {
      AcceptShape(s, fd);
      TakenIsFree(s);
      FreshAcceptKeepsMap(s, AfterAccept(s, fd), Taken(s), fd);
    }
  }

  lemma CloseKeepsMap(s: Server, conn: Conn)
    requires SocketsPlaced(s) && MapInverts(s) && Enabled(s, Close(conn))
    ensures MapInverts(AfterClose(s, conn))
  {
    assert InUse(s, s.socketOf[conn]);
  }

  lemma StepKeepsRoundRobin(s: Server, step: Step)
    requires RoundRobin(s) && Enabled(s, step)
    ensures RoundRobin(After(s, step))
  {
  }

  /** The operating system does not reissue a descriptor that the map still holds. */
  predicate Fresh(s: Server, step: Step) {
    step.Accept? ==> step.fd !in s.activeSocket
  }

  lemma StepKeepsInv(s: Server, step: Step)
    requires Inv(s) && Enabled(s, step) && Fresh(s, step)
    ensures Inv(After(s, step))
  {
    hide ConnectionsPlaced, SocketsHeld, SocketsPlaced, MapInverts, RoundRobin, AfterAccept, AfterHandle, AfterClose;
    StepKeepsRoundRobin(s, step);
    match step
    case Accept(fd) =>
      AcceptKeepsConnections(s, fd);
      AcceptKeepsHeld(s, fd);
      AcceptKeepsSockets(s, fd);
      AcceptKeepsMapIff(s, fd);
    case Handle(sock) =>
      HandleKeepsConnections(s, sock);
      HandleKeepsHeld(s, sock);
      HandleKeepsSockets(s, sock);
      HandleKeepsMap(s, sock);
    case Close(conn) =>
      CloseKeepsConnections(s, conn);
      CloseKeepsHeld(s, conn);
      CloseKeepsSockets(s, conn);
      CloseKeepsMap(s, conn);
  }

  lemma HandleKeepsMap(s: Server, sock: Sock)
    requires MapInverts(s)
    ensures MapInverts(AfterHandle(s, sock))
  {
  }

  /** Whoever is active may close: the step is enabled. */
  lemma ActiveMayClose(s: Server, conn: Conn)
    requires Inv(s)
    ensures Enabled(s, Close(conn)) <==> conn in s.active
  {
    if conn in s.active {
      assert InUse(s, s.socketOf[conn]);
    }
  }

  lemma ClosedIsInactive(s: Server, conn: Conn)
    requires Enabled(s, Close(conn))
    ensures conn !in AfterClose(s, conn).active
  {
    WithoutRemoves(s.active, conn);
    assert conn !in multiset(Without(s.active, conn));
  }

  /** When nothing comes between its two regions, an accept adds one connection that owns the descriptor. */
  lemma AcceptInOneGo(s: Server, fd: Fd)
    requires SocketsPlaced(s) && Enabled(s, Accept(fd)) && Fresh(s, Accept(fd))
    ensures var s' := AfterHandle(AfterAccept(s, fd), Taken(s));
      && s'.inFlight == s.inFlight && |s'.active| == |s.active| + 1
      && var conn := s'.active[|s.active|];
        conn in s'.socketOf && fd in s'.activeSocket && s'.activeSocket[fd] == s'.socketOf[conn] == Taken(s)
  {
    TakenIsFree(s);
    AcceptShape(s, fd);
  }
}
