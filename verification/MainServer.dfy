/**
 The objects of main/MainServer.cpp and main/PortListener.cpp. Pointers to connections and
 sockets are their numbers; the `socket_` field of each is an entry of a table.
 */
module ServerObjects {
  import opened Recycling
  import RecyclingProperties

  class PortListener {
    var activeSocket: map<Fd, Sock>
    var reuseSockets: seq<Sock>
    var fdOf: seq<Fd>

    constructor ()
      ensures activeSocket == map[] && reuseSockets == [] && fdOf == []
    {
      activeSocket, reuseSockets, fdOf := map[], [], [];
    }

    /** Wraps a descriptor in a waiting socket, or in a new one if none waits. */
    method ReuseTSocket(fd: Fd) returns (sock: Sock)
      requires reuseSockets != [] ==> reuseSockets[0] < |fdOf|
      modifies this
      ensures sock == if old(reuseSockets) == [] then |old(fdOf)| else old(reuseSockets)[0]
      ensures reuseSockets == if old(reuseSockets) == [] then [] else old(reuseSockets)[1..]
      ensures fdOf == if old(reuseSockets) == [] then old(fdOf) + [fd] else old(fdOf)[sock := fd]
      ensures activeSocket == Insert(old(activeSocket), fd, sock)
    {
      if reuseSockets == [] {
        sock := |fdOf|;
        fdOf := fdOf + [fd];
      } else {
        sock := reuseSockets[0];
        fdOf := fdOf[sock := fd];
        reuseSockets := reuseSockets[1..];
      }
      if fd !in activeSocket {
        activeSocket := activeSocket[fd := sock];
      }
    }

    method ReturnTSocket(sock: Sock)
      requires sock < |fdOf|
      modifies this
      ensures activeSocket == old(activeSocket) - {old(fdOf)[sock]}
      ensures fdOf == old(fdOf)[sock := INVALID_SOCKET] && reuseSockets == old(reuseSockets) + [sock]
    {
      if fdOf[sock] in activeSocket {
        activeSocket := activeSocket - {fdOf[sock]};
      }
      fdOf := fdOf[sock := INVALID_SOCKET];
      reuseSockets := reuseSockets + [sock];
    }

    /** `~PortListener`. */
    method DeleteSockets() returns (sockets: seq<Sock>)
      modifies this`reuseSockets
      ensures sockets == old(reuseSockets)
    {
      sockets := [];
      while reuseSockets != []
        invariant old(reuseSockets) == sockets + reuseSockets
        decreases |reuseSockets|
      {
        sockets := sockets + [reuseSockets[0]];
        reuseSockets := reuseSockets[1..];
      }
    }
  }

  class MainServer {
    const listener: PortListener
    var active: seq<Conn>
    var reuse: seq<Conn>
    var socketOf: map<Conn, Sock>
    var threadOf: seq<nat>
    var selected: nat
    ghost var inFlight: set<Sock>

    ghost function State(): Server
      reads this, listener
    {
      Server(active, reuse, socketOf, threadOf, selected,
             listener.activeSocket, listener.reuseSockets, listener.fdOf, inFlight)
    }

    constructor ()
      ensures State() == STARTED && Inv(State()) && fresh(listener)
    {
      listener := new PortListener();
      active, reuse, socketOf, threadOf, selected := [], [], map[], [], 0;
      inFlight := {};
      new;
      RecyclingProperties.StartedInv();
    }

    /** The first locked region of an accept, in the listener. */
    method AcceptFd(fd: Fd) returns (sock: Sock)
      requires Inv(State()) && fd >= 0 && fd !in listener.activeSocket
      modifies this`inFlight, listener
      ensures State() == After(old(State()), Accept(fd)) && Inv(State()) && sock == Taken(old(State()))
    {
      StepKeepsInv(State(), Accept(fd));
      TakenIsFree(State());
      sock := listener.ReuseTSocket(fd);
      inFlight := inFlight + {sock};
    }

    /** The second one: a connection for the socket. */
    method HandlerConn(sock: Sock)
      requires Inv(State()) && sock in inFlight
      modifies this
      ensures State() == After(old(State()), Handle(sock)) && Inv(State())
    {
      StepKeepsInv(State(), Handle(sock));
      var conn: Conn;
      if reuse == [] {
        selected := selected + 1;
        selected := selected % IOTHREAD_SIZE;
        conn := |threadOf|;
        threadOf := threadOf + [selected];
      } else {
        conn := reuse[0];
        reuse := reuse[1..];
      }
      socketOf := socketOf[conn := sock];
      active := active + [conn];
      inFlight := inFlight - {sock};
    }

    /** `do_accept`: both regions, one after the other. */
    method DoAccept(fd: Fd)
      requires Inv(State()) && fd >= 0 && fd !in listener.activeSocket
      modifies this, listener
      ensures State() == AfterHandle(AfterAccept(old(State()), fd), Taken(old(State()))) && Inv(State())
      ensures inFlight == old(inFlight) && |active| == |old(active)| + 1
      ensures var conn := active[|active| - 1];
        conn in socketOf && fd in listener.activeSocket && listener.activeSocket[fd] == socketOf[conn]
    {
      ghost var s := State();
      hide ConnectionsPlaced, SocketsHeld, SocketsPlaced, MapInverts, RoundRobin, AfterHandle, AfterAccept, Taken;
      AcceptShape(s, fd);
      AcceptInOneGo(s, fd);
      var sock := AcceptFd(fd);
      HandlerConn(sock);
    }

    predicate IsActive(conn: Conn)
      reads this
    {
      conn in active
    }

    /** `returnTConnection`, reached from `TConnection::close`. */
    method ReturnTConnection(conn: Conn)
      requires Inv(State()) && IsActive(conn)
      modifies this, listener
      ensures !IsActive(conn)
      ensures Enabled(old(State()), Close(conn)) && State() == After(old(State()), Close(conn)) && Inv(State())
    {
      ActiveMayClose(State(), conn);
      StepKeepsInv(State(), Close(conn));
      ClosedIsInactive(State(), conn);
      listener.ReturnTSocket(socketOf[conn]);
      active := Without(active, conn);
      socketOf := socketOf - {conn};
      reuse := reuse + [conn];
    }

    /** `~MainServer`, with the pointers it deletes, in order. */
    method Shutdown() returns (connections: seq<Conn>, sockets: seq<Sock>)
      modifies this, listener
      ensures connections == RecyclingProperties.FreedConnections(old(State()))
      ensures sockets == RecyclingProperties.FreedSockets(old(State()))
    {
      MoveActive();
      connections, sockets := DeleteConnections();
      var waiting := listener.DeleteSockets();
      sockets := sockets + waiting;
    }

    method MoveActive()
      modifies this`reuse
      ensures reuse == old(reuse) + active
    {
      var i := 0;
      while i < |active|
        invariant i <= |active| && reuse == old(reuse) + active[..i]
      {
        reuse := reuse + [active[i]];
        i := i + 1;
      }
    }

    /** Deleting a connection deletes its socket, if it has one. */
    method DeleteConnections() returns (connections: seq<Conn>, sockets: seq<Sock>)
      modifies this`reuse
      ensures connections == old(reuse) && sockets == RecyclingProperties.FreedWith(socketOf, connections)
    {
      connections, sockets := [], [];
      while reuse != []
        invariant old(reuse) == connections + reuse
        invariant RecyclingProperties.FreedWith(socketOf, old(reuse))
          == sockets + RecyclingProperties.FreedWith(socketOf, reuse)
        decreases |reuse|
      {
        var conn := reuse[0];
        reuse := reuse[1..];
        if conn in socketOf {
          sockets := sockets + [socketOf[conn]];
        }
        connections := connections + [conn];
      }
    }
  }
}
