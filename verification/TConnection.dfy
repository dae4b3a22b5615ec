/**
 The connection object itself: each method does to the fields what the machine in
 `Connection` does to the state, and the mutual recursion ends on every input.
 */
module ConnectionObject {
  import opened CrcRegister
  import opened Packages
  import opened Connection

  class TConnection {
    const protocol: MultipleProtocol
    var appstate: AppState
    var socketState: SocketState
    var readWant: nat
    var frameSize: nat
    var bevOpen: bool
    var input: seq<byte>
    var delivered: seq<Package>
    var discarded: seq<seq<byte>>
    var heartBeat: int          // seconds without a word after which the peer is late
    var lastUpdate: int         // time of the last read

    function State(): Conn
      reads this
    {
      Conn(appstate, socketState, readWant, frameSize, bevOpen, input, delivered, discarded)
    }

    ghost predicate Valid()
      reads this, protocol
    {
      protocol.protocols == PROTOCOLS
    }

    constructor (protocol: MultipleProtocol, now: int)
      requires protocol.protocols == PROTOCOLS
      ensures Valid() && this.protocol == protocol
      ensures State() == Conn(TransInit, SocketRecvFraming, 0, 0, true, [], [], [])
      ensures heartBeat == 30 && lastUpdate == now
    {
      this.protocol := protocol;
      heartBeat, lastUpdate := 30, now;
      appstate, socketState := TransInit, SocketRecvFraming;
      readWant, frameSize := 0, 0;
      bevOpen, input := true, [];
      delivered, discarded := [], [];
    }

    method Transition(beyond: Beyond)
      requires Valid()
      modifies this
      ensures Valid() && State() == Connection.Transition(old(State()), beyond)
      ensures lastUpdate == old(lastUpdate) && heartBeat == old(heartBeat)
      decreases |input|, TransitionRank(State())
    {
      match appstate {
        case TransInit =>
          appstate := AppInit;
          Transition(beyond);
        case AppInit =>
          socketState := SocketRecvFraming;
          appstate := AppReadFrameSize;
          WorkSocket(beyond);
        case AppReadFrameSize =>
          if readWant == 0 {
            appstate := AppReadRequest;
            Transition(beyond);
          } else {
            socketState := SocketRecv;
            appstate := AppReadRequest;
          }
        case AppReadRequest =>
          ReadRequest(beyond);
        case AppCloseConnection =>
          Close();
        case _ =>
      }
    }

    method WorkSocket(beyond: Beyond)
      requires Valid()
      modifies this
      ensures Valid() && State() == Connection.WorkSocket(old(State()), beyond)
      ensures lastUpdate == old(lastUpdate) && heartBeat == old(heartBeat)
      decreases |input|, WorkSocketRank(State())
    {
      match socketState {
        case SocketRecvFraming => RecvFraming(beyond);
        case SocketRecv => Transition(beyond);
        case SocketSend =>
      }
    }

    method RecvFraming(beyond: Beyond)
      requires Valid()
      modifies this
      ensures Valid() && State() == Connection.RecvFraming(old(State()), beyond)
      ensures lastUpdate == old(lastUpdate) && heartBeat == old(heartBeat)
      decreases |input|, RecvFramingRank(State())
    {
      if input != [] {
        var p := protocol.ParseOnePackage(Memory(input, beyond, 3), |input|, Parsed(false, 0, frameSize, readWant));
        frameSize, readWant := p.frameSize, p.readWant;
        if p.found {
          // An accepted parse always starts at the front; draining nothing is no change.
          input := Drain(input, p.framePos);
          Transition(beyond);
        } else if p.framePos > 0 {
          discarded := discarded + [input];
          input := Drain(input, p.framePos);
        }
      }
    }

    method ReadRequest(beyond: Beyond)
      requires Valid()
      modifies this
      ensures Valid() && State() == Connection.ReadRequest(old(State()), beyond)
      ensures lastUpdate == old(lastUpdate) && heartBeat == old(heartBeat)
      decreases |input|, if Live(State()) then 0 else 6
    {
      if input != [] {
        var pkg := protocol.GetOnePackage(Memory(input, beyond, Max(3, frameSize)), frameSize);
        if pkg.Some? {
          delivered := delivered + [pkg.value];
        }
      }
      input := Drain(input, frameSize);
      appstate := AppInit;
      Transition(beyond);
    }

    method Close()
      requires Valid()
      modifies this
      ensures Valid() && State() == Connection.Close(old(State()))
      ensures lastUpdate == old(lastUpdate) && heartBeat == old(heartBeat)
    {
      if bevOpen {
        bevOpen := false;
      }
      input := [];
      appstate := AppCloseConnection;
    }

    method ReadCallback(chunk: seq<byte>, beyond: Beyond, now: int)
      requires Valid() && bevOpen
      modifies this
      ensures Valid() && State() == Connection.ReadCallback(old(State()), chunk, beyond)
      ensures lastUpdate == now && heartBeat == old(heartBeat)
    {
      lastUpdate := now;
      input := input + chunk;
      WorkSocket(beyond);
    }

    /** `notified` is what `notify` would answer. */
    method HeartBeat(now: int, notified: bool)
      requires Valid()
      modifies this
      ensures Valid() && State() == Connection.HeartBeat(old(State()), old(heartBeat < now - lastUpdate), notified)
      ensures old(bevOpen) ==> (bevOpen <==> old(heartBeat >= now - lastUpdate) || notified)
      ensures lastUpdate == old(lastUpdate) && heartBeat == old(heartBeat)
    {
      appstate := AppCloseConnection;
      if heartBeat < now - lastUpdate {
        if !notified {
          Close();
        }
      }
    }
  }
}
