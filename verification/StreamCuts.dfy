/**
 The exact condition for delivery: a stream arrives as it was sent if and only if no chunk
 boundary cuts an echo frame. A cut one is accepted before it is complete, at a size that
 reaches past the input, so that more bytes are accounted for than were received.
 */
module StreamCuts {
  import opened CrcRegister
  import opened Packages
  import opened PackageProperties
  import opened Connection
  import opened ConnectionProperties

  /** The bytes of everything delivered, discarded and waiting. */
  function Mass(c: Conn): nat {
    |RawAll(c.delivered)| + |Concat(c.discarded)| + |c.input|
  }

  lemma {:induction false} RawOfConcat(a: seq<Package>, b: seq<Package>)
    ensures RawAll(a + b) == RawAll(a) + RawAll(b)
    decreases |a|
  {
    if a == [] {
      assert a + b == b;
    } else {
      assert (a + b)[1..] == a[1..] + b;
      RawOfConcat(a[1..], b);
    }
  }

  lemma {:induction false} ConcatInTwo(a: seq<seq<byte>>, b: seq<seq<byte>>)
    ensures Concat(a + b) == Concat(a) + Concat(b)
    decreases |a|
  {
    if a == [] {
      assert a + b == b;
    } else {
      assert (a + b)[1..] == a[1..] + b;
      ConcatInTwo(a[1..], b);
    }
  }

  /** The packages that stand for the frames sent are made of exactly the bytes sent. */
  lemma {:induction false} ReceivedIsWire(fs: seq<Frame>)
    requires forall f | f in fs :: Sendable(f)
    ensures RawAll(ReceivedAll(fs)) == WireAll(fs)
    decreases |fs|
  {
    hide Wire;
    if fs != [] {
      ReceivedIsWire(fs[1..]);
    }
  }

  /** A callback never loses a byte. */
  lemma CallbackKeepsMass(c: Conn, beyond: Beyond)
    requires Idle(c)
    ensures Idle(RecvFraming(c, beyond)) && Mass(RecvFraming(c, beyond)) >= Mass(c)
  {
    var ps, blocks := EveryByteIsAccountedFor(c, beyond);
    RawOfConcat(c.delivered, ps);
    ConcatInTwo(c.discarded, blocks);
    hide RecvFraming, RawAll, Concat;
  }

  lemma {:induction false} ReceiveKeepsMass(c: Conn, chunks: seq<seq<byte>>, beyonds: seq<Beyond>)
    requires Idle(c) && |beyonds| == |chunks|
    ensures Mass(Receive(c, chunks, beyonds)) >= Mass(c) + |Concat(chunks)|
    decreases |chunks|
  {
    hide RecvFraming;
    if chunks != [] {
      var c0 := c.(input := c.input + chunks[0]);
      assert ReadCallback(c, chunks[0], beyonds[0]) == RecvFraming(c0, beyonds[0]);
      CallbackKeepsMass(c0, beyonds[0]);
      ReceiveKeepsMass(RecvFraming(c0, beyonds[0]), chunks[1..], beyonds[1..]);
    }
  }

  /** The size at which a proper prefix of an echo frame is accepted reaches past the prefix. */
  lemma CutEchoIsOversized(c: Conn, payload: seq<byte>, beyond: Beyond)
    requires |payload| < 0x10000 && c.input != [] && |c.input| < |EchoFrame(payload)|
    requires c.input == EchoFrame(payload)[..|c.input|]
    ensures Peek(c, beyond).found && Peek(c, beyond).frameSize > |c.input|
  {
    hide MultiParse, ChatParse;
    var mem := Memory(c.input, beyond, 3);
    ParseInOrder(mem, |c.input|, Parsed(false, 0, c.frameSize, c.readWant));
    assert mem[0] == c.input[0] == 0x7E;
    ChatDeclines(mem, |c.input|);
    if |c.input| >= 3 {
      Be16RoundTrip(|payload|);
      assert mem[1] == EchoFrame(payload)[1] && mem[2] == EchoFrame(payload)[2];
    }
  }

  lemma FrontKeepsMass(c: Conn, f: Frame, rest: seq<byte>, beyond: Beyond) returns (d: Conn)
    requires Idle(c) && Sendable(f) && c.input == Wire(f) + rest
    ensures Idle(d) && d.input == rest && Mass(d) == Mass(c)
    ensures RecvFraming(c, beyond) == RecvFraming(d, beyond)
  {
    d := FrontIsDelivered(c, f, rest, beyond);
    RawOfConcat(c.delivered, [Received(f)]);
    assert RawAll([Received(f)]) == Wire(f) + [];
    hide RecvFraming, Wire;
  }

  lemma {:induction false} CutRaisesMass(c: Conn, fs: seq<Frame>, y: seq<byte>, beyond: Beyond)
    requires Idle(c) && forall f | f in fs :: Sendable(f)
    requires c.input + y == WireAll(fs) && !CutAllowed(fs, |c.input|)
    ensures Mass(RecvFraming(c, beyond)) > Mass(c)
    decreases |fs|
  {
    hide Wire, Received, RecvFraming, Idle, Mass;
    var x := c.input;
    var w, tail := Wire(fs[0]), WireAll(fs[1..]);
    if |w| <= |x| {
      var x' := SplitFront(x, y, w, tail);
      var d := FrontKeepsMass(c, fs[0], x', beyond);
      CutRaisesMass(d, fs[1..], y, beyond);
    } else {
      SplitWithin(x, y, w, tail);
      CutEchoRaisesMass(c, fs[0], beyond);
    }
  }

  lemma CutEchoRaisesMass(c: Conn, f: Frame, beyond: Beyond)
    requires Idle(c) && Sendable(f) && f.EchoMessage? && c.input != [] && |c.input| < |Wire(f)|
    requires c.input == Wire(f)[..|c.input|]
    ensures Mass(RecvFraming(c, beyond)) > Mass(c)
  {
    hide MultiParse, MultiGet, RecvFraming, Memory, EchoFrame;
    CutEchoIsOversized(c, f.payload, beyond);
    AcceptedRound(c, beyond);
    AcceptedIsFetched(c, beyond);
    var p := Peek(c, beyond);
    var d := AfterFrame(c, p, beyond);
    var pkg := Fetch(c.(frameSize := p.frameSize, readWant := 0), beyond).value;
    RawOfConcat(c.delivered, [pkg]);
    assert RawAll([pkg]) == pkg.raw + [];
    CallbackKeepsMass(d, beyond);
  }

  lemma {:induction false} CutStreamRaisesMass(c: Conn, fs: seq<Frame>, chunks: seq<seq<byte>>, beyonds: seq<Beyond>)
    requires Idle(c) && |beyonds| == |chunks| && forall f | f in fs :: Sendable(f)
    requires c.input + Concat(chunks) == WireAll(fs) && !Uncut(fs, |c.input|, chunks)
    ensures Mass(Receive(c, chunks, beyonds)) > Mass(c) + |Concat(chunks)|
    decreases |chunks|
  {
    hide RecvFraming, CutAllowed, Wire, Received, Idle;
    var c0 := c.(input := c.input + chunks[0]);
    var y := Concat(chunks[1..]);
    assert c0.input + y == c.input + Concat(chunks);
    var d := RecvFraming(c0, beyonds[0]);
    assert Idle(c0) && ReadCallback(c, chunks[0], beyonds[0]) == d by { OneCallback(c, chunks[0], beyonds[0]); }
    CallbackKeepsMass(c0, beyonds[0]);
    if CutAllowed(fs, |c0.input|) {
      Settle(c0, fs, y, beyonds[0]);
      var n := Complete(fs, |c0.input|);
      LengthOfWire(fs, n);
      assert |c0.input| == |WireAll(fs[..n])| + |d.input|;
      UncutLater(fs, n, |d.input|, chunks[1..]);
      CutStreamRaisesMass(d, fs[n..], chunks[1..], beyonds[1..]);
    } else {
      CutRaisesMass(c0, fs, y, beyonds[0]);
      ReceiveKeepsMass(d, chunks[1..], beyonds[1..]);
    }
  }

  lemma OneCallback(c: Conn, chunk: seq<byte>, beyond: Beyond)
    requires Idle(c)
    ensures var c0 := c.(input := c.input + chunk);
      Idle(c0) && ReadCallback(c, chunk, beyond) == RecvFraming(c0, beyond)
  {
    hide RecvFraming;
  }

  /**
   Chat packages and echo frames arrive package for package, in order, with nothing thrown
   away and nothing left over, if and only if no chunk boundary cuts an echo frame.
   */
  lemma StreamIsDeliveredIff(c: Conn, fs: seq<Frame>, chunks: seq<seq<byte>>, beyonds: seq<Beyond>)
    requires Idle(c) && c.input == [] && c.delivered == [] && c.discarded == []
    requires |beyonds| == |chunks| && forall f | f in fs :: Sendable(f)
    requires Concat(chunks) == WireAll(fs)
    ensures var c' := Receive(c, chunks, beyonds);
      c'.delivered == ReceivedAll(fs) && c'.discarded == [] && c'.input == [] <==> Uncut(fs, 0, chunks)
  {
    hide Receive, Idle, WireAll, ReceivedAll, Uncut;
    if Uncut(fs, 0, chunks) {
      StreamIsDelivered(c, fs, chunks, beyonds);
    } else {
      assert c.input + Concat(chunks) == WireAll(fs);
      CutStreamRaisesMass(c, fs, chunks, beyonds);
      ReceivedIsWire(fs);
    }
  }
}
