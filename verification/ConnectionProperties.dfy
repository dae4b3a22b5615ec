/**
 What a connection delivers: the packages that were sent, however the bytes were cut up.
 */
module ConnectionProperties {
  import opened CrcRegister
  import opened Crc
  import opened Packages
  import opened PackageProperties
  import opened Connection

  // ---- between callbacks ----

  /** The state between read callbacks once the connection is active. */
  predicate Idle(c: Conn) {
    c.open && c.app == AppReadFrameSize && c.sock == SocketRecvFraming
  }

  /** What an idle connection does with an accepted parse: drain one frame and look again. */
  function AfterFrame(c: Conn, p: Parsed, beyond: Beyond): Conn {
    var c1 := c.(frameSize := p.frameSize, readWant := p.readWant);
    var pkg := Fetch(c1, beyond);
    c1.(delivered := if pkg.Some? then c.delivered + [pkg.value] else c.delivered,
        input := Drain(c.input, p.frameSize))
  }

  lemma AcceptedRound(c: Conn, beyond: Beyond)
    requires Idle(c) && c.input != [] && Peek(c, beyond).found
    ensures RecvFraming(c, beyond) == RecvFraming(AfterFrame(c, Peek(c, beyond), beyond), beyond)
  {
    hide MultiParse, MultiGet;
    var p := Peek(c, beyond);
    var c1 := c.(frameSize := p.frameSize, readWant := p.readWant);
    assert c1.(input := Drain(c.input, 0)) == c1;
    assert RecvFraming(c, beyond) == Transition(c1, beyond);
    var c2 := c1.(app := AppReadRequest);
    assert Transition(c1, beyond) == Transition(c2, beyond) == ReadRequest(c2, beyond);
    var d := AfterFrame(c, p, beyond);
    assert Fetch(c2, beyond) == Fetch(c1, beyond);
    assert ReadRequest(c2, beyond) == Transition(d.(app := AppInit), beyond);
    assert d.(app := AppInit).(sock := SocketRecvFraming, app := AppReadFrameSize) == d;
    assert Transition(d.(app := AppInit), beyond) == WorkSocket(d, beyond) == RecvFraming(d, beyond);
  }

  // ---- the frames a peer sends ----

  datatype Frame =
    | ChatMessage(crypt: byte, dtype: byte, payload: seq<byte>)
    | EchoMessage(payload: seq<byte>)

  predicate Sendable(f: Frame) {
    if f.ChatMessage? then ChatSized(f.payload) else |f.payload| < 0x10000
  }

  function Wire(f: Frame): (s: seq<byte>)
    requires Sendable(f)
    ensures |s| >= ECHO_HEADER
  {
    if f.ChatMessage? then ChatFrame(f.crypt, f.dtype, f.payload) else EchoFrame(f.payload)
  }

  /** The package object that stands for a received frame. */
  function Received(f: Frame): Package
    requires Sendable(f)
  {
    if f.ChatMessage? then Chat(Wire(f), |f.payload|) else Echo(Wire(f), |f.payload|)
  }

  function WireAll(fs: seq<Frame>): seq<byte>
    requires forall f | f in fs :: Sendable(f)
  {
    if fs == [] then [] else Wire(fs[0]) + WireAll(fs[1..])
  }

  function ReceivedAll(fs: seq<Frame>): (ps: seq<Package>)
    requires forall f | f in fs :: Sendable(f)
    ensures |ps| == |fs|
  {
    if fs == [] then [] else [Received(fs[0])] + ReceivedAll(fs[1..])
  }

  /** Position `k` of the stream does not lie inside an echo frame. */
  predicate CutAllowed(fs: seq<Frame>, k: nat)
    requires forall f | f in fs :: Sendable(f)
  {
    if fs == [] || k == 0 then true
    else if |Wire(fs[0])| <= k then CutAllowed(fs[1..], k - |Wire(fs[0])|)
    else fs[0].ChatMessage?
  }

  /** How many frames are complete within the first `k` bytes. */
  function Complete(fs: seq<Frame>, k: nat): (n: nat)
    requires forall f | f in fs :: Sendable(f)
    ensures n <= |fs|
  {
    if fs == [] || k < |Wire(fs[0])| then 0
    else 1 + Complete(fs[1..], k - |Wire(fs[0])|)
  }

  // ---- one frame at the front of the input ----

  lemma EchoAtFront(payload: seq<byte>, rest: seq<byte>, size: nat)
    requires |payload| < 0x10000
    requires var f := EchoFrame(payload); |f| <= size <= |f + rest|
    ensures var f := EchoFrame(payload);
      && (f + rest)[0] == 0x7E && FromBe16((f + rest)[1], (f + rest)[2]) == |payload|
      && EchoGet(f + rest, size) == Some(Echo(f, |payload|))
  {
    var f := EchoFrame(payload);
    Be16RoundTrip(|payload|);
    assert (f + rest)[..|f|] == f;
  }

  lemma ChatDeclines(mem: seq<byte>, size: nat)
    requires 3 <= |mem| && size <= |mem| && mem[0] != 0x7A
    ensures ChatParse(mem, size) == Parsed(false, if size < CHAT_LENGTH then 0 else size, 0, 0)
    ensures ChatGet(mem, size) == None
  {
  }

  lemma ParseInOrder(mem: seq<byte>, size: nat, before: Parsed)
    requires 3 <= |mem| && size <= |mem|
    ensures var p := ChatParse(mem, size);
      MultiParse(PROTOCOLS, mem, size, before) == if p.found then p else EchoParse(mem, p)
  {
    var p := ChatParse(mem, size);
    assert PROTOCOLS[1..] == [EchoProtocol] && [EchoProtocol][1..] == [];
    var e := EchoParse(mem, p);
    assert MultiParse([], mem, size, e) == e.(found := false);
    assert MultiParse([EchoProtocol], mem, size, p) == if e.found then e else MultiParse([], mem, size, e);
  }

  lemma GetInOrder(mem: seq<byte>, size: nat)
    requires 3 <= |mem| && size <= |mem|
    ensures var g := ChatGet(mem, size);
      MultiGet(PROTOCOLS, mem, size) == if g.Some? then g else EchoGet(mem, size)
  {
    assert PROTOCOLS[1..] == [EchoProtocol] && [EchoProtocol][1..] == [];
    var e := EchoGet(mem, size);
    assert MultiGet([EchoProtocol], mem, size) == if e.Some? then e else MultiGet([], mem, size);
  }

  /** A complete frame at the front is accepted, and what is fetched is that frame. */
  lemma FrameAtFront(c: Conn, f: Frame, rest: seq<byte>, beyond: Beyond)
    requires Sendable(f) && c.input == Wire(f) + rest
    ensures Peek(c, beyond) == Parsed(true, 0, |Wire(f)|, 0)
    ensures Fetch(c.(frameSize := |Wire(f)|, readWant := 0), beyond) == Some(Received(f))
  {
    hide MultiParse, MultiGet, ChatParse, ChatGet, EchoGet, Recognise, ChatFrame, EchoFrame;
    var n := |Wire(f)|;
    ParseInOrder(c.input, |c.input|, Parsed(false, 0, c.frameSize, c.readWant));
    GetInOrder(c.input, n);
    if f.ChatMessage? {
      ChatAtFront(f.crypt, f.dtype, f.payload, rest, |c.input|);
      ChatAtFront(f.crypt, f.dtype, f.payload, rest, n);
    } else {
      EchoAtFront(f.payload, rest, n);
      ChatDeclines(c.input, |c.input|);
      ChatDeclines(c.input, n);
    }
  }

  lemma ChatAtFront(crypt: byte, dtype: byte, payload: seq<byte>, rest: seq<byte>, size: nat)
    requires ChatSized(payload)
    requires var f := ChatFrame(crypt, dtype, payload); |f| <= size <= |f + rest|
    ensures var f := ChatFrame(crypt, dtype, payload);
      && ChatParse(f + rest, size) == Parsed(true, 0, |f|, 0)
      && ChatGet(f + rest, size) == Some(Chat(f, |payload|))
  {
    hide Recognise, ChatFrame;
    BuiltIsRecognised(crypt, dtype, payload, rest, size);
    ChatRoundTrip(crypt, dtype, payload, rest, size);
  }

  /** Part of a chat frame is left where it is. */
  lemma PartialChatWaits(c: Conn, f: Frame, beyond: Beyond)
    requires Idle(c) && Sendable(f) && f.ChatMessage?
    requires c.input != [] && c.input <= Wire(f) && c.input != Wire(f)
    ensures var c' := RecvFraming(c, beyond);
      && Idle(c') && c'.input == c.input && c'.delivered == c.delivered && c'.discarded == c.discarded
      && (|c.input| >= CHAT_LENGTH ==> c'.frameSize == |Wire(f)| && c'.readWant == |Wire(f)| - |c.input|)
  {
    hide MultiParse, MultiGet, ChatFrame, Recognise;
    var w := Wire(f);
    var mem := Memory(c.input, beyond, 3);
    ParseInOrder(mem, |c.input|, Parsed(false, 0, c.frameSize, c.readWant));
    assert w[0] == 0x7A by { ChatFrameLayout(f.crypt, f.dtype, f.payload); }
    assert mem[0] == c.input[0] == w[0];
    if |c.input| >= CHAT_LENGTH {
      assert c.input == w[..|c.input|];
      PrefixWantsTheRest(f.crypt, f.dtype, f.payload, |c.input|);
    }
  }

  // ---- one read callback ----

  lemma FrontIsDelivered(c: Conn, f: Frame, rest: seq<byte>, beyond: Beyond) returns (d: Conn)
    requires Idle(c) && Sendable(f) && c.input == Wire(f) + rest
    ensures RecvFraming(c, beyond) == RecvFraming(d, beyond)
    ensures Idle(d) && d.input == rest && d.delivered == c.delivered + [Received(f)] && d.discarded == c.discarded
  {
    hide MultiParse, MultiGet, Wire, Received, RecvFraming, Peek, Fetch;
    FrameAtFront(c, f, rest, beyond);
    AcceptedRound(c, beyond);
    d := AfterFrame(c, Peek(c, beyond), beyond);
    assert d.input == rest;
  }

  lemma NothingToRead(c: Conn, beyond: Beyond)
    requires c.input == []
    ensures RecvFraming(c, beyond) == c
  {
  }

  lemma SplitFront(x: seq<byte>, y: seq<byte>, w: seq<byte>, tail: seq<byte>) returns (x': seq<byte>)
    requires x + y == w + tail && |w| <= |x|
    ensures x == w + x' && x' + y == tail && |x'| == |x| - |w|
  {
    x' := x[|w|..];
    assert x[..|w|] == (x + y)[..|w|] == w;
    assert x' + y == (x + y)[|w|..] == tail;
  }

  lemma SplitWithin(x: seq<byte>, y: seq<byte>, w: seq<byte>, tail: seq<byte>)
    requires x + y == w + tail && |x| < |w|
    ensures x == w[..|x|] && x <= w && x != w
  {
    assert x == (x + y)[..|x|] == w[..|x|];
  }

  /** With the front `x` of the stream in its input, an idle connection delivers the frames complete in `x`. */
  lemma {:induction false} Settle(c: Conn, fs: seq<Frame>, y: seq<byte>, beyond: Beyond)
    requires Idle(c) && forall f | f in fs :: Sendable(f)
    requires c.input + y == WireAll(fs) && CutAllowed(fs, |c.input|)
    ensures var c' := RecvFraming(c, beyond);
      var n := Complete(fs, |c.input|);
      && Idle(c')
      && c'.delivered == c.delivered + ReceivedAll(fs[..n])
      && c'.discarded == c.discarded
      && c'.input + y == WireAll(fs[n..])
    decreases |fs|
  {
    hide Wire, Received, RecvFraming, Idle;
    var x := c.input;
    if fs == [] || x == [] {
      NothingToRead(c, beyond);
      assert fs[..0] == [] && fs[0..] == fs;
    } else {
      var w, tail := Wire(fs[0]), WireAll(fs[1..]);
      if |w| <= |x| {
        var x' := SplitFront(x, y, w, tail);
        var d := FrontIsDelivered(c, fs[0], x', beyond);
        Settle(d, fs[1..], y, beyond);
        var n' := Complete(fs[1..], |x'|);
        assert fs[..n' + 1] == [fs[0]] + fs[1..][..n'] && fs[n' + 1..] == fs[1..][n'..];
      } else {
        SplitWithin(x, y, w, tail);
        PartialChatWaits(c, fs[0], beyond);
        assert fs[..0] == [] && fs[0..] == fs;
      }
    }
  }

  // ---- the whole stream, in any chunks ----

  function Concat(chunks: seq<seq<byte>>): seq<byte> {
    if chunks == [] then [] else chunks[0] + Concat(chunks[1..])
  }

  /** The read callbacks for the chunks in order; `beyond` may be different memory every time. */
  function Receive(c: Conn, chunks: seq<seq<byte>>, beyonds: seq<Beyond>): Conn
    requires |beyonds| == |chunks|
    decreases |chunks|
  {
    if chunks == [] then c
    else Receive(ReadCallback(c, chunks[0], beyonds[0]), chunks[1..], beyonds[1..])
  }

  /** No chunk boundary cuts an echo frame of what is still to come; `pending` bytes are already here. */
  predicate Uncut(fs: seq<Frame>, pending: nat, chunks: seq<seq<byte>>)
    requires forall f | f in fs :: Sendable(f)
    decreases |chunks|
  {
    chunks == [] || (CutAllowed(fs, pending + |chunks[0]|) && Uncut(fs, pending + |chunks[0]|, chunks[1..]))
  }

  lemma {:induction false} LengthOfWire(fs: seq<Frame>, n: nat)
    requires n <= |fs| && forall f | f in fs :: Sendable(f)
    ensures |WireAll(fs)| == |WireAll(fs[..n])| + |WireAll(fs[n..])|
  {
    hide Wire;
    if n == 0 {
      assert fs[..0] == [] && fs[0..] == fs;
    } else {
      LengthOfWire(fs[1..], n - 1);
      assert fs[..n][0] == fs[0] && fs[..n][1..] == fs[1..][..n - 1] && fs[n..] == fs[1..][n - 1..];
    }
  }

  /** Forgetting the frames already complete moves every position back by their length. */
  lemma {:induction false} CutAllowedLater(fs: seq<Frame>, n: nat, k: nat)
    requires n <= |fs| && forall f | f in fs :: Sendable(f)
    ensures CutAllowed(fs, |WireAll(fs[..n])| + k) <==> CutAllowed(fs[n..], k)
  {
    hide Wire;
    if n == 0 {
      assert fs[..0] == [] && fs[0..] == fs;
    } else {
      assert fs[..n][1..] == fs[1..][..n - 1] && fs[..n][0] == fs[0];
      assert WireAll(fs[..n]) == Wire(fs[..n][0]) + WireAll(fs[..n][1..]);
      CutAllowedLater(fs[1..], n - 1, k);
      assert fs[n..] == fs[1..][n - 1..];
    }
  }

  lemma {:induction false} UncutLater(fs: seq<Frame>, n: nat, k: nat, chunks: seq<seq<byte>>)
    requires n <= |fs| && forall f | f in fs :: Sendable(f)
    ensures Uncut(fs, |WireAll(fs[..n])| + k, chunks) <==> Uncut(fs[n..], k, chunks)
    decreases |chunks|
  {
    hide WireAll, CutAllowed;
    if chunks != [] {
      CutAllowedLater(fs, n, k + |chunks[0]|);
      UncutLater(fs, n, k + |chunks[0]|, chunks[1..]);
    }
  }

  lemma {:induction false} ReceivedInTwo(fs: seq<Frame>, n: nat)
    requires n <= |fs| && forall f | f in fs :: Sendable(f)
    ensures ReceivedAll(fs) == ReceivedAll(fs[..n]) + ReceivedAll(fs[n..])
  {
    hide Received;
    if n == 0 {
      assert fs[..0] == [] && fs[0..] == fs;
    } else {
      ReceivedInTwo(fs[1..], n - 1);
      assert fs[..n][0] == fs[0] && fs[..n][1..] == fs[1..][..n - 1] && fs[n..] == fs[1..][n - 1..];
      var front, middle, back := [Received(fs[0])], ReceivedAll(fs[..n][1..]), ReceivedAll(fs[n..]);
      assert front + (middle + back) == (front + middle) + back;
    }
  }

  lemma {:induction false} CompleteOfAll(fs: seq<Frame>)
    requires forall f | f in fs :: Sendable(f)
    ensures Complete(fs, |WireAll(fs)|) == |fs|
  {
    if fs != [] {
      CompleteOfAll(fs[1..]);
    }
  }

  lemma {:induction false} StreamFrom(c: Conn, fs: seq<Frame>, chunks: seq<seq<byte>>, beyonds: seq<Beyond>)
    requires Idle(c) && |beyonds| == |chunks| && forall f | f in fs :: Sendable(f)
    requires c.input + Concat(chunks) == WireAll(fs)
    requires Uncut(fs, |c.input|, chunks) && (chunks == [] ==> fs == [])
    ensures var c' := Receive(c, chunks, beyonds);
      && Idle(c') && c'.input == []
      && c'.delivered == c.delivered + ReceivedAll(fs)
      && c'.discarded == c.discarded
    decreases |chunks|
  {
    hide RecvFraming, CutAllowed, Wire, Received;
    if chunks != [] {
      var c0 := c.(input := c.input + chunks[0]);
      var y := Concat(chunks[1..]);
      assert c0.input + y == c.input + Concat(chunks);
      Settle(c0, fs, y, beyonds[0]);
      var d := RecvFraming(c0, beyonds[0]);
      assert ReadCallback(c, chunks[0], beyonds[0]) == d;
      var n := Complete(fs, |c0.input|);
      LengthOfWire(fs, n);
      assert |c0.input| == |WireAll(fs[..n])| + |d.input|;
      UncutLater(fs, n, |d.input|, chunks[1..]);
      ReceivedInTwo(fs, n);
      if chunks[1..] == [] {
        assert y == [] && c0.input == WireAll(fs);
        CompleteOfAll(fs);
      }
      StreamFrom(d, fs[n..], chunks[1..], beyonds[1..]);
    }
  }

  /**
   Any mixture of chat packages and echo frames, received in any chunks that do not cut
   an echo frame, is delivered package for package, in order, and nothing goes to HTTP.
   */
  lemma StreamIsDelivered(c: Conn, fs: seq<Frame>, chunks: seq<seq<byte>>, beyonds: seq<Beyond>)
    requires Idle(c) && c.input == [] && c.delivered == [] && c.discarded == []
    requires |beyonds| == |chunks| && forall f | f in fs :: Sendable(f)
    requires Concat(chunks) == WireAll(fs) && Uncut(fs, 0, chunks)
    ensures var c' := Receive(c, chunks, beyonds);
      Idle(c') && c'.input == [] && c'.delivered == ReceivedAll(fs) && c'.discarded == []
  {
    if chunks == [] {
      assert fs == [];
    }
    assert c.input + Concat(chunks) == WireAll(fs);
    StreamFrom(c, fs, chunks, beyonds);
  }

  /** With chat packages only, the chunks may be cut anywhere. */
  lemma {:induction false} ChatIsNeverCut(fs: seq<Frame>, k: nat)
    requires forall f | f in fs :: Sendable(f) && f.ChatMessage?
    ensures CutAllowed(fs, k)
    decreases |fs|
  {
    if fs != [] && |Wire(fs[0])| <= k {
      ChatIsNeverCut(fs[1..], k - |Wire(fs[0])|);
    }
  }

  lemma {:induction false} ChatChunksAreUncut(fs: seq<Frame>, pending: nat, chunks: seq<seq<byte>>)
    requires forall f | f in fs :: Sendable(f) && f.ChatMessage?
    ensures Uncut(fs, pending, chunks)
    decreases |chunks|
  {
    if chunks != [] {
      ChatIsNeverCut(fs, pending + |chunks[0]|);
      ChatChunksAreUncut(fs, pending + |chunks[0]|, chunks[1..]);
    }
  }

  // ---- every input ----

  function RawAll(ps: seq<Package>): seq<byte> {
    if ps == [] then [] else ps[0].raw + RawAll(ps[1..])
  }

  /** What the callback took off the front of `input`, package by package and then block by block. */
  ghost predicate Accounts(c: Conn, c': Conn, ps: seq<Package>, blocks: seq<seq<byte>>, beyond: Beyond) {
    && c'.delivered == c.delivered + ps
    && c'.discarded == c.discarded + blocks
    && |blocks| <= 1 && (blocks != [] ==> c'.input == [])
    && RawAll(ps) + Concat(blocks) + c'.input == Memory(c.input, beyond, |RawAll(ps)|)
  }

  lemma ChatFetched(mem: seq<byte>, size: nat)
    requires 3 <= |mem| && size <= |mem| && ChatParse(mem, size).found
    ensures var n := ChatParse(mem, size).frameSize;
      CHAT_LENGTH < n <= size && ChatGet(mem, n) == Some(Chat(mem[..n], (n - CHAT_LENGTH) % 0x10000))
  {
    hide TailMatches;
  }

  lemma EchoFetched(mem: seq<byte>, before: Parsed, all: seq<byte>)
    requires 3 <= |mem| && EchoParse(mem, before).found
    requires EchoParse(mem, before).frameSize <= |all| && mem[..3] == all[..3]
    ensures var n := EchoParse(mem, before).frameSize;
      ChatGet(all, n) == None && EchoGet(all, n).Some? && EchoGet(all, n).value.raw == all[..n]
  {
    hide FromBe16, ChatGet, ChatParse;
    var n := EchoParse(mem, before).frameSize;
    assert all[0] == mem[..3][0] && all[1] == mem[..3][1] && all[2] == mem[..3][2];
    ChatDeclines(all, n);
  }

  /** An accepted parse always yields a package made of exactly the bytes that are then drained. */
  lemma AcceptedIsFetched(c: Conn, beyond: Beyond)
    requires c.input != [] && Peek(c, beyond).found
    ensures var n := Peek(c, beyond).frameSize;
      var pkg := Fetch(c.(frameSize := n, readWant := 0), beyond);
      n >= 3 && pkg.Some? && pkg.value.raw == Memory(c.input, beyond, n)[..n]
  {
    hide MultiParse, MultiGet, ChatParse, ChatGet, EchoParse, EchoGet, Memory, Past;
    var mem, size := Memory(c.input, beyond, 3), |c.input|;
    ParseInOrder(mem, size, Parsed(false, 0, c.frameSize, c.readWant));
    var n := Peek(c, beyond).frameSize;
    var all := Memory(c.input, beyond, n);
    GetInOrder(all, n);
    if ChatParse(mem, size).found {
      ChatFetched(mem, size);
      assert mem == c.input == all;
    } else {
      MemoryStart(c.input, beyond, n);
      EchoFetched(mem, ChatParse(mem, size), all);
    }
  }

  lemma MemoryStart(input: seq<byte>, beyond: Beyond, n: nat)
    requires 3 <= n
    ensures Memory(input, beyond, 3)[..3] == Memory(input, beyond, n)[..3]
  {
  }

  lemma MemoryInTwo(input: seq<byte>, beyond: Beyond, n: nat, r: nat)
    requires n <= |input| || r == 0
    ensures Memory(input, beyond, n + r) == Memory(input, beyond, n)[..n] + Memory(Drain(input, n), beyond, r)
  {
    hide Past;
    if n <= |input| {
      assert input == input[..n] + input[n..];
      if |input| < n + r {
        assert n + r - |input| == r - |input[n..]|;
        assert Memory(input, beyond, n + r) == input[..n] + (input[n..] + Past(beyond, n + r - |input|));
      }
    }
  }

  lemma DiscardsEverything(c: Conn, beyond: Beyond)
    requires c.input != [] && !Peek(c, beyond).found && Peek(c, beyond).framePos > 0
    ensures Peek(c, beyond).framePos == |c.input|
  {
    hide MultiParse, Recognise;
    ParseInOrder(Memory(c.input, beyond, 3), |c.input|, Parsed(false, 0, c.frameSize, c.readWant));
  }

  lemma FourParts(a: seq<byte>, b: seq<byte>, c: seq<byte>, d: seq<byte>)
    ensures (a + b) + c + d == a + (b + c + d)
  {
  }

  lemma AccountsForFrame(c: Conn, d: Conn, c': Conn, pkg: Package, n: nat, ps: seq<Package>,
          blocks: seq<seq<byte>>, beyond: Beyond)
    requires d.input == Drain(c.input, n) && d.delivered == c.delivered + [pkg] && d.discarded == c.discarded
    requires pkg.raw == Memory(c.input, beyond, n)[..n]
    requires Accounts(d, c', ps, blocks, beyond)
    requires d.input == [] ==> ps == []
    ensures Accounts(c, c', [pkg] + ps, blocks, beyond)
  {
    hide Memory, Past, Concat;
    var r := |RawAll(ps)|;
    assert RawAll([pkg] + ps) == pkg.raw + RawAll(ps) by {
      assert ([pkg] + ps)[1..] == ps;
    }
    MemoryInTwo(c.input, beyond, n, r);
    FourParts(pkg.raw, RawAll(ps), Concat(blocks), c'.input);
  }

  /**
   On every input, well formed or not, an idle connection stays idle, and each byte it
   takes belongs to exactly one delivered package or to the one block it discards. Only
   an echo frame that has not arrived in full reads past the input.
   */
  lemma {:induction false} EveryByteIsAccountedFor(c: Conn, beyond: Beyond)
    returns (ps: seq<Package>, blocks: seq<seq<byte>>)
    requires Idle(c)
    ensures Idle(RecvFraming(c, beyond))
    ensures Accounts(c, RecvFraming(c, beyond), ps, blocks, beyond)
    decreases |c.input|
  {
    hide MultiParse, MultiGet, Fetch;
    ps, blocks := [], [];
    if c.input != [] {
      var p := Peek(c, beyond);
      if p.found {
        AcceptedRound(c, beyond);
        AcceptedIsFetched(c, beyond);
        var d := AfterFrame(c, p, beyond);
        var pkg := Fetch(c.(frameSize := p.frameSize, readWant := 0), beyond).value;
        ps, blocks := EveryByteIsAccountedFor(d, beyond);
        if d.input == [] && ps != [] {
          NothingToRead(d, beyond);
          assert false;
        }
        AccountsForFrame(c, d, RecvFraming(d, beyond), pkg, p.frameSize, ps, blocks, beyond);
        ps := [pkg] + ps;
      } else if p.framePos > 0 {
        blocks := [c.input];
        DiscardsEverything(c, beyond);
        assert Concat(blocks) == c.input + [];
      }
    }
    assert ps == [] ==> c.delivered + ps == c.delivered;
    assert blocks == [] ==> c.discarded + blocks == c.discarded;
  }

  lemma DiscardedIsShorter(d: Conn, beyond: Beyond, n: nat)
    requires Idle(d) && |d.input| < n
    ensures forall block | RecvFraming(d, beyond).discarded == d.discarded + [block] :: |block| < n
  {
    var ps, blocks := EveryByteIsAccountedFor(d, beyond);
    hide RecvFraming, Memory, RawAll;
    forall block | RecvFraming(d, beyond).discarded == d.discarded + [block]
      ensures |block| < n
    {
      assert blocks == [block] by {
        assert (d.discarded + blocks)[|d.discarded|..] == blocks && (d.discarded + [block])[|d.discarded|..] == [block];
      }
      assert blocks[1..] == [] && Concat(blocks) == block + [];
    }
  }

  /** The HTTP server gets an input whole if and only if it has ten bytes and neither format claims its front. */
  lemma GoesToHttpIff(c: Conn, beyond: Beyond)
    requires Idle(c) && c.input != []
    ensures RecvFraming(c, beyond).discarded == c.discarded + [c.input] <==>
      |c.input| >= CHAT_LENGTH && Recognise(c.input, |c.input|) == NotAPackage && c.input[0] != 0x7E
  {
    hide MultiParse, Recognise;
    var p := Peek(c, beyond);
    ParseInOrder(Memory(c.input, beyond, 3), |c.input|, Parsed(false, 0, c.frameSize, c.readWant));
    if p.found {
      AcceptedRound(c, beyond);
      DiscardedIsShorter(AfterFrame(c, p, beyond), beyond, |c.input|);
    }
  }

  // ---- runs ----

  datatype Event =
    | Data(chunk: seq<byte>, beyond: Beyond)
    | Beat(expired: bool, notified: bool)
    | Woken(beyond: Beyond)
    | Broken

  /** Events on a connection whose bufferevent has been freed no longer reach it. */
  function Handle(c: Conn, e: Event): Conn {
    if !c.open then c
    else match e
      case Data(chunk, beyond) => ReadCallback(c, chunk, beyond)
      case Beat(expired, notified) => HeartBeat(c, expired, notified)
      case Woken(beyond) => Transition(c, beyond)
      case Broken => Close(c)
  }

  function Run(c: Conn, es: seq<Event>): Conn
    decreases |es|
  {
    if es == [] then c else Run(Handle(c, es[0]), es[1..])
  }

  /** A new connection, enabled once and then only read from, is idle after every callback. */
  lemma {:induction false} ActiveStaysIdle(c: Conn, woken: Beyond, es: seq<Event>)
    requires c.open && c.app == TransInit && c.input == []
    requires forall e | e in es :: e.Data?
    ensures Idle(Run(c, [Woken(woken)] + es))
  {
    var c1 := c.(app := AppReadFrameSize, sock := SocketRecvFraming);
    NothingToRead(c1, woken);
    assert Transition(c, woken) == Transition(c.(app := AppInit), woken) == WorkSocket(c1, woken) == c1;
    assert ([Woken(woken)] + es)[1..] == es;
    IdleUnderData(c1, es);
  }

  lemma {:induction false} IdleUnderData(c: Conn, es: seq<Event>)
    requires Idle(c) && forall e | e in es :: e.Data?
    ensures Idle(Run(c, es))
    decreases |es|
  {
    if es != [] {
      var c0 := c.(input := c.input + es[0].chunk);
      var ps, blocks := EveryByteIsAccountedFor(c0, es[0].beyond);
      IdleUnderData(Handle(c, es[0]), es[1..]);
    }
  }

  /** The state after a heartbeat: closing has been ordered, whether or not the peer was late. */
  predicate Muted(c: Conn) {
    c.open ==> c.app == AppCloseConnection && c.sock == SocketRecvFraming
  }

  /** Whether one of the formats accepts the front of the input. */
  predicate Claimed(x: seq<byte>) {
    x != [] && (x[0] == 0x7E || (|x| >= CHAT_LENGTH && Recognise(x, |x|).Whole?))
  }

  /**
   What an open connection does with a chunk after a heartbeat: it closes if a format accepts
   the input, and does not deliver; an input that no format will ever accept is still handed to
   the HTTP server, and the connection stays open; anything else waits.
   */
  lemma MutedCallback(c: Conn, chunk: seq<byte>, beyond: Beyond)
    requires c.open && c.app == AppCloseConnection && c.sock == SocketRecvFraming
    ensures var x, d := c.input + chunk, ReadCallback(c, chunk, beyond);
      && d.delivered == c.delivered && d.app == AppCloseConnection
      && (d.open <==> !Claimed(x))
      && (if d.open && |x| >= CHAT_LENGTH && Recognise(x, |x|) == NotAPackage
          then d.discarded == c.discarded + [x] && d.input == []
          else d.discarded == c.discarded && d.input == if d.open then x else [])
  {
    hide MultiParse, Recognise;
    var c0 := c.(input := c.input + chunk);
    assert ReadCallback(c, chunk, beyond) == RecvFraming(c0, beyond);
    if c0.input != [] {
      ParseInOrder(Memory(c0.input, beyond, 3), |c0.input|, Parsed(false, 0, c0.frameSize, c0.readWant));
      var p := Peek(c0, beyond);
      if p.found {
        var c1 := c0.(frameSize := p.frameSize, readWant := p.readWant, input := Drain(c0.input, p.framePos));
        assert RecvFraming(c0, beyond) == Transition(c1, beyond) == Close(c1);
      }
    }
  }

  lemma MutedStep(c: Conn, e: Event)
    requires Muted(c)
    ensures Muted(Handle(c, e)) && Handle(c, e).delivered == c.delivered
  {
    hide MultiParse;
    if c.open && e.Data? {
      var c0 := c.(input := c.input + e.chunk);
      assert ReadCallback(c, e.chunk, e.beyond) == RecvFraming(c0, e.beyond);
      if c0.input != [] && Peek(c0, e.beyond).found {
        var p := Peek(c0, e.beyond);
        var c1 := c0.(frameSize := p.frameSize, readWant := p.readWant, input := Drain(c0.input, p.framePos));
        assert RecvFraming(c0, e.beyond) == Transition(c1, e.beyond) == Close(c1);
      }
    }
  }

  lemma {:induction false} MutedRun(c: Conn, es: seq<Event>)
    requires Muted(c)
    ensures Muted(Run(c, es)) && Run(c, es).delivered == c.delivered
    decreases |es|
  {
    if es != [] {
      MutedStep(c, es[0]);
      MutedRun(Handle(c, es[0]), es[1..]);
    }
  }

  /** One heartbeat, even on a connection that was heard from in time, ends all delivery. */
  lemma HeartBeatEndsDelivery(c: Conn, expired: bool, notified: bool, es: seq<Event>)
    requires Idle(c)
    ensures Run(c, [Beat(expired, notified)] + es).delivered == c.delivered
  {
    assert ([Beat(expired, notified)] + es)[1..] == es;
    MutedRun(Handle(c, Beat(expired, notified)), es);
  }

  lemma {:induction false} ClosedIsFinal(c: Conn, es: seq<Event>)
    requires !c.open
    ensures Run(c, es) == c
    decreases |es|
  {
    if es != [] {
      ClosedIsFinal(c, es[1..]);
    }
  }

  /**
   A heartbeat closes an open connection if and only if the peer is late and could not be
   notified. A closed connection has no input, and nothing that happens later changes it; one
   that stays open keeps its input and everything delivered and discarded.
   */
  lemma HeartBeatClosesIff(c: Conn, expired: bool, notified: bool, es: seq<Event>)
    requires c.open
    ensures var d := Run(c, [Beat(expired, notified)]);
      && (d.open <==> !(expired && !notified)) && d.app == AppCloseConnection
      && d.delivered == c.delivered && d.discarded == c.discarded
      && (if d.open then d.input == c.input
          else d.input == [] && Run(c, [Beat(expired, notified)] + es) == d)
  {
    var beat := [Beat(expired, notified)];
    var d := Handle(c, beat[0]);
    assert beat[1..] == [] && (beat + es)[1..] == es;
    assert Run(c, beat) == Run(d, []) == d;
    if !d.open {
      ClosedIsFinal(d, es);
    }
  }

  /** A heartbeat that notifies the connection's thread closes the connection when that thread wakes. */
  lemma NotifiedCloses(c: Conn, expired: bool, beyond: Beyond, es: seq<Event>)
    requires c.open
    ensures var d := Run(c, [Beat(expired, true), Woken(beyond)]);
      && !d.open && d.input == [] && d.app == AppCloseConnection
      && d.delivered == c.delivered && d.discarded == c.discarded
      && Run(c, [Beat(expired, true), Woken(beyond)] + es) == d
  {
    var beat, woken := Beat(expired, true), Woken(beyond);
    var c1 := Handle(c, beat);
    var d := Handle(c1, woken);
    assert [beat, woken][1..] == [woken] && [woken][1..] == [];
    assert ([beat, woken] + es)[1..] == [woken] + es && ([woken] + es)[1..] == es;
    assert d == Close(c1) && Run(c, [beat, woken]) == Run(c1, [woken]) == Run(d, []) == d;
    ClosedIsFinal(d, es);
  }

  /** When the peer goes away the connection is closed for good, whatever it had received. */
  lemma BrokenIsFinal(c: Conn, es: seq<Event>)
    requires c.open
    ensures var d := Run(c, [Broken]);
      && !d.open && d.input == [] && d.app == AppCloseConnection
      && d.delivered == c.delivered && d.discarded == c.discarded
      && Run(c, [Broken] + es) == d
  {
    var d := Handle(c, Broken);
    assert [Broken][1..] == [] && ([Broken] + es)[1..] == es;
    assert Run(c, [Broken]) == Run(d, []) == d;
    ClosedIsFinal(d, es);
  }
}
