/**
 An HTTP request on the wire. The connection hands a block to the HTTP server as soon as ten
 bytes are there that no package format claims, and the server parses each block with a
 context of its own (http/httpServer.cpp): nothing is carried over from block to block.
 */
module HttpDelivery {
  import opened CrcRegister
  import opened Packages
  import opened Connection
  import opened Text
  import C = ConnectionProperties
  import H = HttpProperties
  import Http
  import HttpRoundTrip

  /** The bytes of a block, as the characters of the HTTP server's buffer. */
  function Chars(bytes: seq<byte>): (s: string)
    ensures |s| == |bytes|
  {
    seq(|bytes|, i requires 0 <= i < |bytes| => (bytes[i] as int) as char)
  }

  /** `HttpServer::onMessage` gets a whole request out of the block. */
  predicate Serves(block: string, now: Http.Time) {
    var p := Http.Parse(Http.NEW_CONTEXT, block, now);
    p.ok && p.context.state == Http.GotAll
  }

  /** The text is one request and nothing more. */
  predicate IsRequest(text: string, now: Http.Time) {
    Serves(text, now) && Http.Parse(Http.NEW_CONTEXT, text, now).rest == ""
  }

  // ---- requests as texts ----

  /** Every request begins with a letter that no package begins with, and is long enough to be looked at. */
  lemma RequestsAreNotPackages(text: string, now: Http.Time)
    requires Serves(text, now)
    ensures |text| >= 15 && text[0] in {'G', 'P', 'H', 'D'}
  {
    hide FindCrlf, Find;
    var k := FindCrlf(text);
    if k < |text| {
      var line := text[..k];
      H.AcceptedReprints(Http.FRESH, line);
      var r := Http.ProcessRequestLine(Http.FRESH, line).1;
      hide Http.Parse, Http.ProcessRequestLine;
      assert line[0] == Http.MethodString(r.verb)[0];
      assert |Http.MethodString(r.verb)| >= 3 && |Http.VersionString(r.version)| == 8;
    }
  }

  /** What is printed is one request and nothing more. */
  lemma PrintedIsRequest(m: Http.Verb, target: string, v: Http.Version, fields: seq<HttpRoundTrip.Field>,
          ending: string, now: Http.Time)
    requires m != Http.Invalid && v != Http.Unknown && ' ' !in target && OneLine(target)
    requires forall f | f in fields :: HttpRoundTrip.Proper(f)
    requires OneLine(ending) && ':' !in ending
    ensures IsRequest(H.RequestLine(m, target, v) + CRLF + HttpRoundTrip.PrintFields(fields) + ending + CRLF, now)
  {
    hide Http.Parse, OneLine, HttpRoundTrip.Proper;
    var text := H.RequestLine(m, target, v) + CRLF + HttpRoundTrip.PrintFields(fields) + ending + CRLF;
    HttpRoundTrip.PrintedRequestIsParsed(m, target, v, fields, ending, "", now);
    assert text + "" == text;
  }

  /** A request cut short is not served: the parser is still waiting, whatever is missing. */
  lemma CutRequestIsNotServed(a: string, b: string, now: Http.Time)
    requires IsRequest(a + b, now) && b != ""
    ensures !Serves(a, now) && Http.Parse(Http.NEW_CONTEXT, a, now).ok
  {
    H.ResumedIsWhole(Http.NEW_CONTEXT, a, b, now);
    hide Http.Parse;
  }

  /** The parser takes the first request of a text and leaves the rest, which nobody reads again. */
  lemma OnlyTheFirstIsTaken(a: string, b: string, now: Http.Time)
    requires IsRequest(a, now)
    ensures Http.Parse(Http.NEW_CONTEXT, a + b, now) == Http.Parse(Http.NEW_CONTEXT, a, now).(rest := b)
  {
    H.ResumedIsWhole(Http.NEW_CONTEXT, a, b, now);
    hide Http.Parse;
    assert "" + b == b;
  }

  // ---- one callback ----

  predicate Unclaimed(input: seq<byte>) {
    input == [] || (input[0] != 0x7A && input[0] != 0x7E)
  }

  lemma ShortInputWaits(c: Conn, beyond: Beyond)
    requires C.Idle(c) && |c.input| < CHAT_LENGTH && Unclaimed(c.input)
    ensures var d := RecvFraming(c, beyond);
      C.Idle(d) && d.input == c.input && d.delivered == c.delivered && d.discarded == c.discarded
  {
    hide MultiParse, Recognise;
    if c.input != [] {
      C.ParseInOrder(Memory(c.input, beyond, 3), |c.input|, Parsed(false, 0, c.frameSize, c.readWant));
    }
  }

  lemma UnclaimedGoesToHttp(c: Conn, beyond: Beyond)
    requires C.Idle(c) && |c.input| >= CHAT_LENGTH && Unclaimed(c.input)
    ensures var d := RecvFraming(c, beyond);
      C.Idle(d) && d.input == [] && d.delivered == c.delivered && d.discarded == c.discarded + [c.input]
  {
    hide MultiParse, TailMatches, FromBe16;
    C.ParseInOrder(Memory(c.input, beyond, 3), |c.input|, Parsed(false, 0, c.frameSize, c.readWant));
    C.ChatDeclines(Memory(c.input, beyond, 3), |c.input|);
  }

  lemma {:induction false} DiscardedStays(c: Conn, chunks: seq<seq<byte>>, beyonds: seq<Beyond>)
    requires C.Idle(c) && |beyonds| == |chunks|
    ensures c.discarded <= C.Receive(c, chunks, beyonds).discarded
    decreases |chunks|
  {
    hide RecvFraming;
    if chunks != [] {
      var c0 := c.(input := c.input + chunks[0]);
      assert ReadCallback(c, chunks[0], beyonds[0]) == RecvFraming(c0, beyonds[0]);
      var ps, blocks := C.EveryByteIsAccountedFor(c0, beyonds[0]);
      DiscardedStays(RecvFraming(c0, beyonds[0]), chunks[1..], beyonds[1..]);
    }
  }

  lemma {:induction false} NothingMoreComes(c: Conn, chunks: seq<seq<byte>>, beyonds: seq<Beyond>)
    requires C.Idle(c) && c.input == [] && |beyonds| == |chunks| && C.Concat(chunks) == []
    ensures C.Receive(c, chunks, beyonds) == c
    decreases |chunks|
  {
    if chunks != [] {
      C.NothingToRead(c, beyonds[0]);
      assert chunks[0] == [] && c.(input := c.input + chunks[0]) == c;
      NothingMoreComes(c, chunks[1..], beyonds[1..]);
    }
  }

  // ---- the request in chunks ----

  /** Where the first block ends: as soon as ten bytes are there; `pending` bytes are already here. */
  function FirstCut(pending: nat, chunks: seq<seq<byte>>): nat
    decreases |chunks|
  {
    if chunks == [] then pending
    else
      var k := pending + |chunks[0]|;
      if k < CHAT_LENGTH then FirstCut(k, chunks[1..]) else k
  }

  /** The bytes up to the first cut make up the first block. */
  lemma {:induction false} FirstBlock(c: Conn, wire: seq<byte>, chunks: seq<seq<byte>>, beyonds: seq<Beyond>)
    requires C.Idle(c) && |beyonds| == |chunks| && c.input + C.Concat(chunks) == wire
    requires |c.input| < CHAT_LENGTH <= |wire| && Unclaimed(wire)
    ensures var cut := FirstCut(|c.input|, chunks); var c' := C.Receive(c, chunks, beyonds);
      && CHAT_LENGTH <= cut <= |wire|
      && c.discarded + [wire[..cut]] <= c'.discarded
      && (cut == |wire| ==> c'.discarded == c.discarded + [wire] && c'.delivered == c.delivered && c'.input == [])
    decreases |chunks|
  {
    hide RecvFraming, C.Idle;
    var c0 := c.(input := c.input + chunks[0]);
    var y := C.Concat(chunks[1..]);
    var x := c0.input;
    assert x + y == c.input + C.Concat(chunks) && x == wire[..|x|];
    assert C.Idle(c0) && ReadCallback(c, chunks[0], beyonds[0]) == RecvFraming(c0, beyonds[0]) by {
      OneCallback(c, chunks[0], beyonds[0]);
    }
    var d := RecvFraming(c0, beyonds[0]);
    if |x| < CHAT_LENGTH {
      ShortInputWaits(c0, beyonds[0]);
      FirstBlock(d, wire, chunks[1..], beyonds[1..]);
    } else {
      UnclaimedGoesToHttp(c0, beyonds[0]);
      if |x| == |wire| {
        assert y == [] && x == wire;
        NothingMoreComes(d, chunks[1..], beyonds[1..]);
      } else {
        DiscardedStays(d, chunks[1..], beyonds[1..]);
      }
    }
  }

  lemma OneCallback(c: Conn, chunk: seq<byte>, beyond: Beyond)
    requires C.Idle(c)
    ensures var c0 := c.(input := c.input + chunk);
      C.Idle(c0) && ReadCallback(c, chunk, beyond) == RecvFraming(c0, beyond)
  {
    hide RecvFraming;
  }

  lemma UnclaimedByLetter(wire: seq<byte>)
    requires wire != [] && Chars(wire)[0] in {'G', 'P', 'H', 'D'}
    ensures Unclaimed(wire)
  {
    assert Chars(wire)[0] == (wire[0] as int) as char;
    assert (0x7A as bv8) as int == 122 && (0x7E as bv8) as int == 126;
  }

  lemma BeginsUnclaimed(wire: seq<byte>, n: nat, now: Http.Time)
    requires n <= |wire|
    ensures IsRequest(Chars(wire[..n]), now) ==> CHAT_LENGTH <= n && Unclaimed(wire)
  {
    if IsRequest(Chars(wire[..n]), now) {
      RequestsAreNotPackages(Chars(wire[..n]), now);
      UnclaimedByLetter(wire[..n]);
    }
  }

  lemma CharsInTwo(bytes: seq<byte>, i: nat)
    requires i <= |bytes|
    ensures Chars(bytes) == Chars(bytes[..i]) + Chars(bytes[i..])
  {
  }

  lemma BlockIsServedIff(wire: seq<byte>, n: nat, cut: nat, now: Http.Time)
    requires n <= |wire| && cut <= |wire|
    ensures var p := Http.Parse(Http.NEW_CONTEXT, Chars(wire[..cut]), now);
      IsRequest(Chars(wire[..n]), now) ==>
        && (Serves(Chars(wire[..cut]), now) <==> n <= cut)
        && (n <= cut ==>
              p == Http.Parse(Http.NEW_CONTEXT, Chars(wire[..n]), now).(rest := Chars(wire[n..cut])))
        && (cut < n ==> p.ok)
  {
    if IsRequest(Chars(wire[..n]), now) {
      if n <= cut {
        CharsInTwo(wire[..cut], n);
        assert wire[..cut][..n] == wire[..n] && wire[..cut][n..] == wire[n..cut];
        OnlyTheFirstIsTaken(Chars(wire[..n]), Chars(wire[n..cut]), now);
      } else {
        CharsInTwo(wire[..n], cut);
        assert wire[..n][..cut] == wire[..cut] && wire[..n][cut..] == wire[cut..n];
        CutRequestIsNotServed(Chars(wire[..cut]), Chars(wire[cut..n]), now);
      }
      hide Http.Parse, Chars;
    }
  }

  /**
   On a fresh connection, of a stream that begins with a request of `n` bytes, the first block
   that the HTTP server is given serves that request if and only if it ends no earlier: no
   chunk may end between the tenth byte of the request and its last. Otherwise the block is a
   proper prefix, on which the parser is left waiting, and its context is gone when the rest
   arrives. What follows the request in its block, further requests included, is dropped unread.
   */
  lemma RequestIsServedIff(c: Conn, chunks: seq<seq<byte>>, beyonds: seq<Beyond>, n: nat, now: Http.Time)
    requires C.Idle(c) && c.input == [] && c.delivered == [] && c.discarded == [] && |beyonds| == |chunks|
    requires n <= |C.Concat(chunks)|
    ensures var wire, c', cut := C.Concat(chunks), C.Receive(c, chunks, beyonds), FirstCut(0, chunks);
      var first := Http.Parse(Http.NEW_CONTEXT, Chars(wire[..n]), now);
      IsRequest(Chars(wire[..n]), now) ==>
        && cut <= |wire| && c'.discarded != [] && c'.discarded[0] == wire[..cut]
        && (Serves(Chars(wire[..cut]), now) <==> n <= cut)
        && (n <= cut ==> Http.Parse(Http.NEW_CONTEXT, Chars(wire[..cut]), now) == first.(rest := Chars(wire[n..cut])))
        && (cut < n ==> Http.Parse(Http.NEW_CONTEXT, Chars(wire[..cut]), now).ok)
        && (cut == |wire| ==> c'.discarded == [wire] && c'.delivered == [] && c'.input == [])
  {
    hide C.Receive, C.Idle, FirstCut, Chars, Serves, IsRequest, Unclaimed;
    var wire := C.Concat(chunks);
    if IsRequest(Chars(wire[..n]), now) {
      BeginsUnclaimed(wire, n, now);
      FirstBlock(c, wire, chunks, beyonds);
      BlockIsServedIff(wire, n, FirstCut(0, chunks), now);
    }
  }

  /**
   A heartbeat stops packages, not requests: a muted connection still hands one to the HTTP
   server, and stays open.
   */
  lemma MutedStillServes(c: Conn, expired: bool, notified: bool, chunk: seq<byte>, beyond: Beyond, now: Http.Time)
    requires C.Idle(c) && c.input == [] && (expired ==> notified)
    ensures var d := C.Run(c, [C.Beat(expired, notified), C.Data(chunk, beyond)]);
      Serves(Chars(chunk), now) ==> d.open && d.discarded == c.discarded + [chunk] && d.delivered == c.delivered
  {
    if Serves(Chars(chunk), now) {
      var es := [C.Beat(expired, notified), C.Data(chunk, beyond)];
      RequestsAreNotPackages(Chars(chunk), now);
      UnclaimedByLetter(chunk);
      hide Serves;
      var muted := HeartBeat(c, expired, notified);
      assert es[1..] == [C.Data(chunk, beyond)] && es[1..][1..] == [];
      assert C.Run(c, es) == C.Run(muted, es[1..]) == ReadCallback(muted, chunk, beyond);
      assert muted.input + chunk == chunk;
      C.MutedCallback(muted, chunk, beyond);
      C.ChatDeclines(chunk, |chunk|);
    }
  }
}
