/** What the HTTP parser is for: one meaning per text, however the text arrives. */
module HttpProperties {
  import opened Http
  import opened Text

  // ---- the request line ----

  lemma MethodNames(m: Verb, s: string)
    ensures MethodNamed(MethodString(m)) == m
    ensures MethodNamed(s) != Invalid ==> MethodString(MethodNamed(s)) == s
    ensures ' ' !in MethodString(m)
  {
  }

  /** The names themselves. */
  lemma NamesAreFixed()
    ensures MethodNamed("GET") == Get && MethodNamed("POST") == Post && MethodNamed("HEAD") == Head
    ensures MethodNamed("PUT") == Put && MethodNamed("DELETE") == Delete
    ensures VersionString(Http10) == "HTTP/1.0" && VersionString(Http11) == "HTTP/1.1"
  {
  }

  function RequestLine(m: Verb, target: string, v: Version): string {
    MethodString(m) + " " + target + " " + VersionString(v)
  }

  /** The lines section 3 of RFC 9112 allows with the methods and versions known here. */
  ghost predicate IsRequestLine(line: string) {
    exists m, target, v ::
      m != Invalid && v != Unknown && ' ' !in target && line == RequestLine(m, target, v)
  }

  lemma TargetIsSplit(r: Request, target: string)
    requires r.query == ""
    ensures var r' := SetTarget(r, target);
      && r' == r.(path := r'.path, query := r'.query)
      && r'.path + r'.query == target
      && '?' !in r'.path
      && (r'.query == "" || r'.query[0] == '?')
  {
    FindNone(target, '?');
  }

  lemma VersionIsRead(r: Request, version: string)
    ensures var (ok, r') := SetVersion(r, version);
      && (ok ==> r' == r.(version := r'.version) && r'.version != Unknown && version == VersionString(r'.version))
      && (!ok ==> r' == r && version != "HTTP/1.0" && version != "HTTP/1.1")
  {
    if |version| == 8 && version[..7] == "HTTP/1." {
      assert version == version[..7] + [version[7]];
    }
  }

  lemma VersionIsSet(r: Request, v: Version)
    requires v != Unknown
    ensures SetVersion(r, VersionString(v)) == (true, r.(version := v))
  {
    assert VersionString(v)[..7] == "HTTP/1.";
  }

  /** What is accepted is a request line, and its parts print to exactly that line. */
  lemma AcceptedReprints(r: Request, line: string)
    requires r.query == "" && ProcessRequestLine(r, line).0
    ensures var r' := ProcessRequestLine(r, line).1;
      && r'.verb != Invalid && r'.version != Unknown && ' ' !in r'.path + r'.query
      && line == RequestLine(r'.verb, r'.path + r'.query, r'.version)
      && '?' !in r'.path && (r'.query == "" || r'.query[0] == '?')
      && r'.headers == r.headers && r'.receiveTime == r.receiveTime
  {
    hide MethodNamed, MethodString, SetTarget, SetVersion, VersionString, Find;
    var space := Find(line, ' ');
    var rest := line[space + 1..];
    var second := Find(rest, ' ');
    var r1 := r.(verb := MethodNamed(line[..space]));
    MethodNames(r1.verb, line[..space]);
    TargetIsSplit(r1, rest[..second]);
    VersionIsRead(SetTarget(r1, rest[..second]), rest[second + 1..]);
    FindNone(rest, ' ');
    TwoCuts(line, ' ');
  }

  lemma TwoCuts(s: string, c: char)
    requires var k := Find(s, c); k < |s| && Find(s[k + 1..], c) < |s[k + 1..]|
    ensures var k := Find(s, c); var rest := s[k + 1..]; var l := Find(rest, c);
      s == s[..k] + [c] + rest[..l] + [c] + rest[l + 1..]
  {
    hide Find;
  }

  lemma RequestLineIsAccepted(r: Request, m: Verb, target: string, v: Version)
    requires r.query == "" && m != Invalid && v != Unknown && ' ' !in target
    ensures ProcessRequestLine(r, RequestLine(m, target, v)) ==
      (true, SetTarget(r.(verb := m), target).(version := v))
  {
    hide MethodNamed, MethodString, SetTarget, SetVersion, VersionString, Find;
    var line := RequestLine(m, target, v);
    var name := MethodString(m);
    MethodNames(m, name);
    assert line[..|name|] == name;
    FindIs(line, ' ', |name|);
    var rest := line[|name| + 1..];
    assert rest == target + " " + VersionString(v);
    assert rest[..|target|] == target && rest[|target| + 1..] == VersionString(v);
    FindIs(rest, ' ', |target|);
    TargetIsSplit(r.(verb := m), target);
    VersionIsSet(SetTarget(r.(verb := m), target), v);
  }

  /** What a rejected line leaves in the request: its method, and its target if it has one. */
  lemma RejectedLineSets(r: Request, name: string, target: string, version: string)
    requires ' ' !in name && ' ' !in target && version != "HTTP/1.0" && version != "HTTP/1.1"
    ensures ProcessRequestLine(r, name) == (false, r)
    ensures ProcessRequestLine(r, name + " " + target) == (false, r.(verb := MethodNamed(name)))
    ensures var named := r.(verb := MethodNamed(name));
      ProcessRequestLine(r, name + " " + target + " " + version)
        == (false, if named.verb == Invalid then named else SetTarget(named, target))
  {
    hide MethodNamed, SetTarget, SetVersion, Find;
    FindNone(name, ' ');
    var short := name + " " + target;
    assert short[..|name|] == name && short[|name| + 1..] == target;
    FindIs(short, ' ', |name|);
    FindNone(target, ' ');
    var line := short + " " + version;
    var rest := target + " " + version;
    assert line[..|name|] == name && line[|name| + 1..] == rest;
    FindIs(line, ' ', |name|);
    assert rest[..|target|] == target && rest[|target| + 1..] == version;
    FindIs(rest, ' ', |target|);
    VersionIsRead(SetTarget(r.(verb := MethodNamed(name)), target), version);
    VersionIsNotSet(version);
  }

  lemma VersionIsNotSet(version: string)
    requires version != "HTTP/1.0" && version != "HTTP/1.1"
    ensures forall v | v != Unknown :: version != VersionString(v)
  {
  }

  /** Accepted if and only if it is a request line; and no line has two readings. */
  lemma RequestLineIff(r: Request, line: string)
    requires r.query == ""
    ensures ProcessRequestLine(r, line).0 <==> IsRequestLine(line)
    ensures forall m, target, v | m != Invalid && v != Unknown && ' ' !in target && line == RequestLine(m, target, v) ::
      var r' := ProcessRequestLine(r, line).1;
      r'.verb == m && r'.path + r'.query == target && r'.version == v
  {
    if ProcessRequestLine(r, line).0 {
      AcceptedReprints(r, line);
    }
    forall m, target, v | m != Invalid && v != Unknown && ' ' !in target && line == RequestLine(m, target, v)
      ensures var (ok, r') := ProcessRequestLine(r, line);
        ok && r'.verb == m && r'.path + r'.query == target && r'.version == v
    {
      RequestLineIsAccepted(r, m, target, v);
      TargetIsSplit(r.(verb := m), target);
    }
  }

  // ---- chunks ----

  /** A parse that has neither failed nor got all waits for a CRLF and can be resumed. */
  lemma {:induction false} UnfinishedIsReady(c: Context, s: string, now: Time)
    requires Ready(c)
    ensures var p := Parse(c, s, now);
      && (p.ok && p.context.state != GotAll ==> Ready(p.context) && OneLine(p.rest))
      && (!p.ok ==> c.state == p.context.state == ExpectRequestLine && p.rest == s && !OneLine(s))
    decreases |s|
  {
    hide ParseLine, FindCrlf;
    var crlf := FindCrlf(s);
    if crlf < |s| {
      var t := ParseLine(c, s[..crlf], now);
      if t.hasMore {
        UnfinishedIsReady(t.context, s[crlf + 2..], now);
      }
    }
  }

  /**
   A rejected request line stays in the buffer. Parsing it again is safe if and only if it
   did not begin with a known method; otherwise setMethod's assertion fails.
   */
  lemma RejectedLineStays(s: string, now: Time)
    requires !Parse(NEW_CONTEXT, s, now).ok
    ensures var p := Parse(NEW_CONTEXT, s, now);
      var line := s[..FindCrlf(s)];
      var space := Find(line, ' ');
      && p.rest == s && p.context.state == ExpectRequestLine
      && (Ready(p.context) <==> space == |line| || MethodNamed(line[..space]) == Invalid)
  {
    hide MethodNamed, Find, FindCrlf;
    var t := ParseLine(NEW_CONTEXT, s[..FindCrlf(s)], now);
    if t.hasMore {
      UnfinishedIsReady(t.context, s[FindCrlf(s) + 2..], now);
    }
  }

  /** One more chunk: the parser goes on where it stopped, unless it has failed or got all. */
  function Resume(p: Outcome, chunk: string, now: Time): Outcome
    requires p.ok && p.context.state != GotAll ==> Ready(p.context)
  {
    if p.ok && p.context.state != GotAll then Parse(p.context, p.rest + chunk, now)
    else p.(rest := p.rest + chunk)
  }

  /** Stopping anywhere, even between CR and LF, and going on later is parsing in one go. */
  lemma {:induction false} ResumedIsWhole(c: Context, a: string, b: string, now: Time)
    requires Ready(c)
    ensures var p := Parse(c, a, now);
      && (p.ok && p.context.state != GotAll ==> Ready(p.context))
      && Parse(c, a + b, now) == Resume(p, b, now)
    decreases |a|
  {
    hide ParseLine, FindCrlf;
    UnfinishedIsReady(c, a, now);
    var crlf := FindCrlf(a);
    if crlf < |a| {
      FindCrlfExtends(a, b);
      var line, rest := a[..crlf], a[crlf + 2..];
      assert (a + b)[..crlf] == line && (a + b)[crlf + 2..] == rest + b;
      var t := ParseLine(c, line, now);
      if t.hasMore {
        ResumedIsWhole(t.context, rest, b, now);
      }
    }
  }

  /** Everything but the receive time. */
  function Timeless(p: Outcome): Outcome {
    p.(context := p.context.(request := p.context.request.(receiveTime := 0)))
  }

  lemma RequestLineIgnoresTime(r: Request, line: string, t: Time)
    ensures var (ok, r') := ProcessRequestLine(r, line);
      ProcessRequestLine(r.(receiveTime := t), line) == (ok, r'.(receiveTime := t))
  {
  }

  lemma LineIgnoresTime(c: Context, line: string, now: Time, c': Context, now': Time)
    requires Ready(c) && c' == c.(request := c.request.(receiveTime := c'.request.receiveTime))
    ensures var t, t' := ParseLine(c, line, now), ParseLine(c', line, now');
      t' == t.(context := t.context.(request := t.context.request.(receiveTime := t'.context.request.receiveTime)))
  {
    hide ProcessRequestLine;
    RequestLineIgnoresTime(c.request, line, c'.request.receiveTime);
  }

  /** The receive time is only recorded, never looked at. */
  lemma {:induction false} TimeIsOnlyRecorded(c: Context, c': Context, s: string, now: Time, now': Time)
    requires Ready(c) && c' == c.(request := c.request.(receiveTime := c'.request.receiveTime))
    ensures Timeless(Parse(c, s, now)) == Timeless(Parse(c', s, now'))
    decreases |s|
  {
    hide ParseLine, FindCrlf;
    var crlf := FindCrlf(s);
    if crlf < |s| {
      LineIgnoresTime(c, s[..crlf], now, c', now');
      var t, t' := ParseLine(c, s[..crlf], now), ParseLine(c', s[..crlf], now');
      if t.hasMore {
        TimeIsOnlyRecorded(t.context, t'.context, s[crlf + 2..], now, now');
      }
    }
  }

  function Concat(chunks: seq<string>): string {
    if chunks == [] then "" else Concat(chunks[..|chunks| - 1]) + chunks[|chunks| - 1]
  }

  /** Parsing after each chunk, the i-th at time `times[i]`. */
  function ParseChunks(c: Context, chunks: seq<string>, times: seq<Time>): (p: Outcome)
    requires Ready(c) && |times| == |chunks|
    ensures p.ok && p.context.state != GotAll ==> Ready(p.context)
    decreases |chunks|
  {
    if chunks == [] then Outcome(true, c, "")
    else
      var n := |chunks| - 1;
      var p := ParseChunks(c, chunks[..n], times[..n]);
      if p.ok && p.context.state != GotAll then
        UnfinishedIsReady(p.context, p.rest + chunks[n], times[n]);
        Resume(p, chunks[n], times[n])
      else Resume(p, chunks[n], times[n])
  }

  /** However a text is cut, the parser ends as if it had come in one piece, receive time apart. */
  lemma {:induction false} ChunksDoNotMatter(c: Context, chunks: seq<string>, times: seq<Time>, now: Time)
    requires Ready(c) && |times| == |chunks|
    ensures Timeless(ParseChunks(c, chunks, times)) == Timeless(Parse(c, Concat(chunks), now))
    decreases |chunks|
  {
    hide Parse;
    if chunks == [] {
      NothingToParse(c, now);
    } else {
      var n := |chunks| - 1;
      var p := ParseChunks(c, chunks[..n], times[..n]);
      var q := Parse(c, Concat(chunks[..n]), now);
      ChunksDoNotMatter(c, chunks[..n], times[..n], now);
      ResumedIsWhole(c, Concat(chunks[..n]), chunks[n], now);
      if p.ok && p.context.state != GotAll {
        TimeIsOnlyRecorded(p.context, q.context, p.rest + chunks[n], times[n], now);
      }
    }
  }

  lemma NothingToParse(c: Context, now: Time)
    requires Ready(c)
    ensures Parse(c, "", now) == Outcome(true, c, "")
  {
  }
}
