/**
 HTTP requests as http/httpRequest.h and http/httpContext.cpp read them: the request line
 of section 3 of RFC 9112 and the field lines of section 5, as far as the code takes them.
 */
module Http {
  import opened Text

  datatype Verb = Invalid | Get | Post | Head | Put | Delete
  datatype Version = Unknown | Http10 | Http11
  type Time = int

  datatype Request = Request(
    verb: Verb,
    version: Version,
    path: string,
    query: string,
    receiveTime: Time,
    headers: map<string, string>)

  const FRESH := Request(Invalid, Unknown, "", "", 0, map[])

  function MethodNamed(m: string): Verb {
    if m == "GET" then Get
    else if m == "POST" then Post
    else if m == "HEAD" then Head
    else if m == "PUT" then Put
    else if m == "DELETE" then Delete
    else Invalid
  }

  function MethodString(m: Verb): string {
    match m
    case Get => "GET"
    case Post => "POST"
    case Head => "HEAD"
    case Put => "PUT"
    case Delete => "DELETE"
    case Invalid => "UNKNOWN"
  }

  function VersionString(v: Version): string {
    if v == Http11 then "HTTP/1.1" else "HTTP/1.0"
  }

  // ---- field lines ----

  function TrimLeft(s: string): string {
    if s != "" && IsSpace(s[0]) then TrimLeft(s[1..]) else s
  }

  function TrimRight(s: string): string {
    if s != "" && IsSpace(s[|s| - 1]) then TrimRight(s[..|s| - 1]) else s
  }

  function AddHeader(r: Request, line: string, colon: nat): Request
    requires colon < |line|
  {
    r.(headers := r.headers[line[..colon] := TrimRight(TrimLeft(line[colon + 1..]))])
  }

  // ---- the request line ----

  function SetTarget(r: Request, target: string): Request {
    var question := Find(target, '?');
    if question < |target| then r.(path := target[..question], query := target[question..])
    else r.(path := target)
  }

  function SetVersion(r: Request, version: string): (bool, Request) {
    if |version| == 8 && version[..7] == "HTTP/1." then
      if version[7] == '1' then (true, r.(version := Http11))
      else if version[7] == '0' then (true, r.(version := Http10))
      else (false, r)
    else (false, r)
  }

  function ProcessRequestLine(r: Request, line: string): (bool, Request) {
    var space := Find(line, ' ');
    if space == |line| then (false, r)
    else
      var r := r.(verb := MethodNamed(line[..space]));
      var rest := line[space + 1..];
      var second := Find(rest, ' ');
      if r.verb.Invalid? || second == |rest| then (false, r)
      else SetVersion(SetTarget(r, rest[..second]), rest[second + 1..])
  }

  // ---- the resumable parser ----

  datatype State = ExpectRequestLine | ExpectHeaders | ExpectBody | GotAll

  datatype Context = Context(state: State, request: Request)

  const NEW_CONTEXT := Context(ExpectRequestLine, FRESH)

  /** What setMethod asserts, and the states the parser's loop has a branch for. */
  predicate Ready(c: Context) {
    match c.state
    case ExpectRequestLine => c.request.verb.Invalid?
    case ExpectHeaders => true
    case _ => false
  }

  /** What one line does: whether it was in order, whether the loop goes on, and the new context. */
  datatype Turn = Turn(ok: bool, hasMore: bool, context: Context)

  function ParseLine(c: Context, line: string, now: Time): (t: Turn)
    requires Ready(c)
    ensures t.hasMore ==> t.ok && t.context.state == ExpectHeaders
    ensures !t.hasMore && t.ok ==> t.context.state == GotAll
    ensures !t.ok ==> c.state == t.context.state == ExpectRequestLine
  {
    if c.state == ExpectRequestLine then
      var (ok, request) := ProcessRequestLine(c.request, line);
      if ok then Turn(true, true, Context(ExpectHeaders, request.(receiveTime := now)))
      else Turn(false, false, c.(request := request))
    else
      var colon := Find(line, ':');
      if colon < |line| then Turn(true, true, c.(request := AddHeader(c.request, line, colon)))
      else Turn(true, false, c.(state := GotAll))
  }

  /** What one call of the parser leaves: its result, the context, and the bytes not read. */
  datatype Outcome = Outcome(ok: bool, context: Context, rest: string)

  function Parse(c: Context, s: string, now: Time): Outcome
    requires Ready(c)
    decreases |s|
  {
    var crlf := FindCrlf(s);
    if crlf == |s| then Outcome(true, c, s)
    else
      var t := ParseLine(c, s[..crlf], now);
      if t.hasMore then Parse(t.context, s[crlf + 2..], now)
      else Outcome(t.ok, t.context, if t.ok then s[crlf + 2..] else s)
  }
}
