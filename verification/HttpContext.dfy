/** The objects of http/httpRequest.h and http/httpContext.cpp, on a buffer. */
module HttpObjects {
  import opened Http
  import BufferObject
  import Text

  class HttpRequest {
    var verb: Verb
    var version: Version
    var path: string
    var query: string
    var receiveTime: Time
    var headers: map<string, string>

    function Value(): Request
      reads this
    {
      Request(verb, version, path, query, receiveTime, headers)
    }

    constructor ()
      ensures Value() == FRESH
    {
      verb, version, path, query, receiveTime, headers := Invalid, Unknown, "", "", 0, map[];
    }

    method SetMethod(m: string) returns (valid: bool)
      requires verb.Invalid?
      modifies this
      ensures Value() == old(Value()).(verb := MethodNamed(m)) && valid == (verb != Invalid)
    {
      if m == "GET" {
        verb := Get;
      } else if m == "POST" {
        verb := Post;
      } else if m == "HEAD" {
        verb := Head;
      } else if m == "PUT" {
        verb := Put;
      } else if m == "DELETE" {
        verb := Delete;
      } else {
        verb := Invalid;
      }
      valid := verb != Invalid;
    }

    /** The field name is what precedes the colon; the loops skip white space around the value. */
    method AddHeader(line: string, colon: nat)
      requires colon < |line|
      modifies this
      ensures Value() == Http.AddHeader(old(Value()), line, colon)
    {
      var field := line[..colon];
      var i := colon + 1;
      while i < |line| && Text.IsSpace(line[i])
        invariant colon < i <= |line|
        invariant TrimLeft(line[i..]) == TrimLeft(line[colon + 1..])
      {
        assert line[i..][1..] == line[i + 1..];
        i := i + 1;
      }
      var value := line[i..];
      while value != "" && Text.IsSpace(value[|value| - 1])
        invariant TrimRight(value) == TrimRight(line[i..])
        decreases |value|
      {
        value := value[..|value| - 1];
      }
      headers := headers[field := value];
    }

    /** An absent field reads as the empty string. */
    method GetHeader(field: string) returns (result: string)
      ensures result == if field in headers then headers[field] else ""
    {
      result := "";
      if field in headers {
        result := headers[field];
      }
    }

    method Swap(that: HttpRequest)
      modifies this, that
      ensures Value() == old(that.Value()) && that.Value() == old(Value())
    {
      verb, that.verb := that.verb, verb;
      version, that.version := that.version, version;
      path, that.path := that.path, path;
      query, that.query := that.query, query;
      receiveTime, that.receiveTime := that.receiveTime, receiveTime;
      headers, that.headers := that.headers, headers;
    }
  }

  class HttpContext {
    var state: State
    const request: HttpRequest

    function Value(): Context
      reads this, request
    {
      Context(state, request.Value())
    }

    constructor ()
      ensures Value() == NEW_CONTEXT && fresh(request)
    {
      state := ExpectRequestLine;
      request := new HttpRequest();
    }

    method Reset()
      modifies this, request
      ensures Value() == NEW_CONTEXT && Ready(Value())
    {
      state := ExpectRequestLine;
      var dummy := new HttpRequest();
      request.Swap(dummy);
    }

    /** The path is what precedes the first question mark; the query keeps it. */
    method SetTarget(target: string)
      modifies request
      ensures request.Value() == Http.SetTarget(old(request.Value()), target)
    {
      var question := Text.Find(target, '?');
      if question < |target| {
        request.path := target[..question];
        request.query := target[question..];
      } else {
        request.path := target;
      }
    }

    method SetVersion(version: string) returns (succeed: bool)
      modifies request
      ensures (succeed, request.Value()) == Http.SetVersion(old(request.Value()), version)
    {
      succeed := |version| == 8 && version[..7] == "HTTP/1.";
      if succeed {
        if version[7] == '1' {
          request.version := Http11;
        } else if version[7] == '0' {
          request.version := Http10;
        } else {
          succeed := false;
        }
      }
    }

    method ProcessRequestLine(line: string) returns (succeed: bool)
      requires request.verb.Invalid?
      modifies request
      ensures (succeed, request.Value()) == Http.ProcessRequestLine(old(request.Value()), line)
    {
      hide MethodNamed, Http.SetTarget, Http.SetVersion, Text.Find;
      succeed := false;
      var space := Text.Find(line, ' ');
      if space < |line| {
        var valid := request.SetMethod(line[..space]);
        if valid {
          var rest := line[space + 1..];
          space := Text.Find(rest, ' ');
          if space < |rest| {
            SetTarget(rest[..space]);
            succeed := SetVersion(rest[space + 1..]);
          }
        }
      }
    }

    /** The two branches of the parser's loop, for a line that has arrived whole. */
    method TakeLine(line: string, receiveTime: Time) returns (ok: bool, hasMore: bool)
      requires Ready(Value())
      modifies this`state, request
      ensures Turn(ok, hasMore, Value()) == ParseLine(old(Value()), line, receiveTime)
    {
      if state == ExpectRequestLine {
        ok := ProcessRequestLine(line);
        hasMore := ok;
        if ok {
          request.receiveTime := receiveTime;
          state := ExpectHeaders;
        }
      } else {
        ok, hasMore := true, true;
        var colon := Text.Find(line, ':');
        if colon < |line| {
          request.AddHeader(line, colon);
        } else {
          state := GotAll;
          hasMore := false;
        }
      }
    }

    /** The parser's loop consumes the buffer line by line and ends as `Parse` says. */
    method ParseRequest(buf: BufferObject.Buffer, receiveTime: Time) returns (ok: bool)
      requires buf.Valid() && Ready(Value())
      modifies this`state, request, buf`readerIndex, buf`writerIndex
      ensures buf.Valid()
      ensures Outcome(ok, Value(), buf.Contents()) == Parse(old(Value()), old(buf.Contents()), receiveTime)
    {
      hide ParseLine, Text.FindCrlf;
      ok := true;
      var hasMore := true;
      ghost var outcome := Parse(Value(), buf.Contents(), receiveTime);
      while hasMore
        invariant buf.Valid() && buf.buffer == old(buf.buffer)
        invariant hasMore ==> ok && Ready(Value()) && Parse(Value(), buf.Contents(), receiveTime) == outcome
        invariant !hasMore ==> Outcome(ok, Value(), buf.Contents()) == outcome
        decreases hasMore, buf.ReadableBytes()
      {
        var crlf := buf.FindCRLF();
        if crlf < buf.writerIndex {
          ok, hasMore := TakeLine(buf.Contents()[..crlf - buf.readerIndex], receiveTime);
          if ok {
            buf.RetrieveUntil(crlf + 2);
          }
        } else {
          hasMore := false;
        }
      }
    }
  }

  class HttpServer {
    var requests: seq<Request>  // what onRequest was given

    constructor ()
      ensures requests == []
    {
      requests := [];
    }

    /** Every block is parsed with a context of its own, which is forgotten when the call returns. */
    method OnMessage(buf: BufferObject.Buffer, now: Time) returns (ok: bool)
      requires buf.Valid()
      modifies this, buf`readerIndex, buf`writerIndex
      ensures var p := Parse(NEW_CONTEXT, old(buf.Contents()), now);
        && ok == p.ok
        && requests == if p.ok && p.context.state == GotAll then old(requests) + [p.context.request] else old(requests)
    {
      hide Parse;
      var context := new HttpContext();
      ok := context.ParseRequest(buf, now);
      if ok && context.state == GotAll {
        requests := requests + [context.request.Value()];
        context.Reset();
      }
    }
  }
}
