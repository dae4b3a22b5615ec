/** HTTP responses as http/httpResponse.cpp prints them. */
module Responses {
  import opened Text

  datatype StatusCode = UnknownStatus | Ok | MovedPermanently | BadRequest | NotFound

  datatype Response = Response(
    headers: map<string, string>,
    statusCode: StatusCode,
    statusMessage: string,
    closeConnection: bool,
    body: string)

  function Code(status: StatusCode): nat {
    match status
    case UnknownStatus => 0
    case Ok => 200
    case MovedPermanently => 301
    case BadRequest => 400
    case NotFound => 404
  }

  function Numeral(d: nat): (c: char)
    requires d < 10
    ensures '0' <= c <= '9' && c as int == 48 + d
  {
    (48 + d) as char
  }

  function Decimal(n: nat): (s: string)
    ensures s != ""
  {
    if n < 10 then [Numeral(n)] else Decimal(n / 10) + [Numeral(n % 10)]
  }

  /** The status codes, digit for digit. */
  lemma StatusCodesArePrinted()
    ensures Decimal(Code(UnknownStatus)) == "0" && Decimal(Code(Ok)) == "200"
    ensures Decimal(Code(MovedPermanently)) == "301" && Decimal(Code(BadRequest)) == "400"
    ensures Decimal(Code(NotFound)) == "404"
  {
  }

  /** snprintf into the 32 bytes of `buf`, the last of which is for the terminating zero. */
  function Snprintf(text: string): string {
    if |text| < 32 then text else text[..31]
  }

  const CONTENT_LENGTH := "Content-Length: "

  function LengthLine(n: nat): string { CONTENT_LENGTH + Decimal(n) + CRLF }

  // ---- std::map iterates in key order ----

  predicate AtMost(a: string, b: string) {
    a == "" || (b != "" && (a[0] < b[0] || (a[0] == b[0] && AtMost(a[1..], b[1..]))))
  }

  lemma {:induction false} AtMostIsTotal(a: string, b: string)
    ensures AtMost(a, b) || AtMost(b, a)
    ensures AtMost(a, b) && AtMost(b, a) ==> a == b
    decreases |a|
  {
    if a != "" && b != "" && a[0] == b[0] {
      AtMostIsTotal(a[1..], b[1..]);
      assert a == [a[0]] + a[1..] && b == [b[0]] + b[1..];
    }
  }

  lemma {:induction false} AtMostIsTransitive(a: string, b: string, c: string)
    requires AtMost(a, b) && AtMost(b, c)
    ensures AtMost(a, c)
    decreases |a|
  {
    if a != "" && a[0] == b[0] == c[0] {
      AtMostIsTransitive(a[1..], b[1..], c[1..]);
    }
  }

  predicate IsLeast(k: string, keys: set<string>) {
    k in keys && forall j | j in keys :: AtMost(k, j)
  }

  lemma {:induction false} LeastExists(keys: set<string>)
    requires keys != {}
    ensures exists k :: IsLeast(k, keys)
    decreases |keys|
  {
    var a :| a in keys;
    AtMostIsTotal(a, a);
    if keys == {a} {
      assert IsLeast(a, keys);
    } else {
      assert keys - {a} != {};
      LeastExists(keys - {a});
      var b :| IsLeast(b, keys - {a});
      AtMostIsTotal(a, b);
      if AtMost(b, a) {
        assert IsLeast(b, keys);
      } else {
        forall j | j in keys
          ensures AtMost(a, j)
        {
          if j != a { AtMostIsTransitive(a, b, j); }
        }
        assert IsLeast(a, keys);
      }
    }
  }

  ghost function Sorted(keys: set<string>): seq<string>
    decreases |keys|
  {
    if keys == {} then []
    else
      LeastExists(keys);
      var k :| IsLeast(k, keys);
      [k] + Sorted(keys - {k})
  }

  /** Every key once, in ascending order. */
  lemma {:induction false} SortedIsAscending(keys: set<string>)
    ensures var s := Sorted(keys);
      && (forall k :: k in s <==> k in keys)
      && (forall i, j | 0 <= i < j < |s| :: AtMost(s[i], s[j]) && s[i] != s[j])
    decreases |keys|
  {
    hide AtMost;
    if keys != {} {
      var s := Sorted(keys);
      var k := s[0];
      assert IsLeast(k, keys) && s[1..] == Sorted(keys - {k}) by {
        LeastExists(keys);
      }
      SortedIsAscending(keys - {k});
      assert s == [k] + s[1..];
    }
  }

  /** Position `k` is where `a` ends or where `b` is the first to have the larger character. */
  predicate ComesBeforeAt(a: string, b: string, k: nat) {
    && k <= |a| && k <= |b| && a[..k] == b[..k]
    && ((k == |a| && k < |b|) || (k < |a| && k < |b| && a[k] < b[k]))
  }

  lemma {:induction false} AtMostIsLexicographic(a: string, b: string) returns (k: nat)
    requires AtMost(a, b) && a != b
    ensures ComesBeforeAt(a, b, k)
    decreases |a|
  {
    if a == "" || a[0] < b[0] {
      k := 0;
    } else {
      assert a == [a[0]] + a[1..] && b == [b[0]] + b[1..];
      k := AtMostIsLexicographic(a[1..], b[1..]);
      k := k + 1;
      assert a[..k] == [a[0]] + a[1..][..k - 1] && b[..k] == [b[0]] + b[1..][..k - 1];
    }
  }

  /** The headers are printed in the order of std::less<std::string>. */
  lemma SortedIsLexicographic(keys: set<string>, i: nat, j: nat) returns (k: nat)
    requires i < j < |Sorted(keys)|
    ensures var s := Sorted(keys); ComesBeforeAt(s[i], s[j], k)
  {
    SortedIsAscending(keys);
    k := AtMostIsLexicographic(Sorted(keys)[i], Sorted(keys)[j]);
  }

  lemma NextInOrder(k: string, keys: set<string>)
    requires IsLeast(k, keys)
    ensures Sorted(keys) == [k] + Sorted(keys - {k})
  {
    var j := Sorted(keys)[0];
    LeastExists(keys);
    assert IsLeast(j, keys);
    AtMostIsTotal(j, k);
  }

  // ---- the printed form ----

  function HeaderLine(headers: map<string, string>, key: string): string
    requires key in headers
  {
    key + ": " + headers[key]
  }

  function PrintHeaders(headers: map<string, string>, keys: seq<string>): string
    requires forall k | k in keys :: k in headers
  {
    if keys == [] then ""
    else HeaderLine(headers, keys[0]) + CRLF + PrintHeaders(headers, keys[1..])
  }

  /** The lines of some of the headers, in the order of their keys. */
  ghost function PrintSorted(headers: map<string, string>, keys: set<string>): string
    requires keys <= headers.Keys
  {
    SortedIsAscending(keys);
    PrintHeaders(headers, Sorted(keys))
  }

  lemma NoneSorted(headers: map<string, string>)
    ensures PrintSorted(headers, {}) == ""
  {
  }

  lemma LeastIsPrintedFirst(headers: map<string, string>, keys: set<string>, k: string)
    requires keys <= headers.Keys && IsLeast(k, keys)
    ensures k in keys && PrintSorted(headers, keys) == HeaderLine(headers, k) + CRLF + PrintSorted(headers, keys - {k})
  {
    SortedIsAscending(keys);
    NextInOrder(k, keys);
    hide Sorted, AtMost, HeaderLine;
    assert Sorted(keys)[1..] == Sorted(keys - {k});
  }

  lemma PrintNext(o: string, headers: map<string, string>, keys: set<string>, k: string)
    requires keys <= headers.Keys && IsLeast(k, keys)
    ensures k in keys
    ensures o + k + ": " + headers[k] + CRLF + PrintSorted(headers, keys - {k}) == o + PrintSorted(headers, keys)
  {
    hide PrintSorted, IsLeast;
    LeastIsPrintedFirst(headers, keys, k);
    Regroup(o, k, ": ", headers[k], CRLF);
    Regroup(o, HeaderLine(headers, k) + CRLF, PrintSorted(headers, keys - {k}), "", "");
  }

  function StatusLine(r: Response): string {
    Snprintf("HTTP/1.1 " + Decimal(Code(r.statusCode)) + " ") + r.statusMessage
  }

  function ConnectionLines(r: Response): string {
    if r.closeConnection then "Connection: close\r\n"
    else Snprintf(LengthLine(|r.body|)) + "Connection: Keep-Alive\r\n"
  }

  ghost function Print(r: Response): string {
    StatusLine(r) + CRLF + ConnectionLines(r) + PrintSorted(r.headers, r.headers.Keys) + CRLF + r.body
  }

  lemma Regroup(o: string, a: string, b: string, c: string, d: string)
    ensures o + a + b + c + d == o + (a + b + c + d)
  {
  }

  lemma RegroupFirstLines(o: string, r: Response)
    ensures var s := o + Snprintf("HTTP/1.1 " + Decimal(Code(r.statusCode)) + " ") + r.statusMessage + CRLF;
      var length := Snprintf(LengthLine(|r.body|));
      o + (StatusLine(r) + CRLF + ConnectionLines(r)) ==
        if r.closeConnection then s + "Connection: close\r\n" else s + length + "Connection: Keep-Alive\r\n"
  {
    hide Snprintf, Decimal, LengthLine;
    var a := Snprintf("HTTP/1.1 " + Decimal(Code(r.statusCode)) + " ");
    Regroup(o, a, r.statusMessage, CRLF, ConnectionLines(r));
    if !r.closeConnection {
      var length := Snprintf(LengthLine(|r.body|));
      Regroup(o + a + r.statusMessage + CRLF, length, "Connection: Keep-Alive\r\n", "", "");
    }
  }
}

/** The response object, printing to a buffer. */
module ResponseObject {
  import opened Responses
  import opened Text
  import BufferObject

  class HttpResponse {
    var headers: map<string, string>
    var statusCode: StatusCode
    var statusMessage: string
    var closeConnection: bool
    var body: string

    function Value(): Response
      reads this
    {
      Response(headers, statusCode, statusMessage, closeConnection, body)
    }

    constructor (close: bool)
      ensures Value() == Response(map[], UnknownStatus, "", close, "")
    {
      headers, statusCode, statusMessage, closeConnection, body := map[], UnknownStatus, "", close, "";
    }

    method AddHeader(key: string, value: string)
      modifies this`headers
      ensures headers == old(headers)[key := value]
    {
      headers := headers[key := value];
    }

    method AppendToBuffer(output: BufferObject.Buffer)
      requires output.Valid()
      modifies output, output.buffer
      ensures output.Valid() && output.Contents() == old(output.Contents()) + Print(Value())
      ensures output.buffer == old(output.buffer) || fresh(output.buffer)
    {
      hide PrintSorted, StatusLine, ConnectionLines;
      ghost var o, r := output.Contents(), Value();
      AppendFirstLines(output);
      AppendHeaders(output);
      output.AppendString(CRLF);
      output.AppendString(body);
      Regroup(o, StatusLine(r) + CRLF + ConnectionLines(r), PrintSorted(headers, headers.Keys), CRLF, body);
    }

    /** The lines before the loop over the headers. */
    method AppendFirstLines(output: BufferObject.Buffer)
      requires output.Valid()
      modifies output, output.buffer
      ensures output.Valid()
      ensures output.Contents() == old(output.Contents()) + (StatusLine(Value()) + CRLF + ConnectionLines(Value()))
      ensures output.buffer == old(output.buffer) || fresh(output.buffer)
    {
      hide Snprintf, Decimal, Code, StatusLine, ConnectionLines;
      RegroupFirstLines(output.Contents(), Value());
      output.AppendString(Snprintf("HTTP/1.1 " + Decimal(Code(statusCode)) + " "));
      output.AppendString(statusMessage);
      output.AppendString(CRLF);
      if closeConnection {
        output.AppendString("Connection: close\r\n");
      } else {
        output.AppendString(Snprintf(LengthLine(|body|)));
        output.AppendString("Connection: Keep-Alive\r\n");
      }
    }

    /** The loop over the headers, in the order of std::map. */
    method AppendHeaders(output: BufferObject.Buffer)
      requires output.Valid()
      modifies output, output.buffer
      ensures output.Valid()
      ensures output.Contents() == old(output.Contents()) + PrintSorted(headers, headers.Keys)
      ensures output.buffer == old(output.buffer) || fresh(output.buffer)
    {
      hide PrintSorted, IsLeast;
      var rest := headers.Keys;
      ghost var whole := output.Contents() + PrintSorted(headers, rest);
      while rest != {}
        invariant output.Valid() && rest <= headers.Keys
        invariant output.buffer == old(output.buffer) || fresh(output.buffer)
        invariant output.Contents() + PrintSorted(headers, rest) == whole
        decreases |rest|
      {
        LeastExists(rest);
        var key :| IsLeast(key, rest);
        PrintNext(output.Contents(), headers, rest, key);
        AppendHeader(output, key);
        rest := rest - {key};
      }
      NoneSorted(headers);
    }

    method AppendHeader(output: BufferObject.Buffer, key: string)
      requires output.Valid() && key in headers
      modifies output, output.buffer
      ensures output.Valid() && output.Contents() == old(output.Contents()) + key + ": " + headers[key] + CRLF
      ensures output.buffer == old(output.buffer) || fresh(output.buffer)
    {
      output.AppendString(key);
      output.AppendString(": ");
      output.AppendString(headers[key]);
      output.AppendString(CRLF);
    }
  }
}
