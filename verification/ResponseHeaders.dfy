/** The header block of a printed response, read by the field parser of this very server. */
module ResponseHeaders {
  import opened Http
  import opened HttpRoundTrip
  import opened Responses
  import opened ResponseProperties
  import opened Text

  /** A printed header, as the request parser's own notion of a field. */
  function AsField(name: string, value: string): Field { Field(name, " ", value, "") }

  function AsFields(headers: map<string, string>, keys: seq<string>): seq<Field>
    requires forall k | k in keys :: k in headers
  {
    if keys == [] then [] else [AsField(keys[0], headers[keys[0]])] + AsFields(headers, keys[1..])
  }

  function FixedFields(r: Response): seq<Field> {
    if r.closeConnection then [AsField("Connection", "close")]
    else [AsField("Content-Length", Decimal(|r.body|)), AsField("Connection", "Keep-Alive")]
  }

  function FixedHeaders(r: Response): map<string, string> {
    if r.closeConnection then map["Connection" := "close"]
    else map["Content-Length" := Decimal(|r.body|), "Connection" := "Keep-Alive"]
  }

  /** Names without a colon, values without white space at their ends. */
  predicate Readable(r: Response) {
    Clean(r) && forall k | k in r.headers :: ':' !in k && Trimmed(r.headers[k])
  }

  lemma PrintedAsField(name: string, value: string)
    requires NoCrLf(name) && NoCrLf(value) && ':' !in name && Trimmed(value)
    ensures FieldLine(AsField(name, value)) == name + ": " + value
    ensures Proper(AsField(name, value))
  {
    var line := name + ": " + value;
    NoCrLfConcat(name, ": ");
    NoCrLfConcat(name + ": ", value);
    NoCrLfIsOneLine(line);
    hide OneLine;
    assert ":" + " " == ": ";
    assert FieldLine(AsField(name, value)) == line;
  }

  lemma {:induction false} PrintedAsFields(headers: map<string, string>, keys: seq<string>)
    requires forall k | k in keys ::
      k in headers && NoCrLf(k) && NoCrLf(headers[k]) && ':' !in k && Trimmed(headers[k])
    ensures PrintHeaders(headers, keys) == PrintFields(AsFields(headers, keys))
    ensures forall f | f in AsFields(headers, keys) :: Proper(f)
    decreases |keys|
  {
    hide Proper, FieldLine, NoCrLf, Trimmed;
    if keys != [] {
      PrintedAsField(keys[0], headers[keys[0]]);
      PrintedAsFields(headers, keys[1..]);
    }
  }

  lemma {:induction false} FieldsInTwo(a: seq<Field>, b: seq<Field>)
    ensures PrintFields(a + b) == PrintFields(a) + PrintFields(b)
    decreases |a|
  {
    hide FieldLine;
    if a == [] {
      assert a + b == b;
    } else {
      assert (a + b)[1..] == a[1..] + b;
      FieldsInTwo(a[1..], b);
    }
  }

  lemma NumeralsAreTrimmed(s: string)
    requires Numerals(s)
    ensures NoCrLf(s) && Trimmed(s)
  {
    assert s[0] in s && s[|s| - 1] in s;
  }

  lemma LengthAsField(n: nat)
    requires n < TEN_TRILLION
    ensures var f := AsField("Content-Length", Decimal(n));
      Proper(f) && FieldLine(f) + CRLF == Snprintf(LengthLine(n))
  {
    DecimalIsRead(n);
    NumeralsAreTrimmed(Decimal(n));
    LengthLineIsWhole(n);
    PrintedAsField("Content-Length", Decimal(n));
    hide Proper, FieldLine, Decimal, Snprintf;
    assert "Content-Length" + ": " == CONTENT_LENGTH;
  }

  lemma CloseText()
    ensures "Connection" + ": " + "close" + CRLF == "Connection: close\r\n"
    ensures NoCrLf("Connection") && ':' !in "Connection" && NoCrLf("close") && Trimmed("close")
  {
  }

  lemma KeepAliveText()
    ensures "Connection" + ": " + "Keep-Alive" + CRLF == "Connection: Keep-Alive\r\n"
    ensures NoCrLf("Connection") && ':' !in "Connection" && NoCrLf("Keep-Alive") && Trimmed("Keep-Alive")
  {
  }

  lemma CloseAsField()
    ensures var f := AsField("Connection", "close");
      Proper(f) && FieldLine(f) + CRLF == "Connection: close\r\n"
  {
    hide Proper, FieldLine, NoCrLf, Trimmed;
    CloseText();
    PrintedAsField("Connection", "close");
  }

  lemma KeepAliveAsField()
    ensures var f := AsField("Connection", "Keep-Alive");
      Proper(f) && FieldLine(f) + CRLF == "Connection: Keep-Alive\r\n"
  {
    hide Proper, FieldLine, NoCrLf, Trimmed;
    KeepAliveText();
    PrintedAsField("Connection", "Keep-Alive");
  }

  lemma TwoFields(f: Field, g: Field)
    ensures PrintFields([f]) == FieldLine(f) + CRLF
    ensures PrintFields([f, g]) == FieldLine(f) + CRLF + (FieldLine(g) + CRLF)
  {
    hide FieldLine;
    assert [f][1..] == [] && [f, g][1..] == [g] && [g][1..] == [];
    assert PrintFields([g]) == FieldLine(g) + CRLF + "";
  }

  lemma FixedAreFields(r: Response)
    requires r.closeConnection || |r.body| < TEN_TRILLION
    ensures ConnectionLines(r) == PrintFields(FixedFields(r))
    ensures forall f | f in FixedFields(r) :: Proper(f)
  {
    hide Proper, FieldLine, Decimal, Snprintf, PrintFields, AsField;
    if r.closeConnection {
      CloseAsField();
      TwoFields(FixedFields(r)[0], FixedFields(r)[0]);
    } else {
      LengthAsField(|r.body|);
      KeepAliveAsField();
      TwoFields(FixedFields(r)[0], FixedFields(r)[1]);
    }
  }

  lemma {:induction false} HeadersCollect(added: map<string, string>, headers: map<string, string>, keys: seq<string>)
    requires forall k | k in keys :: k in headers
    ensures var m := HeadersOf(added, AsFields(headers, keys));
      && (forall k :: k in m <==> k in added || k in keys)
      && (forall k | k in m :: m[k] == if k in keys then headers[k] else added[k])
    decreases |keys|
  {
    if keys != [] {
      HeadersCollect(added[keys[0] := headers[keys[0]]], headers, keys[1..]);
      assert keys == [keys[0]] + keys[1..];
    }
  }

  /** The status line is never cut: the code has at most three digits. */
  lemma StatusLineIsWhole(r: Response)
    ensures StatusLine(r) == "HTTP/1.1 " + Decimal(Code(r.statusCode)) + " " + r.statusMessage
  {
    DecimalWidth(Code(r.statusCode), 3);
    assert Pow10(3) == 1000;
  }

  lemma FieldsOfResponse(r: Response)
    requires Readable(r) && (r.closeConnection || |r.body| < TEN_TRILLION)
    ensures (forall k | k in Sorted(r.headers.Keys) :: k in r.headers)
      && var fields := FixedFields(r) + AsFields(r.headers, Sorted(r.headers.Keys));
        && (forall f | f in fields :: Proper(f))
        && ConnectionLines(r) + PrintSorted(r.headers, r.headers.Keys) == PrintFields(fields)
  {
    hide Sorted, Proper, ConnectionLines, FixedFields, PrintFields, AsFields;
    SortedIsAscending(r.headers.Keys);
    var keys := Sorted(r.headers.Keys);
    FixedAreFields(r);
    PrintedAsFields(r.headers, keys);
    FieldsInTwo(FixedFields(r), AsFields(r.headers, keys));
  }

  lemma {:induction false} CollectInTwo(headers: map<string, string>, a: seq<Field>, b: seq<Field>)
    ensures HeadersOf(headers, a + b) == HeadersOf(HeadersOf(headers, a), b)
    decreases |a|
  {
    if a == [] {
      assert a + b == b;
    } else {
      assert (a + b)[1..] == a[1..] + b;
      CollectInTwo(headers[a[0].name := a[0].value], a[1..], b);
    }
  }

  lemma FixedCollect(r: Response)
    ensures HeadersOf(map[], FixedFields(r)) == FixedHeaders(r)
  {
    hide Decimal;
    var fields := FixedFields(r);
    if r.closeConnection {
      assert fields[1..] == [];
    } else {
      var m: map<string, string> := map["Content-Length" := Decimal(|r.body|)];
      assert fields[1..][1..] == [] && |"Content-Length"| != |"Connection"|;
      assert HeadersOf(map[], fields) == HeadersOf(m, fields[1..]) == HeadersOf(m["Connection" := "Keep-Alive"], []);
    }
  }

  lemma HeadersOfResponse(r: Response)
    requires forall k | k in Sorted(r.headers.Keys) :: k in r.headers
    ensures HeadersOf(map[], FixedFields(r) + AsFields(r.headers, Sorted(r.headers.Keys)))
      == FixedHeaders(r) + r.headers
  {
    hide Sorted, FixedFields, FixedHeaders, AsFields, HeadersOf;
    SortedIsAscending(r.headers.Keys);
    var keys := Sorted(r.headers.Keys);
    CollectInTwo(map[], FixedFields(r), AsFields(r.headers, keys));
    FixedCollect(r);
    HeadersCollect(FixedHeaders(r), r.headers, keys);
  }

  /**
   The parser for request fields, started after the status line of a printed response,
   finds the connection headers and every header that was set, and leaves the body unread.
   */
  lemma HeadersAreReadBack(r: Response, request: Request, now: Time)
    requires Readable(r) && (r.closeConnection || |r.body| < TEN_TRILLION) && request.headers == map[]
    ensures var block := ConnectionLines(r) + PrintSorted(r.headers, r.headers.Keys) + CRLF + r.body;
      && Print(r) == StatusLine(r) + CRLF + block
      && Parse(Context(ExpectHeaders, request), block, now)
        == Outcome(true, Context(GotAll, request.(headers := FixedHeaders(r) + r.headers)), r.body)
  {
    hide Parse, Sorted, Proper, PrintSorted, ConnectionLines, StatusLine, PrintFields, FixedFields, AsFields,
      HeadersOf, FixedHeaders;
    FieldsOfResponse(r);
    HeadersOfResponse(r);
    var fields := FixedFields(r) + AsFields(r.headers, Sorted(r.headers.Keys));
    NoCrLfIsOneLine("");
    FieldsAreParsed(request, fields, "", r.body, now);
    assert PrintFields(fields) + "" == PrintFields(fields);
    Regroup(StatusLine(r) + CRLF, ConnectionLines(r), PrintSorted(r.headers, r.headers.Keys), CRLF, r.body);
  }
}
