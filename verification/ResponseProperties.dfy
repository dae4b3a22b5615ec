/** A stream of printed keep-alive responses can be taken apart again in one way only. */
module ResponseProperties {
  import opened Responses
  import opened Text

  // ---- an independent reader ----

  datatype Head = Head(lines: seq<string>, rest: string) | NoHead

  /** The lines up to the first empty one, and what follows it. */
  function ReadHead(s: string): (h: Head)
    ensures h.Head? ==> |h.rest| < |s|
    decreases |s|
  {
    var crlf := FindCrlf(s);
    if crlf == |s| then NoHead
    else if crlf == 0 then Head([], s[2..])
    else
      var h := ReadHead(s[crlf + 2..]);
      if h.Head? then Head([s[..crlf]] + h.lines, h.rest) else NoHead
  }

  predicate Numerals(s: string) { |s| > 0 && forall c | c in s :: '0' <= c <= '9' }

  lemma FrontNumerals(s: string)
    requires Numerals(s) && |s| > 1
    ensures Numerals(s[..|s| - 1])
  {
    var front := s[..|s| - 1];
    forall c | c in front
      ensures '0' <= c <= '9'
    {
      assert c in front + [s[|s| - 1]];
      assert s == front + [s[|s| - 1]];
    }
  }

  function Number(s: string): nat
    requires Numerals(s)
  {
    assert s[|s| - 1] in s;
    var last: nat := s[|s| - 1] as int - 48;
    if |s| == 1 then last
    else
      FrontNumerals(s);
      10 * Number(s[..|s| - 1]) + last
  }

  datatype Length = Length(n: nat) | NoLength

  predicate IsLength(line: string) {
    CONTENT_LENGTH <= line && Numerals(line[|CONTENT_LENGTH|..])
  }

  /** The first well-formed Content-Length line. */
  function ContentLength(lines: seq<string>): Length {
    if lines == [] then NoLength
    else if IsLength(lines[0]) then Length(Number(lines[0][|CONTENT_LENGTH|..]))
    else ContentLength(lines[1..])
  }

  datatype Decoded = Decoded(bodies: seq<string>, rest: string)

  /** Head, length, body, and so on: how a client reads the stream. */
  function Decode(s: string): Decoded
    decreases |s|
  {
    var h := ReadHead(s);
    if h.NoHead? then Decoded([], s)
    else
      var length := ContentLength(h.lines);
      if length.NoLength? || length.n > |h.rest| then Decoded([], s)
      else
        var d := Decode(h.rest[length.n..]);
        Decoded([h.rest[..length.n]] + d.bodies, d.rest)
  }

  // ---- decimal numbers ----

  lemma {:induction false} DecimalIsRead(n: nat)
    ensures Numerals(Decimal(n)) && Number(Decimal(n)) == n
  {
    if n >= 10 {
      var s := Decimal(n);
      DecimalIsRead(n / 10);
      assert s[..|s| - 1] == Decimal(n / 10);
    }
  }

  function Pow10(e: nat): (p: nat)
    ensures p > 0
  {
    if e == 0 then 1 else 10 * Pow10(e - 1)
  }

  lemma {:induction false} DecimalWidth(n: nat, width: nat)
    requires width > 0
    ensures |Decimal(n)| <= width <==> n < Pow10(width)
  {
    if width > 1 && n >= 10 {
      DecimalWidth(n / 10, width - 1);
    } else if width == 1 {
      assert Pow10(1) == 10;
    }
  }

  const TEN_TRILLION: nat := 10_000_000_000_000

  /** The 32 bytes given to snprintf hold the whole length line exactly for bodies below ten trillion bytes. */
  lemma LengthLineIsWhole(n: nat)
    ensures Snprintf(LengthLine(n)) == LengthLine(n) <==> n < TEN_TRILLION
  {
    DecimalWidth(n, 13);
    assert Pow10(13) == TEN_TRILLION;
    assert |LengthLine(n)| == 18 + |Decimal(n)|;
  }

  // ---- one printed response, line by line ----

  function Join(lines: seq<string>): string {
    if lines == [] then "" else lines[0] + CRLF + Join(lines[1..])
  }

  predicate HeadLike(lines: seq<string>) {
    forall line | line in lines :: line != "" && OneLine(line)
  }

  lemma FirstIsRead(line: string, more: string)
    requires line != "" && OneLine(line)
    ensures var h := ReadHead(more);
      ReadHead(line + CRLF + more) == if h.Head? then Head([line] + h.lines, h.rest) else NoHead
  {
    var s := line + CRLF + more;
    FirstLine(line, more);
    hide FindCrlf;
    assert s[..|line|] == line && s[|line| + 2..] == more;
  }

  lemma BlankIsRead(rest: string)
    ensures ReadHead(CRLF + rest) == Head([], rest)
  {
    var s := CRLF + rest;
    assert CrlfAt(s, 0) && s[2..] == rest;
  }

  lemma {:induction false} HeadIsRead(lines: seq<string>, rest: string)
    requires HeadLike(lines)
    ensures ReadHead(Join(lines) + CRLF + rest) == Head(lines, rest)
    decreases |lines|
  {
    hide ReadHead, FindCrlf;
    var s := Join(lines) + CRLF + rest;
    if lines == [] {
      assert s == CRLF + rest;
      BlankIsRead(rest);
    } else {
      var line, more := lines[0], Join(lines[1..]) + CRLF + rest;
      assert line in lines && s == line + CRLF + more;
      FirstIsRead(line, more);
      HeadIsRead(lines[1..], rest);
    }
  }

  /** No blank line comes before the one that ends the header block. */
  lemma {:induction false} FirstBlankLine(lines: seq<string>, rest: string, i: nat)
    requires HeadLike(lines) && i + 2 < |Join(lines)|
    ensures var s := Join(lines) + CRLF + rest;
      !(CrlfAt(s, i) && CrlfAt(s, i + 2))
    decreases |lines|
  {
    hide FindCrlf;
    var line, more := lines[0], Join(lines[1..]) + CRLF + rest;
    var s := Join(lines) + CRLF + rest;
    assert s == line + CRLF + more && |Join(lines)| == |line| + 2 + |Join(lines[1..])|;
    FirstLine(line, more);
    if i == |line| {
      var next := lines[1];
      assert more == next + CRLF + (Join(lines[2..]) + CRLF + rest);
      FirstLine(next, Join(lines[2..]) + CRLF + rest);
      assert CrlfAt(s, i + 2) == CrlfAt(more, 0);
    } else if i > |line| + 1 {
      assert forall l | l in lines[1..] :: l in lines;
      FirstBlankLine(lines[1..], rest, i - |line| - 2);
      assert forall j: nat | CrlfAt(s, j + |line| + 2) :: CrlfAt(more, j);
    }
  }

  function HeaderLines(headers: map<string, string>, keys: seq<string>): seq<string>
    requires forall k | k in keys :: k in headers
  {
    if keys == [] then [] else [HeaderLine(headers, keys[0])] + HeaderLines(headers, keys[1..])
  }

  lemma {:induction false} HeadersAreLines(headers: map<string, string>, keys: seq<string>)
    requires forall k | k in keys :: k in headers
    ensures PrintHeaders(headers, keys) == Join(HeaderLines(headers, keys))
    ensures forall line | line in HeaderLines(headers, keys) :: exists k ::
      k in headers && line == HeaderLine(headers, k)
    decreases |keys|
  {
    if keys != [] {
      HeadersAreLines(headers, keys[1..]);
      assert keys[0] in headers;
    }
  }

  /** The lines after the status line that are always printed. */
  function FixedLines(r: Response): seq<string> {
    if r.closeConnection then ["Connection: close"]
    else if |r.body| < TEN_TRILLION then [CONTENT_LENGTH + Decimal(|r.body|), "Connection: Keep-Alive"]
    else [Snprintf(LengthLine(|r.body|)) + "Connection: Keep-Alive"]
  }

  ghost function HeadLines(r: Response): seq<string> {
    SortedIsAscending(r.headers.Keys);
    [StatusLine(r)] + FixedLines(r) + HeaderLines(r.headers, Sorted(r.headers.Keys))
  }

  lemma {:induction false} JoinConcat(a: seq<string>, b: seq<string>)
    ensures Join(a + b) == Join(a) + Join(b)
    decreases |a|
  {
    if a == [] {
      assert a + b == b;
    } else {
      assert (a + b)[1..] == a[1..] + b;
      JoinConcat(a[1..], b);
    }
  }

  lemma FixedLinesArePrinted(r: Response)
    ensures ConnectionLines(r) == Join(FixedLines(r))
  {
    var n := |r.body|;
    LengthLineIsWhole(n);
    var lines := FixedLines(r);
    var last := lines[|lines| - 1];
    assert Join([last]) == last + CRLF;
    if r.closeConnection {
      assert lines == [last];
    } else if n < TEN_TRILLION {
      assert lines[1..] == [last];
      assert LengthLine(n) == lines[0] + CRLF;
    } else {
      assert lines == [last];
    }
  }

  lemma PrintIsLines(r: Response)
    ensures Print(r) == Join(HeadLines(r)) + CRLF + r.body
  {
    hide Sorted, FixedLines, ConnectionLines, StatusLine, PrintHeaders, HeaderLines;
    SortedIsAscending(r.headers.Keys);
    var lines := HeaderLines(r.headers, Sorted(r.headers.Keys));
    FixedLinesArePrinted(r);
    HeadersAreLines(r.headers, Sorted(r.headers.Keys));
    JoinConcat([StatusLine(r)] + FixedLines(r), lines);
    JoinConcat([StatusLine(r)], FixedLines(r));
    assert Join([StatusLine(r)]) == StatusLine(r) + CRLF;
  }

  predicate Clean(r: Response) {
    NoCrLf(r.statusMessage) && forall k | k in r.headers :: NoCrLf(k) && NoCrLf(r.headers[k])
  }

  lemma NoCrLfConcat(a: string, b: string)
    requires NoCrLf(a) && NoCrLf(b)
    ensures NoCrLf(a + b)
  {
  }

  lemma StatusLineIsHeadLike(r: Response)
    requires Clean(r)
    ensures StatusLine(r) != "" && OneLine(StatusLine(r)) && !IsLength(StatusLine(r))
  {
    hide Decimal, FindCrlf;
    var code := Decimal(Code(r.statusCode));
    DecimalIsRead(Code(r.statusCode));
    NoCrLfConcat("HTTP/1.1 ", code);
    NoCrLfConcat("HTTP/1.1 " + code, " ");
    NoCrLfConcat(Snprintf("HTTP/1.1 " + code + " "), r.statusMessage);
    NoCrLfIsOneLine(StatusLine(r));
    assert StatusLine(r)[0] == 'H' && CONTENT_LENGTH[0] == 'C';
  }

  lemma ShortLengthIsHeadLike(n: nat)
    ensures var line := CONTENT_LENGTH + Decimal(n);
      line != "" && OneLine(line) && IsLength(line) && Number(line[|CONTENT_LENGTH|..]) == n
  {
    var line := CONTENT_LENGTH + Decimal(n);
    DecimalIsRead(n);
    assert line[|CONTENT_LENGTH|..] == Decimal(n);
    hide Decimal, FindCrlf;
    NoCrLfConcat(CONTENT_LENGTH, Decimal(n));
    NoCrLfIsOneLine(line);
  }

  lemma CutLengthIsHeadLike(n: nat)
    requires n >= TEN_TRILLION
    ensures var line := Snprintf(LengthLine(n)) + "Connection: Keep-Alive";
      line != "" && OneLine(line) && !IsLength(line)
  {
    var cut := Snprintf(LengthLine(n));
    var line := cut + "Connection: Keep-Alive";
    LengthLineIsWhole(n);
    DecimalIsRead(n);
    hide Decimal, FindCrlf;
    assert |cut| == 31 && |LengthLine(n)| >= 32;
    var text := CONTENT_LENGTH + Decimal(n) + "\r";
    assert LengthLine(n) == text + "\n";
    assert '\n' !in text && cut == text[..31];
    NoLineFeedIsOneLine(line);
    var digits := line[|CONTENT_LENGTH|..];
    assert digits[31 - |CONTENT_LENGTH|] == 'C' && 'C' in digits;
  }

  lemma FixedLinesAreHeadLike(r: Response)
    ensures HeadLike(FixedLines(r))
    ensures !r.closeConnection ==>
      ContentLength(FixedLines(r)) == if |r.body| < TEN_TRILLION then Length(|r.body|) else NoLength
  {
    hide OneLine, IsLength, Decimal, Snprintf, LengthLine, Numerals;
    var n := |r.body|;
    if r.closeConnection {
      NoCrLfIsOneLine("Connection: close");
    } else if n < TEN_TRILLION {
      ShortLengthIsHeadLike(n);
      NoCrLfIsOneLine("Connection: Keep-Alive");
    } else {
      CutLengthIsHeadLike(n);
      assert FixedLines(r)[1..] == [];
    }
  }

  lemma NoLineFeedIsOneLine(s: string)
    requires '\n' !in s
    ensures OneLine(s)
  {
    assert forall i: nat | i < |s| :: s[i] in s;
  }

  lemma HeadLinesAreHeadLike(r: Response)
    requires Clean(r)
    ensures HeadLike(HeadLines(r))
  {
    hide Sorted, StatusLine, FixedLines, HeaderLines, FindCrlf;
    SortedIsAscending(r.headers.Keys);
    HeadersAreLines(r.headers, Sorted(r.headers.Keys));
    StatusLineIsHeadLike(r);
    FixedLinesAreHeadLike(r);
    forall k | k in r.headers
      ensures HeaderLine(r.headers, k) != "" && OneLine(HeaderLine(r.headers, k))
    {
      NoCrLfIsOneLine(HeaderLine(r.headers, k));
    }
  }

  lemma {:induction false} LengthIsFound(a: seq<string>, b: seq<string>)
    ensures ContentLength(a + b) == if ContentLength(a).Length? then ContentLength(a) else ContentLength(b)
    decreases |a|
  {
    hide IsLength, Numerals;
    if a == [] {
      assert a + b == b;
    } else {
      assert (a + b)[1..] == a[1..] + b;
      LengthIsFound(a[1..], b);
    }
  }

  lemma {:induction false} NoLengthAmong(lines: seq<string>)
    requires forall line | line in lines :: !IsLength(line)
    ensures ContentLength(lines) == NoLength
    decreases |lines|
  {
    hide IsLength;
    if lines != [] {
      NoLengthAmong(lines[1..]);
    }
  }

  /** The length found is the body's, or whatever the headers themselves say once the line is cut. */
  lemma HeadLinesTellLength(r: Response)
    requires !r.closeConnection && Clean(r)
    ensures |r.body| < TEN_TRILLION ==> ContentLength(HeadLines(r)) == Length(|r.body|)
    ensures |r.body| >= TEN_TRILLION && (forall k | k in r.headers :: !IsLength(HeaderLine(r.headers, k)))
      ==> ContentLength(HeadLines(r)) == NoLength
  {
    hide Sorted, StatusLine, FixedLines, HeaderLines, IsLength;
    SortedIsAscending(r.headers.Keys);
    var more := HeaderLines(r.headers, Sorted(r.headers.Keys));
    HeadersAreLines(r.headers, Sorted(r.headers.Keys));
    StatusLineIsHeadLike(r);
    FixedLinesAreHeadLike(r);
    NoLengthAmong([StatusLine(r)]);
    LengthIsFound([StatusLine(r)], FixedLines(r));
    LengthIsFound([StatusLine(r)] + FixedLines(r), more);
    if forall k | k in r.headers :: !IsLength(HeaderLine(r.headers, k)) {
      NoLengthAmong(more);
    }
  }

  lemma PrintedHeadIsRead(r: Response, tail: string)
    requires Clean(r)
    ensures ReadHead(Print(r) + tail) == Head(HeadLines(r), r.body + tail)
  {
    hide ReadHead, HeadLines, Print, Join;
    PrintIsLines(r);
    HeadLinesAreHeadLike(r);
    HeadIsRead(HeadLines(r), r.body + tail);
    assert Print(r) + tail == Join(HeadLines(r)) + CRLF + (r.body + tail);
  }

  /** The first blank line of a printed response is the one before its body. */
  lemma HeaderBlockEndsAtBlankLine(r: Response, tail: string)
    requires Clean(r)
    ensures var s := Print(r) + tail; var end := |Print(r)| - |r.body| - 4;
      && end >= 0 && CrlfAt(s, end) && CrlfAt(s, end + 2) && s[end + 4..] == r.body + tail
      && forall i: nat | i < end :: !(CrlfAt(s, i) && CrlfAt(s, i + 2))
  {
    hide HeadLines, Print, Join;
    PrintIsLines(r);
    HeadLinesAreHeadLike(r);
    var lines := HeadLines(r);
    assert lines != [] by { HeadStartsWithStatus(r); }
    JoinEndsWithCrlf(lines);
    var s := Print(r) + tail;
    assert s == Join(lines) + CRLF + (r.body + tail);
    forall i: nat | i + 2 < |Join(lines)|
      ensures !(CrlfAt(s, i) && CrlfAt(s, i + 2))
    {
      FirstBlankLine(lines, r.body + tail, i);
    }
  }

  lemma HeadStartsWithStatus(r: Response)
    ensures HeadLines(r) != [] && HeadLines(r)[0] == StatusLine(r)
  {
  }

  lemma {:induction false} JoinEndsWithCrlf(lines: seq<string>)
    requires lines != []
    ensures |Join(lines)| >= 2 && CrlfAt(Join(lines), |Join(lines)| - 2)
    decreases |lines|
  {
    if lines[1..] != [] {
      JoinEndsWithCrlf(lines[1..]);
    }
  }

  lemma FirstBodyIsDecoded(r: Response, tail: string)
    requires !r.closeConnection && Clean(r) && |r.body| < TEN_TRILLION
    ensures Decode(Print(r) + tail) == Decoded([r.body] + Decode(tail).bodies, Decode(tail).rest)
  {
    hide ReadHead, HeadLines, Print, ContentLength, Clean;
    PrintedHeadIsRead(r, tail);
    HeadLinesTellLength(r);
    assert (r.body + tail)[..|r.body|] == r.body && (r.body + tail)[|r.body|..] == tail;
  }

  ghost function PrintAll(rs: seq<Response>): string {
    if rs == [] then "" else Print(rs[0]) + PrintAll(rs[1..])
  }

  function Bodies(rs: seq<Response>): seq<string> {
    if rs == [] then [] else [rs[0].body] + Bodies(rs[1..])
  }

  predicate Streamable(rs: seq<Response>) {
    forall r | r in rs :: !r.closeConnection && Clean(r) && |r.body| < TEN_TRILLION
  }

  /**
   Any concatenation of keep-alive responses splits back into their bodies, in order, and what
   follows is untouched.
   */
  lemma {:induction false} StreamIsDecoded(rs: seq<Response>, tail: string)
    requires Streamable(rs)
    ensures Decode(PrintAll(rs) + tail) == Decoded(Bodies(rs) + Decode(tail).bodies, Decode(tail).rest)
    decreases |rs|
  {
    hide Decode, Print, Clean;
    if rs == [] {
      assert PrintAll(rs) + tail == tail;
    } else {
      var more := PrintAll(rs[1..]) + tail;
      assert PrintAll(rs) + tail == Print(rs[0]) + more;
      FirstBodyIsDecoded(rs[0], more);
      StreamIsDecoded(rs[1..], tail);
    }
  }

  /** No stream is the print of two lists of responses with different bodies. */
  lemma UniquelyDecodable(rs: seq<Response>, qs: seq<Response>)
    requires Streamable(rs) && Streamable(qs) && PrintAll(rs) == PrintAll(qs)
    ensures Bodies(rs) == Bodies(qs)
  {
    hide Decode, PrintAll, Bodies, Clean;
    StreamIsDecoded(rs, "");
    StreamIsDecoded(qs, "");
    EmptyIsDecoded();
    assert PrintAll(rs) + "" == PrintAll(rs) == PrintAll(qs) + "";
    assert Bodies(rs) == Bodies(rs) + [] && Bodies(qs) == Bodies(qs) + [];
  }

  lemma EmptyIsDecoded()
    ensures Decode("") == Decoded([], "")
  {
  }

  /** The 32-byte buffer is the limit: a response comes back if and only if its body is below ten trillion bytes. */
  lemma BodyComesBackIff(r: Response)
    requires !r.closeConnection && Clean(r)
    requires forall k | k in r.headers :: !IsLength(HeaderLine(r.headers, k))
    ensures Decode(Print(r)) == Decoded([r.body], "") <==> |r.body| < TEN_TRILLION
  {
    hide ReadHead, HeadLines, Print, ContentLength, Clean, IsLength;
    assert Print(r) + "" == Print(r);
    EmptyIsDecoded();
    if |r.body| < TEN_TRILLION {
      FirstBodyIsDecoded(r, "");
    } else {
      PrintedHeadIsRead(r, "");
      HeadLinesTellLength(r);
    }
  }
}
