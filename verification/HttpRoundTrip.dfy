/** Printing a request and parsing it gives the request back. */
module HttpRoundTrip {
  import opened Http
  import opened HttpProperties
  import opened Text

  /** A field line of section 5 of RFC 9112, with any white space around its value. */
  datatype Field = Field(name: string, before: string, value: string, after: string)

  function FieldLine(f: Field): string {
    f.name + ":" + f.before + f.value + f.after
  }

  predicate Proper(f: Field) {
    ':' !in f.name && Blank(f.before) && Trimmed(f.value) && Blank(f.after) && OneLine(FieldLine(f))
  }

  function PrintFields(fields: seq<Field>): string {
    if fields == [] then "" else FieldLine(fields[0]) + CRLF + PrintFields(fields[1..])
  }

  /** A later field of the same name replaces an earlier one. */
  function HeadersOf(headers: map<string, string>, fields: seq<Field>): map<string, string>
    decreases |fields|
  {
    if fields == [] then headers
    else HeadersOf(headers[fields[0].name := fields[0].value], fields[1..])
  }

  // ---- trimming ----

  lemma {:induction false} LeftIsTrimmed(before: string, s: string)
    requires Blank(before) && (s != "" ==> !IsSpace(s[0]))
    ensures TrimLeft(before + s) == s
    decreases |before|
  {
    if before == "" {
      assert before + s == s;
    } else {
      assert (before + s)[1..] == before[1..] + s;
      assert forall c | c in before[1..] :: c in before;
      LeftIsTrimmed(before[1..], s);
    }
  }

  lemma {:induction false} RightIsTrimmed(s: string, after: string)
    requires Blank(after) && (s != "" ==> !IsSpace(s[|s| - 1]))
    ensures TrimRight(s + after) == s
    decreases |after|
  {
    if after == "" {
      assert s + after == s;
    } else {
      var n := |after| - 1;
      assert (s + after)[..|s| + n] == s + after[..n];
      assert forall c | c in after[..n] :: c in after;
      RightIsTrimmed(s, after[..n]);
    }
  }

  lemma {:induction false} AllBlank(s: string)
    requires Blank(s)
    ensures TrimLeft(s) == ""
    decreases |s|
  {
    if s != "" {
      assert forall c | c in s[1..] :: c in s;
      AllBlank(s[1..]);
    }
  }

  /** The two loops of addHeader take off exactly the white space around the value. */
  lemma ValueIsTrimmed(before: string, value: string, after: string)
    requires Blank(before) && Trimmed(value) && Blank(after)
    ensures TrimRight(TrimLeft(before + value + after)) == value
  {
    if value == "" {
      assert before + value + after == before + after;
      assert forall c | c in before + after :: c in before || c in after;
      AllBlank(before + after);
    } else {
      assert before + value + after == before + (value + after);
      LeftIsTrimmed(before, value + after);
      RightIsTrimmed(value, after);
    }
  }

  // ---- the header block ----

  lemma FieldIsAdded(r: Request, f: Field)
    requires Proper(f)
    ensures var line := FieldLine(f); var colon := Find(line, ':');
      colon < |line| && AddHeader(r, line, colon) == r.(headers := r.headers[f.name := f.value])
  {
    hide TrimLeft, TrimRight, Blank, Trimmed, OneLine;
    var line := FieldLine(f);
    assert line[..|f.name|] == f.name;
    FindIs(line, ':', |f.name|);
    assert line[|f.name| + 1..] == f.before + f.value + f.after;
    ValueIsTrimmed(f.before, f.value, f.after);
  }

  /**
   The field lines are all recorded, and the first line without a colon ends them: an
   empty one as section 2.1 of RFC 9112 has it, but the code takes any.
   */
  lemma {:induction false} FieldsAreParsed(r: Request, fields: seq<Field>, ending: string, rest: string, now: Time)
    requires forall f | f in fields :: Proper(f)
    requires OneLine(ending) && ':' !in ending
    ensures Parse(Context(ExpectHeaders, r), PrintFields(fields) + ending + CRLF + rest, now)
      == Outcome(true, Context(GotAll, r.(headers := HeadersOf(r.headers, fields))), rest)
    decreases |fields|
  {
    hide AddHeader, FindCrlf;
    var s := PrintFields(fields) + ending + CRLF + rest;
    if fields == [] {
      assert s == ending + CRLF + rest;
      FirstLine(ending, rest);
      assert s[..|ending|] == ending && s[|ending| + 2..] == rest;
      FindNone(ending, ':');
    } else {
      var f := fields[0];
      var line, more := FieldLine(f), PrintFields(fields[1..]) + ending + CRLF + rest;
      assert Proper(f) && s == line + CRLF + more;
      FirstLine(line, more);
      assert s[..|line|] == line && s[|line| + 2..] == more;
      FieldIsAdded(r, f);
      FieldsAreParsed(r.(headers := r.headers[f.name := f.value]), fields[1..], ending, rest, now);
    }
  }

  // ---- the whole request ----

  lemma RequestLineIsOneLine(m: Verb, target: string, v: Version)
    requires OneLine(target)
    ensures OneLine(RequestLine(m, target, v))
  {
    var name, version := MethodString(m), VersionString(v);
    var s := RequestLine(m, target, v);
    assert NoCrLf(name) && NoCrLf(version);
    forall i: nat | i < |s|
      ensures !CrlfAt(s, i)
    {
      if i < |name| {
        assert s[i] == name[i];
      } else if |name| < i && i < |name| + 1 + |target| {
        assert CrlfAt(s, i) ==> CrlfAt(target, i - |name| - 1);
      } else if i > |name| + 1 + |target| {
        assert s[i] == version[i - |name| - 2 - |target|];
      }
    }
  }

  /**
   Print, then parse: a request line, any field lines and the end of the header block give
   exactly these parts, and what follows is left unread.
   */
  lemma PrintedRequestIsParsed(m: Verb, target: string, v: Version, fields: seq<Field>, ending: string,
          rest: string, now: Time)
    requires m != Invalid && v != Unknown && ' ' !in target && OneLine(target)
    requires forall f | f in fields :: Proper(f)
    requires OneLine(ending) && ':' !in ending
    ensures var text := RequestLine(m, target, v) + CRLF + PrintFields(fields) + ending + CRLF;
      var p := Parse(NEW_CONTEXT, text + rest, now);
      var request := p.context.request;
      && p.ok && p.context.state == GotAll && p.rest == rest
      && request.verb == m && request.version == v && request.receiveTime == now
      && request.path + request.query == target
      && request.headers == HeadersOf(map[], fields)
  {
    hide ProcessRequestLine, SetTarget, FindCrlf, RequestLine;
    var line, block := RequestLine(m, target, v), PrintFields(fields) + ending + CRLF + rest;
    var s := line + CRLF + PrintFields(fields) + ending + CRLF + rest;
    assert s == line + CRLF + block;
    RequestLineIsOneLine(m, target, v);
    FirstLine(line, block);
    assert s[..|line|] == line && s[|line| + 2..] == block;
    RequestLineIsAccepted(FRESH, m, target, v);
    TargetIsSplit(FRESH.(verb := m), target);
    var request := SetTarget(FRESH.(verb := m), target).(version := v, receiveTime := now);
    FieldsAreParsed(request, fields, ending, rest, now);
  }

  /** Any map of headers comes back from any list of its entries. */
  lemma {:induction false} HeadersComeBack(headers: map<string, string>, added: map<string, string>, fields: seq<Field>)
    requires forall i, j | 0 <= i < j < |fields| :: fields[i].name != fields[j].name
    requires forall name | name in headers :: name in added || exists f :: f in fields && f.name == name
    requires forall name | name in added :: name in headers && headers[name] == added[name]
    requires forall f | f in fields :: f.name in headers && headers[f.name] == f.value
    ensures HeadersOf(added, fields) == headers
    decreases |fields|
  {
    if fields != [] {
      var f, more := fields[0], fields[1..];
      assert forall g | g in fields :: g == f || g in more;
      HeadersComeBack(headers, added[f.name := f.value], more);
    }
  }
}
