/** Searching in text, as std::find, std::search and isspace do. */
module Text {

  const CRLF := "\r\n"

  /** The first position of `c`, or the end. */
  function Find(s: string, c: char): (k: nat)
    ensures k <= |s|
    ensures k < |s| ==> s[k] == c
    ensures forall i | 0 <= i < k :: s[i] != c
  {
    if s == [] || s[0] == c then 0 else 1 + Find(s[1..], c)
  }

  predicate CrlfAt(s: string, i: nat) {
    i + 2 <= |s| && s[i] == '\r' && s[i + 1] == '\n'
  }

  /** The first position of CRLF, or the end. */
  function FindCrlf(s: string): (k: nat)
    ensures k <= |s|
    ensures k < |s| ==> CrlfAt(s, k)
    ensures forall i: nat | i < k :: !CrlfAt(s, i)
  {
    if |s| < 2 then |s|
    else if CrlfAt(s, 0) then 0
    else
      var k := FindCrlf(s[1..]);
      assert forall i: nat | 0 < i && CrlfAt(s, i) :: CrlfAt(s[1..], i - 1);
      1 + k
  }

  predicate OneLine(s: string) { FindCrlf(s) == |s| }

  lemma FindIs(s: string, c: char, k: nat)
    requires k < |s| && s[k] == c && c !in s[..k]
    ensures Find(s, c) == k
  {
    assert forall i | 0 <= i < k :: s[i] == s[..k][i];
  }

  lemma FindNone(s: string, c: char)
    ensures Find(s, c) == |s| <==> c !in s
    ensures c !in s[..Find(s, c)]
  {
  }

  /** The first line of a text is what precedes its first CRLF. */
  lemma FirstLine(line: string, rest: string)
    requires OneLine(line)
    ensures FindCrlf(line + CRLF + rest) == |line|
  {
    var s := line + CRLF + rest;
    assert CrlfAt(s, |line|);
    forall i: nat | i < |line|
      ensures !CrlfAt(s, i)
    {
      assert CrlfAt(s, i) ==> CrlfAt(line, i);
    }
  }

  /** More text after it does not move a CRLF that is already there. */
  lemma FindCrlfExtends(a: string, b: string)
    requires FindCrlf(a) < |a|
    ensures FindCrlf(a + b) == FindCrlf(a)
  {
    var k := FindCrlf(a);
    assert CrlfAt(a + b, k);
    assert forall i: nat | i < k && CrlfAt(a + b, i) :: CrlfAt(a, i);
  }

  /** isspace in the C locale. */
  predicate IsSpace(c: char) {
    c == ' ' || '\t' <= c <= '\r'
  }

  lemma SpacesOfTheCLocale(c: char)
    ensures IsSpace(c) <==> c in {' ', '\t', '\n', '\U{0B}', '\U{0C}', '\r'}
  {
  }

  predicate Blank(s: string) { forall c | c in s :: IsSpace(c) }

  predicate Trimmed(s: string) { s != [] ==> !IsSpace(s[0]) && !IsSpace(s[|s| - 1]) }

  /** A text without CR and LF is one line. */
  predicate NoCrLf(s: string) { '\r' !in s && '\n' !in s }

  lemma NoCrLfIsOneLine(s: string)
    requires NoCrLf(s)
    ensures OneLine(s)
  {
    assert forall i: nat | i < |s| :: s[i] in s;
  }
}
