/** Integers in network byte order, as the buffer appends, peeks and prepends them. */
module BigEndian {

  function Pow256(n: nat): (p: nat)
    ensures p > 0
  {
    if n == 0 then 1 else 256 * Pow256(n - 1)
  }

  function Character(d: nat): (c: char)
    requires d < 256
    ensures c as int == d
  {
    d as char
  }

  function Digits(x: nat, width: nat): (s: string)
    ensures |s| == width
  {
    if width == 0 then "" else Digits(x / 256, width - 1) + [Character(x % 256)]
  }

  function Digit(c: char): (d: nat)
    ensures d < 256 && (c as int < 256 ==> d == c as int)
  {
    c as int % 256
  }

  function Value(s: string): nat {
    if s == "" then 0 else 256 * Value(s[..|s| - 1]) + Digit(s[|s| - 1])
  }

  /** The values of a signed integer of `width` bytes. */
  predicate Fits(x: int, width: nat) {
    0 <= 2 * x + Pow256(width) < 2 * Pow256(width)
  }

  /** hostToNetwork followed by a byte-wise copy. */
  function IntBytes(x: int, width: nat): string
    requires Fits(x, width)
  {
    Digits(if x < 0 then x + Pow256(width) else x, width)
  }

  /** A byte-wise copy followed by networkToHost. */
  function IntOf(s: string): int {
    if 2 * Value(s) < Pow256(|s|) then Value(s) else Value(s) - Pow256(|s|)
  }

  predicate Octets(s: string) { forall c | c in s :: c as int < 256 }

  lemma {:induction false} ValueOfDigits(x: nat, width: nat)
    requires x < Pow256(width)
    ensures Value(Digits(x, width)) == x && Octets(Digits(x, width))
    decreases width
  {
    if width > 0 {
      ValueOfDigits(x / 256, width - 1);
      var s := Digits(x, width);
      assert s[..width - 1] == Digits(x / 256, width - 1);
    }
  }

  /** The first byte carries the high part, so integers of one width are ordered as their first bytes are. */
  lemma {:induction false} FirstDigitIsHigh(x: nat, width: nat)
    requires width > 0 && x < Pow256(width)
    ensures var high := Digits(x, width)[0] as int;
      high * Pow256(width - 1) <= x < (high + 1) * Pow256(width - 1)
    decreases width
  {
    hide Character;
    if width == 1 {
      assert Digits(x / 256, 0) == "" && Pow256(0) == 1;
    } else {
      FirstDigitIsHigh(x / 256, width - 1);
      var high, p := Digits(x, width)[0] as int, Pow256(width - 2);
      assert high == Digits(x / 256, width - 1)[0] as int;
      HighPartScales(x, high, p);
    }
  }

  lemma HighPartScales(x: nat, high: int, p: nat)
    requires high * p <= x / 256 < (high + 1) * p
    ensures high * (256 * p) <= x < (high + 1) * (256 * p)
  {
    var low, up := high * p, (high + 1) * p;
    assert high * (256 * p) == 256 * low && (high + 1) * (256 * p) == 256 * up;
    assert x == 256 * (x / 256) + x % 256;
  }

  lemma {:induction false} DigitsOfValue(s: string)
    requires Octets(s)
    ensures Value(s) < Pow256(|s|) && Digits(Value(s), |s|) == s
  {
    if s != "" {
      var front, last := s[..|s| - 1], s[|s| - 1];
      assert forall c | c in front :: c in s;
      DigitsOfValue(front);
      assert Value(s) / 256 == Value(front) && Value(s) % 256 == Digit(last);
      assert last in s && (last as int) as char == last;
      assert s == front + [last];
    }
  }

  /** What is read is what was appended, for every width and sign; and reading loses nothing. */
  lemma IntRoundTrip(x: int, width: nat, s: string)
    requires Fits(x, width)
    ensures IntOf(IntBytes(x, width)) == x
    ensures Octets(s) && |s| > 0 ==> Fits(IntOf(s), |s|) && IntBytes(IntOf(s), |s|) == s
  {
    ValueOfDigits(if x < 0 then x + Pow256(width) else x, width);
    if Octets(s) {
      DigitsOfValue(s);
    }
  }
}
