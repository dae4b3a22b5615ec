/**
 What the chat and echo formats guarantee: building and parsing undo each other,
 incomplete packages ask for exactly what is missing, corruption is caught.
 */
module PackageProperties {
  import opened BitSerial
  import opened CrcRegister
  import opened Crc
  import opened Packages

  /** The payload lengths for which a built package can be parsed back. */
  predicate ChatSized(payload: seq<byte>) { 1 <= |payload| <= 65525 }

  function EchoFrame(payload: seq<byte>): (s: seq<byte>)
    requires |payload| < 0x10000
    ensures |s| == |payload| + ECHO_HEADER
  {
    [0x7E] + Be16(|payload|) + payload
  }

  // ---- layout of a built frame ----

  lemma ChatFrameLayout(crypt: byte, dtype: byte, payload: seq<byte>)
    ensures var f := ChatFrame(crypt, dtype, payload);
      var n := |payload| % 0x10000;
      && f[0] == 0x7A && f[4] == dtype && f[5] == crypt && f[|f| - 1] == 0x7B
      && FromBe16(f[1], f[2]) == (n + CHAT_LENGTH) % 0x10000
      && f[CHAT_HEADER..CHAT_HEADER + n] == payload[..n]
      && CodeWord(f[..|f| - 1])
  {
    hide Crc16Of, Stored;
    var n := |payload| % 0x10000;
    var f := ChatFrame(crypt, dtype, payload);
    var body := ChatHead(crypt, dtype, n) + payload[..n];
    Be16RoundTrip((n + CHAT_LENGTH) % 0x10000);
    assert f[..|f| - 1] == body + Stored(Crc16Of(body));
    assert f[..|f| - 1][..|f| - 3] == body;
    assert f[..|f| - 1][|f| - 3..] == Stored(Crc16Of(body));
  }

  /** The version and the reserved byte. */
  lemma ChatFixedBytes(crypt: byte, dtype: byte, payload: seq<byte>)
    ensures var f := ChatFrame(crypt, dtype, payload); f[3] == 0x01 && f[6] == 0x00
  {
    hide Crc16Of, Stored;
  }

  lemma TailIsCodeWord(mem: seq<byte>, n: nat)
    requires CHAT_LENGTH < n <= |mem|
    ensures TailMatches(mem, n) <==> mem[n - 1] == 0x7B && CodeWord(mem[..n - 1])
  {
    hide Crc16Of, Stored;
    assert mem[..n - 1][..n - 3] == mem[..n - 3];
    assert mem[..n - 1][n - 3..] == mem[n - 3..n - 1];
  }

  // ---- building and parsing ----

  /** A built package in front of any bytes is recognised at its exact length. */
  lemma BuiltIsRecognised(crypt: byte, dtype: byte, payload: seq<byte>, suffix: seq<byte>, size: nat)
    requires ChatSized(payload)
    requires var f := ChatFrame(crypt, dtype, payload); |f| <= size <= |f + suffix|
    ensures var f := ChatFrame(crypt, dtype, payload);
      Recognise(f + suffix, size) == Whole(|f|)
  {
    hide Crc16Of, Stored, CodeWord, ChatFrame, TailMatches, FromBe16;
    var f := ChatFrame(crypt, dtype, payload);
    var mem := f + suffix;
    ChatFrameLayout(crypt, dtype, payload);
    assert mem[..|f| - 1] == f[..|f| - 1];
    assert mem[0] == f[0] && mem[1] == f[1] && mem[2] == f[2] && mem[|f| - 1] == f[|f| - 1];
    TailIsCodeWord(mem, |f|);
  }

  /** Parsing a built package gives back its payload, type and encryption. */
  lemma ChatRoundTrip(crypt: byte, dtype: byte, payload: seq<byte>, suffix: seq<byte>, size: nat)
    requires ChatSized(payload)
    requires var f := ChatFrame(crypt, dtype, payload); |f| <= size <= |f + suffix|
    ensures var f := ChatFrame(crypt, dtype, payload);
      var pkg := ChatGet(f + suffix, size);
      && pkg == Some(Chat(f, |payload|))
      && pkg.value.Payload() == payload && f[4] == dtype && f[5] == crypt
  {
    hide Crc16Of, Stored, CodeWord, ChatFrame, TailMatches, Recognise, FromBe16;
    var f := ChatFrame(crypt, dtype, payload);
    ChatFrameLayout(crypt, dtype, payload);
    BuiltIsRecognised(crypt, dtype, payload, suffix, size);
    assert (f + suffix)[..|f|] == f;
    assert payload[..|payload|] == payload;
  }

  /** A proper prefix long enough to be looked at asks for exactly the bytes that are missing. */
  lemma PrefixWantsTheRest(crypt: byte, dtype: byte, payload: seq<byte>, size: nat)
    requires ChatSized(payload)
    requires var f := ChatFrame(crypt, dtype, payload); 3 <= size < |f|
    ensures var f := ChatFrame(crypt, dtype, payload);
      Recognise(f[..size], size) == Partial(|f|, |f| - size)
  {
    hide CodeWord, ChatFrame, TailMatches;
    ChatFrameLayout(crypt, dtype, payload);
  }

  /** The parser passes both sizes on: of the whole package, and of what is missing. */
  lemma PartialIsReported(crypt: byte, dtype: byte, payload: seq<byte>, k: nat)
    requires ChatSized(payload)
    requires CHAT_LENGTH <= k < |ChatFrame(crypt, dtype, payload)|
    ensures var f := ChatFrame(crypt, dtype, payload);
      ChatParse(f[..k], k) == Parsed(false, 0, |f|, |f| - k)
  {
    hide Recognise, ChatFrame;
    PrefixWantsTheRest(crypt, dtype, payload, k);
  }

  lemma SurvivorIsSized(crypt: byte, dtype: byte, payload: seq<byte>, pkg: Package)
    requires var f := ChatFrame(crypt, dtype, payload); ChatGet(f, |f|) == Some(pkg)
    requires pkg.Header() + pkg.dataLength <= |pkg.raw| && pkg.Payload() == payload
    ensures ChatSized(payload)
  {
    hide CodeWord, ChatFrame, TailMatches, FromBe16;
    ChatFrameLayout(crypt, dtype, payload);
    assert |pkg.Payload()| == pkg.dataLength < 0x10000;
  }

  /** Exactly the sized payloads survive; an empty one, a length that wraps and a truncated one do not. */
  lemma SurvivesExactlyWhenSized(crypt: byte, dtype: byte, payload: seq<byte>)
    ensures var f := ChatFrame(crypt, dtype, payload);
      (exists pkg :: ChatGet(f, |f|) == Some(pkg) && pkg.Header() + pkg.dataLength <= |pkg.raw|
        && pkg.Payload() == payload)
      <==> ChatSized(payload)
  {
    hide ChatFrame, ChatGet;
    var f := ChatFrame(crypt, dtype, payload);
    if ChatSized(payload) {
      assert f + [] == f;
      ChatRoundTrip(crypt, dtype, payload, [], |f|);
      var pkg := ChatGet(f, |f|).value;
      assert pkg.Header() + pkg.dataLength <= |pkg.raw| && pkg.Payload() == payload;
    }
    forall pkg | ChatGet(f, |f|) == Some(pkg) && pkg.Header() + pkg.dataLength <= |pkg.raw| && pkg.Payload() == payload
      ensures ChatSized(payload)
    {
      SurvivorIsSized(crypt, dtype, payload, pkg);
    }
  }

  // ---- corruption ----

  lemma {:induction false} MessageBitsInjective(a: seq<byte>, b: seq<byte>)
    requires |a| == |b| && MessageBits(a) == MessageBits(b)
    ensures a == b
  {
    if a != [] {
      var x, y := MessageBits(a), MessageBits(b);
      assert x[..8] == ByteBits(a[0]) && y[..8] == ByteBits(b[0]);
      assert x[8..] == MessageBits(a[1..]) && y[8..] == MessageBits(b[1..]);
      ByteBitsInjective(a[0], b[0]);
      MessageBitsInjective(a[1..], b[1..]);
      assert a == [a[0]] + a[1..] && b == [b[0]] + b[1..];
    }
  }

  lemma ByteBitsInjective(a: byte, b: byte)
    requires ByteBits(a) == ByteBits(b)
    ensures a == b
  {
    var x, y := a as bv16, b as bv16;
    ByteFits(a);
    ByteFits(b);
    forall i: nat | i < 8
      ensures WordBit(x, i) == WordBit(y, i)
    {
      ByteBitOfWord(a, i);
      ByteBitOfWord(b, i);
      assert ByteBits(a)[i] == ByteBits(b)[i];
    }
    WordFromBits(x, y, 8);
  }

  lemma MessageBitsPrefix(m: seq<byte>, k: nat)
    requires k <= |m|
    ensures MessageBits(m[..k]) == MessageBits(m)[..8 * k]
  {
    assert m == m[..k] + m[k..];
    MessageBitsConcat(m[..k], m[k..]);
  }

  /** A frame that is recognised whole carries a code word. */
  lemma WholeIsCodeWord(mem: seq<byte>, size: nat)
    requires 3 <= |mem| && size <= |mem| && Recognise(mem, size).Whole?
    ensures var n := FromBe16(mem[1], mem[2]);
      CHAT_LENGTH < n <= size && mem[0] == 0x7A && mem[n - 1] == 0x7B && CodeWord(mem[..n - 1])
  {
    hide CodeWord, TailMatches;
    TailIsCodeWord(mem, FromBe16(mem[1], mem[2]));
  }

  lemma BurstInPrefix(a: seq<bool>, b: seq<bool>, from: nat, width: nat, k: nat)
    requires Burst(a, b, from, width) && k <= |a|
    requires a[..k] != b[..k]
    ensures exists from': nat, width': nat :: width' <= width && Burst(a[..k], b[..k], from', width')
  {
    var width' := if from + width <= k then width else k - from;
    assert Burst(a[..k], b[..k], from, width');
  }

  /**
   A built package in which some bits of at most sixteen consecutive ones changed, the
   length field left alone, is not accepted, whatever follows it.
   */
  lemma BurstIsRejected(crypt: byte, dtype: byte, payload: seq<byte>, bad: seq<byte>, suffix: seq<byte>,
          from: nat, width: nat)
    requires ChatSized(payload)
    requires var f := ChatFrame(crypt, dtype, payload);
      |bad| == |f| && bad[1..3] == f[1..3] && width <= 16 && Burst(MessageBits(f), MessageBits(bad), from, width)
    ensures Recognise(bad + suffix, |bad + suffix|) == NotAPackage
  {
    hide CodeWord, ChatFrame, TailMatches, MessageBits, Burst, FromBe16;
    var f := ChatFrame(crypt, dtype, payload);
    var n := |f| - 1;
    ChatFrameLayout(crypt, dtype, payload);
    assert bad[1] == bad[1..3][0] && bad[2] == bad[1..3][1] && f[1] == f[1..3][0] && f[2] == f[1..3][1];
    assert (bad + suffix)[..n] == bad[..n];
    if Recognise(bad + suffix, |bad + suffix|).Whole? {
      WholeIsCodeWord(bad + suffix, |bad + suffix|);
      MessageBitsPrefix(f, n);
      MessageBitsPrefix(bad, n);
      DifferBeforeTail(f, bad, from, width);
      BurstInPrefix(MessageBits(f), MessageBits(bad), from, width, 8 * n);
      var from': nat, width': nat :| width' <= width
        && Burst(MessageBits(f[..n]), MessageBits(bad[..n]), from', width');
      BurstIsDetected(f[..n], bad[..n], from', width');
      assert false;
    }
  }

  lemma DifferBeforeTail(f: seq<byte>, bad: seq<byte>, from: nat, width: nat)
    requires |f| == |bad| > 0 && f[|f| - 1] == bad[|f| - 1]
    requires Burst(MessageBits(f), MessageBits(bad), from, width)
    ensures MessageBits(f)[..8 * (|f| - 1)] != MessageBits(bad)[..8 * (|f| - 1)]
  {
    hide MessageBits;
    var n := |f| - 1;
    MessageBitsPrefix(f, n);
    MessageBitsPrefix(bad, n);
    assert f == f[..n] + [f[n]] && bad == bad[..n] + [bad[n]];
    if MessageBits(f[..n]) == MessageBits(bad[..n]) {
      MessageBitsInjective(f[..n], bad[..n]);
      assert false;
    }
  }

  /** The same holds for an odd number of changed bits before the tail flag, wherever they are. */
  lemma OddErrorIsRejected(crypt: byte, dtype: byte, payload: seq<byte>, bad: seq<byte>, suffix: seq<byte>)
    requires ChatSized(payload)
    requires var f := ChatFrame(crypt, dtype, payload);
      && |bad| == |f| && bad[1..3] == f[1..3]
      && Odd(Sum(MessageBits(f[..|f| - 1]), MessageBits(bad[..|f| - 1])))
    ensures Recognise(bad + suffix, |bad + suffix|) == NotAPackage
  {
    hide CodeWord, ChatFrame, TailMatches, MessageBits, Odd, Sum;
    var f := ChatFrame(crypt, dtype, payload);
    var n := |f| - 1;
    ChatFrameLayout(crypt, dtype, payload);
    assert bad[1] == bad[1..3][0] && bad[2] == bad[1..3][1] && f[1] == f[1..3][0] && f[2] == f[1..3][1];
    assert (bad + suffix)[..n] == bad[..n];
    if Recognise(bad + suffix, |bad + suffix|).Whole? {
      WholeIsCodeWord(bad + suffix, |bad + suffix|);
      OddErrorIsDetected(f[..n], bad[..n]);
      assert false;
    }
  }

  // ---- a damaged length field ----

  /** A payload that ends like a shorter package of its own. */
  function Decoy(crypt: byte, dtype: byte, q: seq<byte>): (payload: seq<byte>)
    requires ChatSized(q)
    ensures |payload| == |q| + CHAT_TAIL
  {
    q + Stored(Crc16Of(ChatHead(crypt, dtype, |q|) + q)) + [0x7B]
  }

  lemma FrameParts(crypt: byte, dtype: byte, payload: seq<byte>)
    requires ChatSized(payload)
    ensures var head := [0x7A] + Be16(|payload| + CHAT_LENGTH);
      ChatFrame(crypt, dtype, payload) == head + ([0x01, dtype, crypt, 0x00]
        + (payload + Stored(Crc16Of(ChatHead(crypt, dtype, |payload|) + payload)) + [0x7B]))
  {
    hide Crc16Of, Stored, Be16;
    assert payload[..|payload|] == payload;
  }

  /** Nothing but the length field tells the decoy's frame from the shorter package with something after it. */
  lemma DecoyFrame(crypt: byte, dtype: byte, q: seq<byte>) returns (rest: seq<byte>, tail: seq<byte>)
    requires ChatSized(q) && ChatSized(Decoy(crypt, dtype, q))
    ensures ChatFrame(crypt, dtype, Decoy(crypt, dtype, q)) == [0x7A] + Be16(|q| + CHAT_TAIL + CHAT_LENGTH) + rest
    ensures ChatFrame(crypt, dtype, q) + tail == [0x7A] + Be16(|q| + CHAT_LENGTH) + rest
  {
    hide Crc16Of, Stored, Be16, ChatHead, ChatFrame;
    var payload := Decoy(crypt, dtype, q);
    FrameParts(crypt, dtype, payload);
    FrameParts(crypt, dtype, q);
    var crc := Stored(Crc16Of(ChatHead(crypt, dtype, |payload|) + payload));
    tail := crc + [0x7B];
    rest := [0x01, dtype, crypt, 0x00] + (payload + crc + [0x7B]);
  }

  /**
   The length field has no protection of its own. For every short enough payload there is a
   package in which damage to that field alone, sixteen consecutive bits, is accepted: as the
   package that the payload would have made.
   */
  lemma DamagedLengthIsAccepted(crypt: byte, dtype: byte, q: seq<byte>) returns (f: seq<byte>, bad: seq<byte>)
    requires ChatSized(q) && |q| + CHAT_TAIL <= 65525
    ensures f == ChatFrame(crypt, dtype, Decoy(crypt, dtype, q)) && |bad| == |f|
    ensures f[1..3] == Be16(|q| + CHAT_TAIL + CHAT_LENGTH) && bad[1..3] == Be16(|q| + CHAT_LENGTH)
    ensures bad[..1] == f[..1] && bad[3..] == f[3..] && Burst(MessageBits(f), MessageBits(bad), 8, 16)
    ensures Recognise(bad, |bad|) == Whole(|q| + CHAT_LENGTH)
    ensures ChatGet(bad, |bad|) == Some(Chat(ChatFrame(crypt, dtype, q), |q|))
  {
    hide Decoy, Crc16Of, Stored, CodeWord, TailMatches, Recognise, MessageBits, ChatFrame;
    hide Be16, ChatGet, Burst, FromBe16;
    f := ChatFrame(crypt, dtype, Decoy(crypt, dtype, q));
    var rest, tail := DecoyFrame(crypt, dtype, q);
    var g := ChatFrame(crypt, dtype, q);
    bad := g + tail;
    BuiltIsRecognised(crypt, dtype, q, tail, |bad|);
    ChatRoundTrip(crypt, dtype, q, tail, |bad|);
    Be16RoundTrip(|q| + CHAT_TAIL + CHAT_LENGTH);
    Be16RoundTrip(|q| + CHAT_LENGTH);
    LengthBurst(Be16(|q| + CHAT_TAIL + CHAT_LENGTH), Be16(|q| + CHAT_LENGTH), rest);
  }

  lemma LengthBurst(a: seq<byte>, b: seq<byte>, rest: seq<byte>)
    requires |a| == |b| == 2 && a != b
    ensures Burst(MessageBits([0x7A] + a + rest), MessageBits([0x7A] + b + rest), 8, 16)
  {
    var f, bad := [0x7A] + a + rest, [0x7A] + b + rest;
    MessageBitsConcat([0x7A] + a, rest);
    MessageBitsConcat([0x7A] + b, rest);
    MessageBitsConcat([0x7A], a);
    MessageBitsConcat([0x7A], b);
    hide MessageBits;
    assert f[1..3] == a && bad[1..3] == b;
    if MessageBits(f) == MessageBits(bad) {
      MessageBitsInjective(f, bad);
      assert false;
    }
  }

  lemma {:induction false} OddOfConcat(a: seq<bool>, b: seq<bool>)
    ensures Odd(a + b) == (Odd(a) != Odd(b))
    decreases |a|
  {
    if a == [] {
      assert a + b == b;
    } else {
      assert (a + b)[1..] == a[1..] + b;
      OddOfConcat(a[1..], b);
    }
  }

  lemma OddOfSeventeen()
    ensures !Odd(ByteBits(17))
  {
    ByteFits(17);
    OddOfWordBits(17, 8);
    WordOddNext(17, true, 4, 8);
    WordOddNext(4, false, 1, 6);
    WordOddNext(1, true, 0, 4);
    WordOddNext(0, false, 0, 2);
  }

  lemma OddOfFourteen()
    ensures Odd(ByteBits(14))
  {
    ByteFits(14);
    OddOfWordBits(14, 8);
    WordOddNext(14, true, 3, 8);
    WordOddNext(3, false, 0, 6);
    WordOddNext(0, false, 0, 4);
    WordOddNext(0, false, 0, 2);
  }

  lemma LengthParity(a: seq<byte>, rest: seq<byte>)
    requires |a| == 2
    ensures Odd(MessageBits([0x7A] + a + rest)) ==
      (Odd(MessageBits([0x7A])) != (Odd(ByteBits(a[0])) != (Odd(ByteBits(a[1])) != Odd(MessageBits(rest)))))
  {
    MessageBitsConcat([0x7A] + a, rest);
    MessageBitsConcat([0x7A], a);
    assert a == [a[0]] + [a[1]];
    MessageBitsConcat([a[0]], [a[1]]);
    MessageBitsSnoc([], a[0]);
    MessageBitsSnoc([], a[1]);
    assert [] + [a[0]] == [a[0]] && [] + [a[1]] == [a[1]];
    assert [] + ByteBits(a[0]) == ByteBits(a[0]) && [] + ByteBits(a[1]) == ByteBits(a[1]);
    hide MessageBits, ByteBits, Odd;
    OddOfConcat(MessageBits([0x7A] + a), MessageBits(rest));
    OddOfConcat(MessageBits([0x7A]), MessageBits(a));
    OddOfConcat(ByteBits(a[0]), ByteBits(a[1]));
  }

  /** With a decoy of four bytes the damage, from 17 to 14, is to an odd number of bits. */
  lemma OddDamageToLengthIsAccepted(crypt: byte, dtype: byte, q: seq<byte>) returns (f: seq<byte>, bad: seq<byte>)
    requires |q| == 4
    ensures f == ChatFrame(crypt, dtype, Decoy(crypt, dtype, q)) && |bad| == |f|
    ensures Odd(Sum(MessageBits(f[..|f| - 1]), MessageBits(bad[..|f| - 1])))
    ensures Recognise(bad, |bad|) == Whole(|q| + CHAT_LENGTH)
  {
    hide Crc16Of, Stored, CodeWord, TailMatches, Recognise, MessageBits, ChatFrame, Odd, Sum, ByteBits;
    hide Decoy, ChatGet, Burst, FromBe16;
    f, bad := DamagedLengthIsAccepted(crypt, dtype, q);
    ChatFrameLayout(crypt, dtype, Decoy(crypt, dtype, q));
    assert f[1..3] == [0, 17] && bad[1..3] == [0, 14];
    var rest := f[3..|f| - 1];
    assert bad[3..][..|f| - 4] == f[3..][..|f| - 4] && bad[0] == bad[..1][0] == f[0] == 0x7A;
    var a: seq<byte>, b: seq<byte> := [0, 17], [0, 14];
    assert f[..|f| - 1] == [0x7A] + a + rest && bad[..|f| - 1] == [0x7A] + b + rest;
    LengthParity(a, rest);
    LengthParity(b, rest);
    OddOfSeventeen();
    OddOfFourteen();
    OddOfSum(MessageBits(f[..|f| - 1]), MessageBits(bad[..|f| - 1]));
  }
}
