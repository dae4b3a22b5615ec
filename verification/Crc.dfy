/**
 The checksums of Package/CRC.cpp, computed by table, and what a CRC-16 check is worth.
 */
module Crc {
  import opened BitSerial
  import opened CrcTables
  import opened CrcRegister

  function MessageBits(m: seq<byte>): (s: seq<bool>)
    ensures |s| == 8 * |m|
  {
    if m == [] then [] else ByteBits(m[0]) + MessageBits(m[1..])
  }

  /** CRC-16 by definition: one message bit at a time from an all-ones register. */
  function Crc16Of(m: seq<byte>): bv16 { FeedWord(0xFFFF, MessageBits(m)) }

  /** CRC-32 by definition, complemented at the end. */
  function Crc32Of(m: seq<byte>): bv32 { FeedDword(0xFFFFFFFF, MessageBits(m)) ^ 0xFFFFFFFF }

  lemma {:induction false} MessageBitsConcat(a: seq<byte>, b: seq<byte>)
    ensures MessageBits(a + b) == MessageBits(a) + MessageBits(b)
  {
    hide ByteBits;
    if a == [] {
      assert a + b == b;
    } else {
      MessageBitsConcat(a[1..], b);
      assert (a + b)[1..] == a[1..] + b;
      var h, t, u := ByteBits(a[0]), MessageBits(a[1..]), MessageBits(b);
      assert h + (t + u) == (h + t) + u;
    }
  }

  lemma MessageBitsSnoc(m: seq<byte>, b: byte)
    ensures MessageBits(m + [b]) == MessageBits(m) + ByteBits(b)
  {
    MessageBitsConcat(m, [b]);
    assert MessageBits([b]) == ByteBits(b) + [];
  }

  // ---- the table-driven loops ----

  lemma Crc16Next(msg: seq<byte>, k: nat, hi: byte, lo: byte)
    requires k < |msg| && Word(hi, lo) == Crc16Of(msg[..k])
    ensures FeedWord(Word(hi, lo), ByteBits(msg[k])) == Crc16Of(msg[..k + 1])
  {
    FeedWordConcat(0xFFFF, MessageBits(msg[..k]), ByteBits(msg[k]));
    MessageBitsSnoc(msg[..k], msg[k]);
    assert msg[..k] + [msg[k]] == msg[..k + 1];
  }

  method Crc16Loop(hi: byte, lo: byte, b: byte) returns (hi': byte, lo': byte)
    ensures Word(hi', lo') == FeedWord(Word(hi, lo), ByteBits(b))
  {
    Crc16Turn(hi, lo, b);
    var index := lo ^ b;
    lo' := hi ^ AuchCrcLo(index);
    hi' := AuchCrcHi(index);
  }

  method Crc16(msg: seq<byte>) returns (crc: bv16)
    ensures crc == Crc16Of(msg)
  {
    var hi: byte, lo: byte := 0xFF, 0xFF;
    var k := 0;
    while k < |msg|
      invariant 0 <= k <= |msg|
      invariant Word(hi, lo) == Crc16Of(msg[..k])
    {
      Crc16Next(msg, k, hi, lo);
      hi, lo := Crc16Loop(hi, lo, msg[k]);
      k := k + 1;
    }
    assert msg[..k] == msg;
    crc := Word(hi, lo);
  }

  lemma Crc32Next(start: bv32, buf: seq<byte>, k: nat)
    requires k < |buf|
    ensures FeedDword(FeedDword(start, MessageBits(buf[..k])), ByteBits(buf[k]))
      == FeedDword(start, MessageBits(buf[..k + 1]))
  {
    FeedDwordConcat(start, MessageBits(buf[..k]), ByteBits(buf[k]));
    MessageBitsSnoc(buf[..k], buf[k]);
    assert buf[..k] + [buf[k]] == buf[..k + 1];
  }

  method Crc32(start: bv32, buf: seq<byte>) returns (crc: bv32)
    ensures crc == FeedDword(start, MessageBits(buf)) ^ 0xFFFFFFFF
  {
    crc := start;
    var k := 0;
    while k < |buf|
      invariant 0 <= k <= |buf|
      invariant crc == FeedDword(start, MessageBits(buf[..k]))
    {
      Crc32Next(start, buf, k);
      Crc32Turn(crc, buf[k]);
      crc := DwordXor(Crc32Tab(Crc32Index(crc, buf[k])), crc >> 8);
      k := k + 1;
    }
    assert buf[..k] == buf;
    crc := crc ^ 0xFFFFFFFF;
  }

  method Crc32Check(buf: seq<byte>) returns (crc: bv32)
    ensures crc == Crc32Of(buf)
  {
    crc := Crc32(0xFFFFFFFF, buf);
  }

  // ---- what the check detects ----

  function Ones16(): (s: seq<bool>) ensures |s| == 16 { WordBits(0xFFFF) }

  /** The computed word is the remainder of bit-serial division. */
  lemma Crc16IsRemainder(m: seq<byte>)
    ensures WordBits(Crc16Of(m)) == Feed(POLY16, Ones16(), MessageBits(m))
  {
    FeedWordIsDivision(0xFFFF, MessageBits(m));
  }

  lemma Crc32IsRemainder(m: seq<byte>)
    ensures DwordBits(Crc32Of(m) ^ 0xFFFFFFFF) == Feed(POLY32, DwordBits(0xFFFFFFFF), MessageBits(m))
  {
    FeedDwordIsDivision(0xFFFFFFFF, MessageBits(m));
    var w := FeedDword(0xFFFFFFFF, MessageBits(m));
    assert (w ^ 0xFFFFFFFF) ^ 0xFFFFFFFF == w;
  }

  /** Two messages that differ only within sixteen consecutive bits have different CRC-16. */
  lemma BurstChangesCrc16(a: seq<byte>, b: seq<byte>, from: nat, width: nat)
    requires Burst(MessageBits(a), MessageBits(b), from, width) && width <= 16
    ensures Crc16Of(a) != Crc16Of(b)
  {
    Poly16Top();
    BurstChangesRemainder(POLY16, Ones16(), MessageBits(a), MessageBits(b), from, width);
    Crc16IsRemainder(a);
    Crc16IsRemainder(b);
  }

  /** And within thirty-two, different CRC-32. */
  lemma BurstChangesCrc32(a: seq<byte>, b: seq<byte>, from: nat, width: nat)
    requires Burst(MessageBits(a), MessageBits(b), from, width) && width <= 32
    ensures Crc32Of(a) != Crc32Of(b)
  {
    Poly32Top();
    BurstChangesRemainder(POLY32, DwordBits(0xFFFFFFFF), MessageBits(a), MessageBits(b), from, width);
    Crc32IsRemainder(a);
    Crc32IsRemainder(b);
  }

  // A word as it is stored, low byte first.
  function Stored(w: bv16): (s: seq<byte>)
    ensures |s| == 2
  {
    [(w & 0xFF) as bv8, (w >> 8) as bv8]
  }

  lemma StoredWord(lo: byte, hi: byte)
    ensures Stored(Word(hi, lo)) == [lo, hi]
  {
  }

  lemma WordOfStored(w: bv16)
    ensures Word(Stored(w)[1], Stored(w)[0]) == w
  {
  }

  /** `code` is a message followed by its own CRC. */
  predicate CodeWord(code: seq<byte>) {
    2 <= |code| && code[|code| - 2..] == Stored(Crc16Of(code[..|code| - 2]))
  }

  lemma CodeBits(m: seq<byte>, lo: byte, hi: byte)
    ensures MessageBits(m + [lo, hi]) == MessageBits(m) + WordBits(Word(hi, lo))
  {
    MessageBitsConcat(m, [lo, hi]);
    MessageBitsSnoc([lo], hi);
    MessageBitsSnoc([], lo);
    assert [] + [lo] == [lo] && [lo] + [hi] == [lo, hi];
    assert [] + ByteBits(lo) == ByteBits(lo);
    WordBitsOfBytes(hi, lo);
  }

  lemma StoredIs(w: bv16, lo: byte, hi: byte)
    ensures [lo, hi] == Stored(w) <==> WordBits(Word(hi, lo)) == WordBits(w)
  {
    StoredWord(lo, hi);
    WordOfStored(w);
    if WordBits(Word(hi, lo)) == WordBits(w) {
      WordBitsAreInjective(Word(hi, lo), w);
    }
  }

  /** A message followed by its CRC is exactly what divides to nothing. */
  lemma CodeWordsDivide(code: seq<byte>)
    requires 2 <= |code|
    ensures CodeWord(code) <==> Feed(POLY16, Ones16(), MessageBits(code)) == Zeros(16)
  {
    var n := |code| - 2;
    var m, lo, hi := code[..n], code[n], code[n + 1];
    assert code[n..] == [lo, hi] && code == m + [lo, hi];
    CodeBits(m, lo, hi);
    Poly16Top();
    RemainderCompletes(POLY16, Ones16(), MessageBits(m), WordBits(Word(hi, lo)));
    Crc16IsRemainder(m);
    StoredIs(Crc16Of(m), lo, hi);
  }

  /** No burst of at most sixteen bits, the stored CRC included, turns a code word into another. */
  lemma BurstIsDetected(code: seq<byte>, bad: seq<byte>, from: nat, width: nat)
    requires CodeWord(code) && Burst(MessageBits(code), MessageBits(bad), from, width) && width <= 16
    ensures !CodeWord(bad)
  {
    Poly16Top();
    CodeWordsDivide(code);
    BurstChangesRemainder(POLY16, Ones16(), MessageBits(code), MessageBits(bad), from, width);
    CodeWordsDivide(bad);
  }

  /** The CRC has the parity of its message, so a code word always has an even number of bits set. */
  lemma Crc16Parity(m: seq<byte>)
    ensures Odd(WordBits(Crc16Of(m))) == Odd(MessageBits(m))
  {
    Crc16IsRemainder(m);
    Poly16Parity();
    AllOnesParity();
    FeedParity(POLY16, Ones16(), MessageBits(m));
  }

  /** No error that flips an odd number of bits turns a code word into another. */
  lemma OddErrorIsDetected(code: seq<byte>, bad: seq<byte>)
    requires CodeWord(code) && |bad| == |code|
    requires Odd(Sum(MessageBits(code), MessageBits(bad)))
    ensures !CodeWord(bad)
  {
    CodeWordsDivide(code);
    CodeWordsDivide(bad);
    Poly16Parity();
    FeedParity(POLY16, Ones16(), MessageBits(code));
    FeedParity(POLY16, Ones16(), MessageBits(bad));
    OddOfSum(MessageBits(code), MessageBits(bad));
  }
}
