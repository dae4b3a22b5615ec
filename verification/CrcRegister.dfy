/**
 The registers of Package/CRC.cpp as machine words: shifting a word after adding a
 bit is a step of bit-serial division, and a table lookup is eight such steps.

 Halving, exclusive or and the lowest bit go by names here, so that the lemmas can
 argue with equations between words instead of single bits.
 */
module CrcRegister {
  import opened BitSerial
  import opened CrcTables

  type byte = bv8

  // ---- the 16-bit register as a bit string ----

  predicate WordLow(w: bv16) { w & 1 == 1 }
  function WordHalf(w: bv16): bv16 { w >> 1 }
  function WordXor(w: bv16, p: bv16): bv16 { w ^ p }

  predicate WordBit(w: bv16, i: nat)
    decreases i
  {
    if i == 0 then WordLow(w) else WordBit(WordHalf(w), i - 1)
  }

  function WordBits(w: bv16): (s: seq<bool>)
    ensures |s| == 16
  {
    seq(16, i requires 0 <= i => WordBit(w, i))
  }

  const POLY16: seq<bool> := WordBits(0xA001)

  lemma WordXorParts(w: bv16, p: bv16)
    ensures WordHalf(WordXor(w, p)) == WordXor(WordHalf(w), WordHalf(p))
    ensures WordLow(WordXor(w, p)) == (WordLow(w) != WordLow(p))
  {
  }

  lemma WordBitXorStep(w: bv16, p: bv16, i: nat)
    requires 0 < i
    requires WordBit(WordXor(WordHalf(w), WordHalf(p)), i - 1)
      == (WordBit(WordHalf(w), i - 1) != WordBit(WordHalf(p), i - 1))
    ensures WordBit(WordXor(w, p), i) == (WordBit(w, i) != WordBit(p, i))
  {
    WordXorParts(w, p);
  }

  lemma {:induction false} WordBitXor(w: bv16, p: bv16, i: nat)
    ensures WordBit(WordXor(w, p), i) == (WordBit(w, i) != WordBit(p, i))
    decreases i
  {
    if i == 0 {
      WordXorParts(w, p);
    } else {
      WordBitXor(WordHalf(w), WordHalf(p), i - 1);
      WordBitXorStep(w, p, i);
    }
  }

  function WordNibble(w: bv16): bv16 { w >> 4 }

  lemma WordBitFour(w: bv16, i: nat)
    requires 4 <= i
    ensures WordBit(w, i) == WordBit(WordNibble(w), i - 4)
  {
    var h := WordHalf(WordHalf(w));
    assert WordBit(w, i) == WordBit(WordHalf(w), i - 1) == WordBit(h, i - 2);
    assert WordBit(h, i - 2) == WordBit(WordHalf(h), i - 3) == WordBit(WordHalf(WordHalf(h)), i - 4);
    assert WordHalf(WordHalf(h)) == WordNibble(w);
  }

  lemma WordNothingLeft(w: bv16)
    ensures !WordBit(WordNibble(WordNibble(WordNibble(WordNibble(w)))), 0)
  {
  }

  lemma WordBitBeyond(w: bv16)
    ensures !WordBit(w, 16)
  {
    var w1 := WordNibble(w);
    var w2 := WordNibble(w1);
    var w3 := WordNibble(w2);
    var w4 := WordNibble(w3);
    WordBitFour(w, 16);
    WordBitFour(w1, 12);
    WordBitFour(w2, 8);
    WordBitFour(w3, 4);
    WordNothingLeft(w);
  }

  lemma WordFeedback(h: bv16, out: bool, i: nat)
    ensures WordBit(if out then WordXor(h, 0xA001) else h, i) == (WordBit(h, i) != (out && WordBit(0xA001, i)))
  {
    if out { WordBitXor(h, 0xA001, i); }
  }

  lemma ShiftCases(w: bv16, b: bool)
    ensures Shift(WordXor(w, BitWord(b))) ==
      if WordLow(w) != b then WordXor(WordHalf(w), 0xA001) else WordHalf(w)
  {
  }

  function BitWord(b: bool): bv16 { if b then 1 else 0 }

  lemma ShiftBits(w: bv16, b: bool, s: bv16)
    requires s == if WordLow(w) != b then WordXor(WordHalf(w), 0xA001) else WordHalf(w)
    ensures WordBits(s) == Step(POLY16, WordBits(w), b)
  {
    WordBitBeyond(w);
    forall i | 0 <= i < 16
      ensures WordBits(s)[i] == Step(POLY16, WordBits(w), b)[i]
    {
      WordFeedback(WordHalf(w), WordLow(w) != b, i);
    }
  }

  /** Shifting the register after adding a bit is one step of bit-serial division. */
  lemma ShiftIsStep(w: bv16, b: bool)
    ensures WordBits(Shift(WordXor(w, BitWord(b)))) == Step(POLY16, WordBits(w), b)
  {
    ShiftCases(w, b);
    ShiftBits(w, b, Shift(WordXor(w, BitWord(b))));
  }

  function ShiftMany(w: bv16, n: nat): bv16
    decreases n
  {
    if n == 0 then w else ShiftMany(Shift(w), n - 1)
  }

  predicate WordFits(x: bv16, n: nat)
    decreases n
  {
    if n == 0 then x == 0 else WordFits(WordHalf(x), n - 1)
  }

  lemma ShiftAbsorbs(w: bv16, x: bv16)
    ensures Shift(WordXor(w, x)) == WordXor(Shift(WordXor(w, BitWord(WordLow(x)))), WordHalf(x))
  {
    if WordLow(w) {
      if WordLow(x) {}
    } else if WordLow(x) {}
  }

  function WordLowBits(x: bv16, n: nat): (s: seq<bool>)
    ensures |s| == n
  {
    seq(n, i requires 0 <= i => WordBit(x, i))
  }

  /** The register after the message bits `bits`, first bit first. */
  function FeedWord(w: bv16, bits: seq<bool>): bv16
    decreases |bits|
  {
    if bits == [] then w else FeedWord(Shift(WordXor(w, BitWord(bits[0]))), bits[1..])
  }

  /** The shifted word is the register of bit-serial division. */
  lemma {:induction false} FeedWordIsDivision(w: bv16, bits: seq<bool>)
    ensures WordBits(FeedWord(w, bits)) == Feed(POLY16, WordBits(w), bits)
    decreases |bits|
  {
    if bits != [] {
      ShiftIsStep(w, bits[0]);
      FeedWordIsDivision(Shift(WordXor(w, BitWord(bits[0]))), bits[1..]);
    }
  }

  lemma {:induction false} FeedWordConcat(w: bv16, a: seq<bool>, b: seq<bool>)
    ensures FeedWord(w, a + b) == FeedWord(FeedWord(w, a), b)
    decreases |a|
  {
    if a == [] {
      assert a + b == b;
    } else {
      FeedWordConcat(Shift(WordXor(w, BitWord(a[0]))), a[1..], b);
      assert (a + b)[1..] == a[1..] + b;
    }
  }

  /** Adding several bits at once and then shifting is feeding them one at a time. */
  lemma {:induction false} ShiftManyIsFeed(w: bv16, x: bv16, n: nat)
    requires WordFits(x, n)
    ensures ShiftMany(WordXor(w, x), n) == FeedWord(w, WordLowBits(x, n))
    decreases n
  {
    if n == 0 {
      assert WordXor(w, x) == w;
    } else {
      var v := Shift(WordXor(w, BitWord(WordLow(x))));
      ShiftAbsorbs(w, x);
      ShiftManyIsFeed(v, WordHalf(x), n - 1);
      assert WordLowBits(x, n)[1..] == WordLowBits(WordHalf(x), n - 1);
    }
  }

  lemma ShiftPastLowBits(r: bv16, y: bv16)
    requires !WordLow(y)
    ensures Shift(WordXor(r, y)) == WordXor(Shift(r), WordHalf(y))
  {
    if WordLow(r) {}
  }

  predicate WordEven(y: bv16, n: nat)
    decreases n
  {
    n == 0 || (!WordLow(y) && WordEven(WordHalf(y), n - 1))
  }

  function WordHalves(y: bv16, n: nat): bv16
    decreases n
  {
    if n == 0 then y else WordHalves(WordHalf(y), n - 1)
  }

  lemma {:induction false} ShiftManyPastLowBits(r: bv16, y: bv16, n: nat)
    requires WordEven(y, n)
    ensures ShiftMany(WordXor(r, y), n) == WordXor(ShiftMany(r, n), WordHalves(y, n))
    decreases n
  {
    if n > 0 {
      ShiftPastLowBits(r, y);
      ShiftManyPastLowBits(Shift(r), WordHalf(y), n - 1);
    }
  }

  // ---- the 32-bit register as a bit string ----

  predicate DwordLow(w: bv32) { w & 1 == 1 }
  function DwordHalf(w: bv32): bv32 { w >> 1 }
  function DwordXor(w: bv32, p: bv32): bv32 { w ^ p }

  predicate DwordBit(w: bv32, i: nat)
    decreases i
  {
    if i == 0 then DwordLow(w) else DwordBit(DwordHalf(w), i - 1)
  }

  function DwordBits(w: bv32): (s: seq<bool>)
    ensures |s| == 32
  {
    seq(32, i requires 0 <= i => DwordBit(w, i))
  }

  const POLY32: seq<bool> := DwordBits(0xEDB88320)

  lemma DwordXorParts(w: bv32, p: bv32)
    ensures DwordHalf(DwordXor(w, p)) == DwordXor(DwordHalf(w), DwordHalf(p))
    ensures DwordLow(DwordXor(w, p)) == (DwordLow(w) != DwordLow(p))
  {
  }

  lemma DwordBitXorStep(w: bv32, p: bv32, i: nat)
    requires 0 < i
    requires DwordBit(DwordXor(DwordHalf(w), DwordHalf(p)), i - 1)
      == (DwordBit(DwordHalf(w), i - 1) != DwordBit(DwordHalf(p), i - 1))
    ensures DwordBit(DwordXor(w, p), i) == (DwordBit(w, i) != DwordBit(p, i))
  {
    DwordXorParts(w, p);
  }

  lemma {:induction false} DwordBitXor(w: bv32, p: bv32, i: nat)
    ensures DwordBit(DwordXor(w, p), i) == (DwordBit(w, i) != DwordBit(p, i))
    decreases i
  {
    if i == 0 {
      DwordXorParts(w, p);
    } else {
      DwordBitXor(DwordHalf(w), DwordHalf(p), i - 1);
      DwordBitXorStep(w, p, i);
    }
  }

  function DwordNibble(w: bv32): bv32 { w >> 4 }

  lemma DwordBitFour(w: bv32, i: nat)
    requires 4 <= i
    ensures DwordBit(w, i) == DwordBit(DwordNibble(w), i - 4)
  {
    var h := DwordHalf(DwordHalf(w));
    assert DwordBit(w, i) == DwordBit(DwordHalf(w), i - 1) == DwordBit(h, i - 2);
    assert DwordBit(h, i - 2) == DwordBit(DwordHalf(h), i - 3) == DwordBit(DwordHalf(DwordHalf(h)), i - 4);
    assert DwordHalf(DwordHalf(h)) == DwordNibble(w);
  }

  lemma DwordNothingLeft(w: bv32)
    ensures var h := DwordNibble(DwordNibble(DwordNibble(DwordNibble(w))));
      !DwordBit(DwordNibble(DwordNibble(DwordNibble(DwordNibble(h)))), 0)
  {
  }

  lemma DwordBitBeyond(w: bv32)
    ensures !DwordBit(w, 32)
  {
    var w1 := DwordNibble(w);
    var w2 := DwordNibble(w1);
    var w3 := DwordNibble(w2);
    var w4 := DwordNibble(w3);
    var w5 := DwordNibble(w4);
    var w6 := DwordNibble(w5);
    var w7 := DwordNibble(w6);
    var w8 := DwordNibble(w7);
    DwordBitFour(w, 32);
    DwordBitFour(w1, 28);
    DwordBitFour(w2, 24);
    DwordBitFour(w3, 20);
    DwordBitFour(w4, 16);
    DwordBitFour(w5, 12);
    DwordBitFour(w6, 8);
    DwordBitFour(w7, 4);
    DwordNothingLeft(w);
  }

  lemma DwordFeedback(h: bv32, out: bool, i: nat)
    ensures DwordBit(if out then DwordXor(h, 0xEDB88320) else h, i) == (DwordBit(h, i) != (out
      && DwordBit(0xEDB88320, i)))
  {
    if out { DwordBitXor(h, 0xEDB88320, i); }
  }

  lemma Shift32Cases(w: bv32, b: bool)
    ensures Shift32(DwordXor(w, BitDword(b))) ==
      if DwordLow(w) != b then DwordXor(DwordHalf(w), 0xEDB88320) else DwordHalf(w)
  {
  }

  function BitDword(b: bool): bv32 { if b then 1 else 0 }

  lemma Shift32Bits(w: bv32, b: bool, s: bv32)
    requires s == if DwordLow(w) != b then DwordXor(DwordHalf(w), 0xEDB88320) else DwordHalf(w)
    ensures DwordBits(s) == Step(POLY32, DwordBits(w), b)
  {
    DwordBitBeyond(w);
    forall i | 0 <= i < 32
      ensures DwordBits(s)[i] == Step(POLY32, DwordBits(w), b)[i]
    {
      DwordFeedback(DwordHalf(w), DwordLow(w) != b, i);
    }
  }

  /** Shifting the register after adding a bit is one step of bit-serial division. */
  lemma Shift32IsStep(w: bv32, b: bool)
    ensures DwordBits(Shift32(DwordXor(w, BitDword(b)))) == Step(POLY32, DwordBits(w), b)
  {
    Shift32Cases(w, b);
    Shift32Bits(w, b, Shift32(DwordXor(w, BitDword(b))));
  }

  function Shift32Many(w: bv32, n: nat): bv32
    decreases n
  {
    if n == 0 then w else Shift32Many(Shift32(w), n - 1)
  }

  predicate DwordFits(x: bv32, n: nat)
    decreases n
  {
    if n == 0 then x == 0 else DwordFits(DwordHalf(x), n - 1)
  }

  lemma Shift32Absorbs(w: bv32, x: bv32)
    ensures Shift32(DwordXor(w, x)) == DwordXor(Shift32(DwordXor(w, BitDword(DwordLow(x)))), DwordHalf(x))
  {
    if DwordLow(w) {
      if DwordLow(x) {}
    } else if DwordLow(x) {}
  }

  function DwordLowBits(x: bv32, n: nat): (s: seq<bool>)
    ensures |s| == n
  {
    seq(n, i requires 0 <= i => DwordBit(x, i))
  }

  /** The register after the message bits `bits`, first bit first. */
  function FeedDword(w: bv32, bits: seq<bool>): bv32
    decreases |bits|
  {
    if bits == [] then w else FeedDword(Shift32(DwordXor(w, BitDword(bits[0]))), bits[1..])
  }

  /** The shifted word is the register of bit-serial division. */
  lemma {:induction false} FeedDwordIsDivision(w: bv32, bits: seq<bool>)
    ensures DwordBits(FeedDword(w, bits)) == Feed(POLY32, DwordBits(w), bits)
    decreases |bits|
  {
    if bits != [] {
      Shift32IsStep(w, bits[0]);
      FeedDwordIsDivision(Shift32(DwordXor(w, BitDword(bits[0]))), bits[1..]);
    }
  }

  lemma {:induction false} FeedDwordConcat(w: bv32, a: seq<bool>, b: seq<bool>)
    ensures FeedDword(w, a + b) == FeedDword(FeedDword(w, a), b)
    decreases |a|
  {
    if a == [] {
      assert a + b == b;
    } else {
      FeedDwordConcat(Shift32(DwordXor(w, BitDword(a[0]))), a[1..], b);
      assert (a + b)[1..] == a[1..] + b;
    }
  }

  lemma DwordXorZero(w: bv32)
    ensures DwordXor(w, 0) == w
  {
  }

  /** Adding several bits at once and then shifting is feeding them one at a time. */
  lemma {:induction false} Shift32ManyIsFeed(w: bv32, x: bv32, n: nat)
    requires DwordFits(x, n)
    ensures Shift32Many(DwordXor(w, x), n) == FeedDword(w, DwordLowBits(x, n))
    decreases n
  {
    DwordXorZero(w);
    hide Shift32, DwordXor, BitDword, DwordLow, DwordHalf;
    if n > 0 {
      var v := Shift32(DwordXor(w, BitDword(DwordLow(x))));
      Shift32Absorbs(w, x);
      Shift32ManyIsFeed(v, DwordHalf(x), n - 1);
      assert DwordLowBits(x, n)[1..] == DwordLowBits(DwordHalf(x), n - 1);
    }
  }

  lemma Shift32PastLowBits(r: bv32, y: bv32)
    requires !DwordLow(y)
    ensures Shift32(DwordXor(r, y)) == DwordXor(Shift32(r), DwordHalf(y))
  {
    if DwordLow(r) {}
  }

  predicate DwordEven(y: bv32, n: nat)
    decreases n
  {
    n == 0 || (!DwordLow(y) && DwordEven(DwordHalf(y), n - 1))
  }

  function DwordHalves(y: bv32, n: nat): bv32
    decreases n
  {
    if n == 0 then y else DwordHalves(DwordHalf(y), n - 1)
  }

  lemma {:induction false} Shift32ManyPastLowBits(r: bv32, y: bv32, n: nat)
    requires DwordEven(y, n)
    ensures Shift32Many(DwordXor(r, y), n) == DwordXor(Shift32Many(r, n), DwordHalves(y, n))
    decreases n
  {
    if n > 0 {
      Shift32PastLowBits(r, y);
      Shift32ManyPastLowBits(Shift32(r), DwordHalf(y), n - 1);
    }
  }

  // ---- a byte at a time ----

  predicate ByteBit(b: byte, i: nat)
    decreases i
  {
    if i == 0 then b & 1 == 1 else ByteBit(b >> 1, i - 1)
  }

  function ByteBits(b: byte): (s: seq<bool>)
    ensures |s| == 8
  {
    seq(8, i requires 0 <= i => ByteBit(b, i))
  }

  lemma ByteWidensToWord(b: byte)
    ensures WordHalf(b as bv16) == (b >> 1) as bv16
    ensures WordLow(b as bv16) == (b & 1 == 1)
  {
  }

  lemma {:induction false} ByteBitOfWord(b: byte, i: nat)
    ensures WordBit(b as bv16, i) == ByteBit(b, i)
    decreases i
  {
    ByteWidensToWord(b);
    if i > 0 {
      ByteBitOfWord(b >> 1, i - 1);
    }
  }

  lemma ByteFits(b: byte)
    ensures WordFits(b as bv16, 8)
    ensures WordLowBits(b as bv16, 8) == ByteBits(b)
  {
    forall i: nat | i < 8
      ensures WordBit(b as bv16, i) == ByteBit(b, i)
    {
      ByteBitOfWord(b, i);
    }
  }

  lemma ByteBitOfDword(b: byte, i: nat)
    ensures DwordBit(b as bv32, i) == ByteBit(b, i)
    decreases i
  {
    ByteWidensToDword(b);
    if i > 0 {
      ByteBitOfDword(b >> 1, i - 1);
    }
  }

  lemma ByteWidensToDword(b: byte)
    ensures DwordHalf(b as bv32) == (b >> 1) as bv32
    ensures DwordLow(b as bv32) == (b & 1 == 1)
  {
  }

  lemma ByteFitsDword(b: byte)
    ensures DwordFits(b as bv32, 8)
    ensures DwordLowBits(b as bv32, 8) == ByteBits(b)
  {
    forall i: nat | i < 8
      ensures DwordBit(b as bv32, i) == ByteBit(b, i)
    {
      ByteBitOfDword(b, i);
    }
  }

  lemma HighByte(w: bv16)
    ensures WordEven(w & 0xFF00, 8) && WordHalves(w & 0xFF00, 8) == w >> 8
    ensures w == WordXor(w & 0xFF, w & 0xFF00)
  {
  }

  lemma HighBytes(w: bv32)
    ensures DwordEven(w & 0xFFFFFF00, 8) && DwordHalves(w & 0xFFFFFF00, 8) == w >> 8
    ensures w == DwordXor(w & 0xFF, w & 0xFFFFFF00)
  {
  }

  lemma Shift8ByLowByte(w: bv16)
    ensures Shift8(w) == WordXor(Shift8(w & 0xFF), w >> 8)
  {
    HighByte(w);
    ShiftManyPastLowBits(w & 0xFF, w & 0xFF00, 8);
    assert Shift8(w) == ShiftMany(w, 8);
    assert Shift8(w & 0xFF) == ShiftMany(w & 0xFF, 8);
  }

  lemma Shift32By8ByLowByte(w: bv32)
    ensures Shift32By8(w) == DwordXor(Shift32By8(w & 0xFF), w >> 8)
  {
    HighBytes(w);
    Shift32ManyPastLowBits(w & 0xFF, w & 0xFFFFFF00, 8);
    assert Shift32By8(w) == Shift32Many(w, 8);
    assert Shift32By8(w & 0xFF) == Shift32Many(w & 0xFF, 8);
  }

  lemma Crc16Fields(hi: byte, lo: byte, b: byte, th: byte, tl: byte)
    ensures WordXor(Word(hi, lo), b as bv16) & 0xFF == (lo ^ b) as bv16
    ensures WordXor(Word(hi, lo), b as bv16) >> 8 == hi as bv16
    ensures Word(th, hi ^ tl) == WordXor(Word(th, tl), hi as bv16)
  {
  }

  /** One turn of the loop of `crc16` divides in one message byte. */
  lemma Crc16Turn(hi: byte, lo: byte, b: byte)
    ensures Word(AuchCrcHi(lo ^ b), hi ^ AuchCrcLo(lo ^ b)) == FeedWord(Word(hi, lo), ByteBits(b))
  {
    var w := WordXor(Word(hi, lo), b as bv16);
    Crc16Entry(lo ^ b);
    Crc16Fields(hi, lo, b, AuchCrcHi(lo ^ b), AuchCrcLo(lo ^ b));
    Shift8ByLowByte(w);
    ByteFits(b);
    ShiftManyIsFeed(Word(hi, lo), b as bv16, 8);
    assert Shift8(w) == ShiftMany(w, 8);
  }

  function Crc32Index(crc: bv32, b: byte): byte { ((crc ^ (b as bv32)) & 0xFF) as bv8 }

  lemma Crc32Fields(crc: bv32, b: byte)
    ensures DwordXor(crc, b as bv32) & 0xFF == Crc32Index(crc, b) as bv32
    ensures DwordXor(crc, b as bv32) >> 8 == crc >> 8
  {
  }

  /** One turn of the loop of `crc32` divides in one message byte. */
  lemma Crc32Turn(crc: bv32, b: byte)
    ensures DwordXor(Crc32Tab(Crc32Index(crc, b)), crc >> 8) == FeedDword(crc, ByteBits(b))
  {
    var w := DwordXor(crc, b as bv32);
    Crc32Entry(Crc32Index(crc, b));
    Crc32Fields(crc, b);
    Shift32By8ByLowByte(w);
    ByteFitsDword(b);
    Shift32ManyIsFeed(crc, b as bv32, 8);
    assert Shift32By8(w) == Shift32Many(w, 8);
  }

  // ---- a word as the bits of its two bytes ----

  lemma {:induction false} WordBitOfEven(y: bv16, n: nat, i: nat)
    requires WordEven(y, n)
    ensures i < n ==> !WordBit(y, i)
    ensures n <= i ==> WordBit(y, i) == WordBit(WordHalves(y, n), i - n)
    decreases n
  {
    if n > 0 && i > 0 {
      WordBitOfEven(WordHalf(y), n - 1, i - 1);
    }
  }

  lemma {:induction false} WordBitOfNarrow(x: bv16, n: nat, i: nat)
    requires WordFits(x, n) && n <= i
    ensures !WordBit(x, i)
    decreases i
  {
    if n > 0 {
      WordBitOfNarrow(WordHalf(x), n - 1, i - 1);
    } else if i > 0 {
      assert WordHalf(x) == 0;
      WordBitOfNarrow(WordHalf(x), 0, i - 1);
    }
  }

  lemma WordOfBytes(hi: byte, lo: byte)
    ensures Word(hi, lo) == WordXor((hi as bv16) << 8, lo as bv16)
  {
  }

  lemma HighByteAlone(hi: byte)
    ensures WordEven((hi as bv16) << 8, 8) && WordHalves((hi as bv16) << 8, 8) == hi as bv16
  {
  }

  /** The bits of a word are those of its low byte and then those of its high byte. */
  lemma WordBitsOfBytes(hi: byte, lo: byte)
    ensures WordBits(Word(hi, lo)) == ByteBits(lo) + ByteBits(hi)
  {
    WordOfBytes(hi, lo);
    HighByteAlone(hi);
    ByteFits(lo);
    forall i: nat | i < 16
      ensures WordBit(Word(hi, lo), i) == (ByteBits(lo) + ByteBits(hi))[i]
    {
      WordBitXor((hi as bv16) << 8, lo as bv16, i);
      WordBitOfEven((hi as bv16) << 8, 8, i);
      if i < 8 {
        ByteBitOfWord(lo, i);
      } else {
        WordBitOfNarrow(lo as bv16, 8, i);
        ByteBitOfWord(hi, i - 8);
      }
    }
  }

  lemma WordIsLowAndHalf(x: bv16, y: bv16)
    requires WordLow(x) == WordLow(y) && WordHalf(x) == WordHalf(y)
    ensures x == y
  {
  }

  lemma {:induction false} WordFromBits(x: bv16, y: bv16, n: nat)
    requires WordFits(x, n) && WordFits(y, n)
    requires forall i: nat | i < n :: WordBit(x, i) == WordBit(y, i)
    ensures x == y
    decreases n
  {
    if n > 0 {
      assert WordBit(x, 0) == WordBit(y, 0);
      forall i: nat | i < n - 1
        ensures WordBit(WordHalf(x), i) == WordBit(WordHalf(y), i)
      {
        assert WordBit(x, i + 1) == WordBit(y, i + 1);
      }
      WordFromBits(WordHalf(x), WordHalf(y), n - 1);
      WordIsLowAndHalf(x, y);
    }
  }

  lemma WordFitsHalf(x: bv16, n: nat)
    requires 0 < n
    ensures WordFits(x, n) == WordFits(WordHalf(x), n - 1)
  {
  }

  lemma FourHalves(x: bv16)
    ensures WordHalf(WordHalf(WordHalf(WordHalf(x)))) == WordNibble(x)
  {
  }

  lemma WordFitsFour(x: bv16, n: nat)
    requires 4 <= n
    ensures WordFits(x, n) == WordFits(WordNibble(x), n - 4)
  {
    WordFitsHalf(x, n);
    WordFitsHalf(WordHalf(x), n - 1);
    WordFitsHalf(WordHalf(WordHalf(x)), n - 2);
    WordFitsHalf(WordHalf(WordHalf(WordHalf(x))), n - 3);
    FourHalves(x);
    hide WordFits, WordHalf, WordNibble;
  }

  lemma WordFitsItself(x: bv16)
    ensures WordFits(x, 16)
  {
    var x1 := WordNibble(x);
    var x2 := WordNibble(x1);
    var x3 := WordNibble(x2);
    WordFitsFour(x, 16);
    WordFitsFour(x1, 12);
    WordFitsFour(x2, 8);
    WordFitsFour(x3, 4);
    assert WordNibble(x3) == 0;
  }

  // ---- parity of a word ----

  predicate WordOdd(x: bv16, n: nat)
    decreases n
  {
    n > 0 && WordLow(x) != WordOdd(WordHalf(x), n - 1)
  }

  lemma {:induction false} OddOfWordBits(x: bv16, n: nat)
    ensures Odd(WordLowBits(x, n)) == WordOdd(x, n)
    decreases n
  {
    if n > 0 {
      OddOfWordBits(WordHalf(x), n - 1);
      assert WordLowBits(x, n)[1..] == WordLowBits(WordHalf(x), n - 1);
    }
  }

  lemma WordOddTwo(x: bv16, n: nat)
    requires 2 <= n
    ensures WordOdd(x, n) == (WordLow(x) != (WordLow(WordHalf(x)) != WordOdd(WordHalf(WordHalf(x)), n - 2)))
  {
  }

  lemma WordOddNext(x: bv16, odd: bool, rest: bv16, n: nat)
    requires 2 <= n
    requires odd == (WordLow(x) != WordLow(WordHalf(x))) && rest == WordHalf(WordHalf(x))
    ensures WordOdd(x, n) == (odd != WordOdd(rest, n - 2))
  {
    WordOddTwo(x, n);
  }

  lemma OddTails()
    ensures !WordOdd(0xA0, 8)
  {
    WordOddNext(0x2, true, 0x0, 2);
    WordOddNext(0xA, true, 0x2, 4);
    WordOddNext(0x28, false, 0xA, 6);
    WordOddNext(0xA0, false, 0x28, 8);
  }

  lemma EvenTails()
    ensures !WordOdd(0xFF, 8)
  {
    WordOddNext(0x3, false, 0x0, 2);
    WordOddNext(0xF, false, 0x3, 4);
    WordOddNext(0x3F, false, 0xF, 6);
    WordOddNext(0xFF, false, 0x3F, 8);
  }

  /** The polynomial has an odd number of stored bits. */
  lemma Poly16Parity()
    ensures Odd(POLY16)
  {
    OddOfWordBits(0xA001, 16);
    assert POLY16 == WordLowBits(0xA001, 16);
    WordOddNext(0xA001, true, 0x2800, 16);
    WordOddNext(0x2800, false, 0xA00, 14);
    WordOddNext(0xA00, false, 0x280, 12);
    WordOddNext(0x280, false, 0xA0, 10);
    OddTails();
  }

  lemma AllOnesParity()
    ensures !Odd(WordBits(0xFFFF))
  {
    OddOfWordBits(0xFFFF, 16);
    assert WordBits(0xFFFF) == WordLowBits(0xFFFF, 16);
    WordOddNext(0xFFFF, false, 0x3FFF, 16);
    WordOddNext(0x3FFF, false, 0xFFF, 14);
    WordOddNext(0xFFF, false, 0x3FF, 12);
    WordOddNext(0x3FF, false, 0xFF, 10);
    EvenTails();
  }

  lemma WordBitNext(x: bv16, h: bv16, i: nat)
    requires 0 < i && h == WordHalf(x)
    ensures WordBit(x, i) == WordBit(h, i - 1)
  {
  }

  lemma DwordBitNext(x: bv32, h: bv32, i: nat)
    requires 0 < i && h == DwordHalf(x)
    ensures DwordBit(x, i) == DwordBit(h, i - 1)
  {
  }

  lemma LastPoly32Bit()
    ensures DwordBit(0xE, 3)
  {
    DwordBitNext(0x3, 0x1, 1);
    DwordBitNext(0x7, 0x3, 2);
    DwordBitNext(0xE, 0x7, 3);
  }

  lemma Poly32Top()
    ensures POLY32[31]
  {
    DwordBitFour(0xEDB88320, 31);
    DwordBitFour(0xEDB8832, 27);
    DwordBitFour(0xEDB883, 23);
    DwordBitFour(0xEDB88, 19);
    DwordBitFour(0xEDB8, 15);
    DwordBitFour(0xEDB, 11);
    DwordBitFour(0xED, 7);
    LastPoly32Bit();
  }

  lemma LastPolyBit()
    ensures WordBit(0xA, 3)
  {
    WordBitNext(0x2, 0x1, 1);
    WordBitNext(0x5, 0x2, 2);
    WordBitNext(0xA, 0x5, 3);
  }

  lemma Poly16Top()
    ensures POLY16[15]
  {
    WordBitFour(0xA001, 15);
    WordBitFour(0xA00, 11);
    WordBitFour(0xA0, 7);
    LastPolyBit();
  }

  lemma WordBitsAreInjective(x: bv16, y: bv16)
    requires WordBits(x) == WordBits(y)
    ensures x == y
  {
    forall i: nat | i < 16
      ensures WordBit(x, i) == WordBit(y, i)
    {
      assert WordBits(x)[i] == WordBits(y)[i];
    }
    WordFitsItself(x);
    WordFitsItself(y);
    WordFromBits(x, y, 16);
  }
}
