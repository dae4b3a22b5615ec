/**
 Bit-serial division, the reference for the checksums of Package/CRC.cpp.

 A register and a polynomial are bit strings of the same length, least
 significant bit first, in the reflected convention of section 6.2.2 of the
 MODBUS over Serial Line guide and section 8 of RFC 1952: each message bit is
 added to the lowest register bit, the register moves down by one, and the
 polynomial is added if the bit moved out was set.
 */
module BitSerial {

  function Step(poly: seq<bool>, r: seq<bool>, b: bool): (s: seq<bool>)
    requires |r| == |poly| > 0
    ensures |s| == |poly|
  {
    seq(|poly|, i requires 0 <= i < |poly| => (i + 1 < |r| && r[i + 1]) != ((r[0] != b) && poly[i]))
  }

  function Feed(poly: seq<bool>, r: seq<bool>, bits: seq<bool>): (s: seq<bool>)
    requires |r| == |poly| > 0
    ensures |s| == |poly|
    decreases |bits|
  {
    if bits == [] then r else Feed(poly, Step(poly, r, bits[0]), bits[1..])
  }

  lemma {:induction false} FeedConcat(poly: seq<bool>, r: seq<bool>, a: seq<bool>, b: seq<bool>)
    requires |r| == |poly| > 0
    ensures Feed(poly, r, a + b) == Feed(poly, Feed(poly, r, a), b)
    decreases |a|
  {
    if a == [] {
      assert a + b == b;
    } else {
      FeedConcat(poly, Step(poly, r, a[0]), a[1..], b);
      assert (a + b)[1..] == a[1..] + b;
    }
  }

  /** A polynomial whose highest stored bit is set: division by it can be undone. */
  predicate Proper(poly: seq<bool>) { |poly| > 0 && poly[|poly| - 1] }

  /** As many message bits as the register is long, or fewer, leave a trace of every bit. */
  lemma {:induction false} FeedSeparates(poly: seq<bool>, r: seq<bool>, r': seq<bool>, a: seq<bool>, b: seq<bool>)
    requires Proper(poly) && |r| == |r'| == |poly|
    requires |a| == |b| <= |poly|
    requires Feed(poly, r, a) == Feed(poly, r', b)
    ensures forall i | 0 <= i < |poly| :: (r[i] != r'[i]) == (i < |a| && a[i] != b[i])
    decreases |a|
  {
    if a != [] {
      var s, s' := Step(poly, r, a[0]), Step(poly, r', b[0]);
      FeedSeparates(poly, s, s', a[1..], b[1..]);
      var top := |poly| - 1;
      assert s[top] == s'[top];
      assert (r[0] != a[0]) == (r'[0] != b[0]);
      forall i | 0 <= i < |poly|
        ensures (r[i] != r'[i]) == (i < |a| && a[i] != b[i])
      {
        if i > 0 {
          assert (s[i - 1] != s'[i - 1]) == (r[i] != r'[i]);
        }
      }
    }
  }

  lemma {:induction false} FeedIsInjective(poly: seq<bool>, r: seq<bool>, r': seq<bool>, bits: seq<bool>)
    requires Proper(poly) && |r| == |r'| == |poly|
    requires Feed(poly, r, bits) == Feed(poly, r', bits)
    ensures r == r'
    decreases |bits|
  {
    if bits != [] {
      FeedIsInjective(poly, Step(poly, r, bits[0]), Step(poly, r', bits[0]), bits[1..]);
      FeedSeparates(poly, r, r', bits[..1], bits[..1]);
    }
  }

  /** `a` and `b` differ, and only inside the `width` bits from position `from` on. */
  ghost predicate Burst(a: seq<bool>, b: seq<bool>, from: nat, width: nat) {
    && |a| == |b| && from + width <= |a|
    && a != b
    && forall i | 0 <= i < |a| && !(from <= i < from + width) :: a[i] == b[i]
  }

  /** Every burst no longer than the register changes the remainder. */
  lemma BurstChangesRemainder(poly: seq<bool>, r: seq<bool>, a: seq<bool>, b: seq<bool>, from: nat, width: nat)
    requires Proper(poly) && |r| == |poly|
    requires Burst(a, b, from, width) && width <= |poly|
    ensures Feed(poly, r, a) != Feed(poly, r, b)
  {
    hide Feed;
    var to := from + width;
    assert a[..from] == b[..from] && a[to..] == b[to..];
    assert a == a[..from] + (a[from..to] + a[to..]);
    assert b == b[..from] + (b[from..to] + b[to..]);
    assert a[from..to] != b[from..to];
    var s := Feed(poly, r, a[..from]);
    FeedConcat(poly, r, a[..from], a[from..to] + a[to..]);
    FeedConcat(poly, r, b[..from], b[from..to] + b[to..]);
    FeedConcat(poly, s, a[from..to], a[to..]);
    FeedConcat(poly, s, b[from..to], b[to..]);
    if Feed(poly, r, a) == Feed(poly, r, b) {
      FeedIsInjective(poly, Feed(poly, s, a[from..to]), Feed(poly, s, b[from..to]), a[to..]);
      FeedSeparates(poly, s, s, a[from..to], b[from..to]);
      assert false;
    }
  }

  function Zeros(n: nat): (s: seq<bool>)
    ensures |s| == n
  {
    seq(n, _ => false)
  }

  /** A register divides its own bits out to nothing. */
  lemma {:induction false} FeedOwnBits(poly: seq<bool>, r: seq<bool>, bits: seq<bool>)
    requires |r| == |poly| > 0
    requires |bits| <= |r| && r == bits + Zeros(|r| - |bits|)
    ensures Feed(poly, r, bits) == Zeros(|poly|)
    decreases |bits|
  {
    if bits != [] {
      var s := Step(poly, r, bits[0]);
      assert s == bits[1..] + Zeros(|s| - |bits[1..]|);
      FeedOwnBits(poly, s, bits[1..]);
    }
  }

  /** Appending a remainder to its message is the only way to make the whole divide to nothing. */
  lemma RemainderCompletes(poly: seq<bool>, r: seq<bool>, message: seq<bool>, check: seq<bool>)
    requires Proper(poly) && |r| == |check| == |poly|
    ensures Feed(poly, r, message + check) == Zeros(|poly|) <==> check == Feed(poly, r, message)
  {
    var s := Feed(poly, r, message);
    FeedConcat(poly, r, message, check);
    assert s + Zeros(0) == s;
    FeedOwnBits(poly, s, s);
    if Feed(poly, s, check) == Zeros(|poly|) {
      FeedSeparates(poly, s, s, check, s);
      assert check == s;
    }
  }

  // ---- parity ----

  predicate Odd(bits: seq<bool>) {
    if bits == [] then false else bits[0] != Odd(bits[1..])
  }

  function Sum(a: seq<bool>, b: seq<bool>): (s: seq<bool>)
    requires |a| == |b|
    ensures |s| == |a|
  {
    seq(|a|, i requires 0 <= i < |a| => a[i] != b[i])
  }

  lemma {:induction false} OddOfSum(a: seq<bool>, b: seq<bool>)
    requires |a| == |b|
    ensures Odd(Sum(a, b)) == (Odd(a) != Odd(b))
  {
    if a != [] {
      OddOfSum(a[1..], b[1..]);
      assert Sum(a, b)[1..] == Sum(a[1..], b[1..]);
    }
  }

  lemma {:induction false} OddOfPadded(a: seq<bool>, n: nat)
    ensures Odd(a + Zeros(n)) == Odd(a)
    decreases |a| + n
  {
    if a != [] {
      OddOfPadded(a[1..], n);
      assert (a + Zeros(n))[1..] == a[1..] + Zeros(n);
    } else if n > 0 {
      OddOfPadded([], n - 1);
      assert (a + Zeros(n))[1..] == [] + Zeros(n - 1);
    } else {
      assert a + Zeros(n) == [];
    }
  }

  lemma StepParity(poly: seq<bool>, r: seq<bool>, b: bool)
    requires |r| == |poly| > 0 && Odd(poly)
    ensures Odd(Step(poly, r, b)) == (Odd(r) != b)
  {
    var shifted := r[1..] + Zeros(1);
    OddOfPadded(r[1..], 1);
    if r[0] != b {
      OddOfSum(shifted, poly);
      assert Step(poly, r, b) == Sum(shifted, poly);
    } else {
      assert Step(poly, r, b) == shifted;
    }
  }

  /** With an odd number of polynomial bits, division keeps the total parity. */
  lemma {:induction false} FeedParity(poly: seq<bool>, r: seq<bool>, bits: seq<bool>)
    requires |r| == |poly| > 0 && Odd(poly)
    ensures Odd(Feed(poly, r, bits)) == (Odd(r) != Odd(bits))
    decreases |bits|
  {
    if bits != [] {
      StepParity(poly, r, bits[0]);
      FeedParity(poly, Step(poly, r, bits[0]), bits[1..]);
    }
  }
}
