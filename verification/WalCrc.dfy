/** `walCrc32`: the bitwise CRC-32 of a log line (the reflected polynomial of section 8 of RFC 1952), and the damage
    it always detects. Words are natural numbers below 2^32; `>> 1` is halving and `& 1` the remainder by two. */
module WalCrc {

  import opened Bytes

  const POLY: nat := 0xEDB88320
  const ONES: nat := 0xFFFF_FFFF

  // ------------------------------------------------------------------------------------------
  // The CRC

  // Feeding one bit, as the loop body does
  function FeedBit(crc: nat, b: bool): nat {
    if (crc % 2 == 1) != b then Xor(crc / 2, POLY) else crc / 2
  }

  function Feed(crc: nat, bits: seq<bool>): nat
    decreases |bits|
  {
    if bits == [] then crc else Feed(FeedBit(crc, bits[0]), bits[1..])
  }

  // The n low bits of a byte, lowest first
  function ByteBits(c: nat, n: nat): (r: seq<bool>)
    ensures |r| == n
  {
    if n == 0 then [] else [c % 2 == 1] + ByteBits(c / 2, n - 1)
  }

  function Bits(s: seq<byte>): (r: seq<bool>)
    ensures |r| == 8 * |s|
  {
    if s == [] then [] else ByteBits(s[0], 8) + Bits(s[1..])
  }

  function Crc(s: seq<byte>): nat { Xor(Feed(ONES, Bits(s)), ONES) }

  lemma {:induction false} FeedConcat(crc: nat, a: seq<bool>, b: seq<bool>)
    ensures Feed(crc, a + b) == Feed(Feed(crc, a), b)
    decreases |a|
  {
    if a == [] {
      assert a + b == b;
    } else {
      assert (a + b)[1..] == a[1..] + b;
      FeedConcat(FeedBit(crc, a[0]), a[1..], b);
    }
  }

  method WalCrc32(s: seq<byte>) returns (r: nat)
    ensures r == Crc(s)
  {
    var crc := ONES;
    var i: nat := 0;
    assert s[0..] == s;
    while i < |s|
      invariant i <= |s| && Feed(crc, Bits(s[i..])) == Feed(ONES, Bits(s))
    {
      var c: nat := s[i];
      ghost var start := crc;
      assert s[i..][0] == c && s[i..][1..] == s[i + 1..];
      FeedConcat(crc, ByteBits(c, 8), Bits(s[i + 1..]));
      for k := 0 to 8
        invariant Feed(crc, ByteBits(c, 8 - k)) == Feed(start, ByteBits(s[i], 8))
      {
        var xorBit := Xor(crc, c) % 2 != 0;
        XorHalf(crc, c);
        assert ByteBits(c, 8 - k)[1..] == ByteBits(c / 2, 7 - k);
        crc := crc / 2;
        if xorBit { crc := Xor(crc, POLY); }
        c := c / 2;
      }
      i := i + 1;
    }
    r := Xor(crc, ONES);
  }

  // ------------------------------------------------------------------------------------------
  // The step is linear and loses nothing.

  // One step without input
  function Shift(v: nat): nat { if v % 2 == 1 then Xor(v / 2, POLY) else v / 2 }

  function Bit(b: bool): nat { if b then 1 else 0 }

  lemma StepIsShift(crc: nat, b: bool)
    ensures FeedBit(crc, b) == Shift(Xor(crc, Bit(b)))
  {
    XorHalf(crc, Bit(b));
    XorZero(crc / 2);
  }

  lemma ShiftXor(a: nat, b: nat)
    ensures Shift(Xor(a, b)) == Xor(Shift(a), Shift(b))
  {
    hide Xor;
    var x, y := a / 2, b / 2;
    XorHalf(a, b);
    if a % 2 == 1 && b % 2 == 1 {
      XorSwap(x, y, POLY, POLY);
      XorSelf(POLY);
      XorZero(Xor(x, y));
    } else if a % 2 == 1 {
      XorSwap(x, y, POLY, 0);
      XorZero(y);
      XorZero(POLY);
    } else if b % 2 == 1 {
      XorAssoc(x, y, POLY);
    }
  }

  function XorBits(a: seq<bool>, b: seq<bool>): (r: seq<bool>)
    requires |a| == |b|
    ensures |r| == |a|
  {
    if a == [] then [] else [a[0] != b[0]] + XorBits(a[1..], b[1..])
  }

  lemma StepXor(x: nat, a: bool, y: nat, b: bool)
    ensures Xor(FeedBit(x, a), FeedBit(y, b)) == FeedBit(Xor(x, y), a != b)
  {
    hide FeedBit, Shift, Xor;
    StepIsShift(x, a);
    StepIsShift(y, b);
    StepIsShift(Xor(x, y), a != b);
    ShiftXor(Xor(x, Bit(a)), Xor(y, Bit(b)));
    XorSwap(x, y, Bit(a), Bit(b));
    XorSelf(Bit(a));
    XorZero(Bit(a));
    XorZero(Bit(b));
  }

  // The difference of two runs is the run of the difference.
  lemma {:induction false} FeedXor(x: nat, a: seq<bool>, y: nat, b: seq<bool>)
    requires |a| == |b|
    ensures Xor(Feed(x, a), Feed(y, b)) == Feed(Xor(x, y), XorBits(a, b))
    decreases |a|
  {
    hide FeedBit, Xor;
    if a != [] {
      StepXor(x, a[0], y, b[0]);
      FeedXor(FeedBit(x, a[0]), a[1..], FeedBit(y, b[0]), b[1..]);
      assert XorBits(a, b)[1..] == XorBits(a[1..], b[1..]);
    }
  }

  predicate Fits32(v: nat) { v < Pow2(32) }

  lemma Powers()
    ensures Pow2(31) == 0x8000_0000 && Pow2(32) == 0x1_0000_0000
  {
    assert Pow2(8) == 0x100;
    assert Pow2(16) == 0x1_0000;
    assert Pow2(24) == 0x100_0000;
    assert Pow2(31) == 0x8000_0000;
  }

  lemma StepWord(v: nat, b: bool)
    requires Fits32(v)
    ensures Fits32(FeedBit(v, b))
  {
    Powers();
    XorBelow(v / 2, POLY, 32);
  }

  // The top bit tells whether the polynomial was added.
  lemma StepTop(v: nat, b: bool)
    requires Fits32(v)
    ensures FeedBit(v, b) < Pow2(31) ==> FeedBit(v, b) == v / 2
  {
    Powers();
    XorTop(v / 2, POLY, 31);
  }

  lemma ShiftNone(v: nat)
    requires Fits32(v) && Shift(v) == 0
    ensures v == 0
  {
    Powers();
    XorTop(v / 2, POLY, 31);
  }

  lemma StepInjective(x: nat, y: nat, b: bool)
    requires Fits32(x) && Fits32(y) && FeedBit(x, b) == FeedBit(y, b)
    ensures x == y
  {
    hide FeedBit, Xor, Shift, Fits32;
    StepXor(x, b, y, b);
    XorSelf(FeedBit(x, b));
    StepIsShift(Xor(x, y), false);
    XorZero(Xor(x, y));
    XorWord(x, y);
    ShiftNone(Xor(x, y));
    XorNone(x, y);
  }

  lemma XorWord(x: nat, y: nat)
    requires Fits32(x) && Fits32(y)
    ensures Fits32(Xor(x, y))
  {
    XorBelow(x, y, 32);
  }

  // From different states, the same input leads to different states.
  lemma {:induction false} FeedInjective(x: nat, y: nat, bits: seq<bool>)
    requires Fits32(x) && Fits32(y) && Feed(x, bits) == Feed(y, bits)
    ensures x == y
    decreases |bits|
  {
    if bits != [] {
      hide FeedBit, Fits32;
      StepWord(x, bits[0]);
      StepWord(y, bits[0]);
      FeedInjective(FeedBit(x, bits[0]), FeedBit(y, bits[0]), bits[1..]);
      StepInjective(x, y, bits[0]);
    }
  }

  lemma {:induction false} FeedWord(v: nat, bits: seq<bool>)
    requires Fits32(v)
    ensures Fits32(Feed(v, bits))
    decreases |bits|
  {
    if bits != [] {
      StepWord(v, bits[0]);
      FeedWord(FeedBit(v, bits[0]), bits[1..]);
    }
  }

  // ------------------------------------------------------------------------------------------
  // Bursts

  lemma {:induction false} PowGrows(m: nat, n: nat)
    requires m <= n
    ensures Pow2(m) <= Pow2(n)
    decreases n - m
  {
    if m < n { PowGrows(m, n - 1); }
  }

  // A state that m bits of input bring to 0 has only its m low bits set.
  lemma {:induction false} BackFromZero(v: nat, bits: seq<bool>)
    requires |bits| <= 32 && Fits32(v) && Feed(v, bits) == 0
    ensures v < Pow2(|bits|)
    decreases |bits|
  {
    if bits != [] {
      hide FeedBit, Fits32;
      StepWord(v, bits[0]);
      BackFromZero(FeedBit(v, bits[0]), bits[1..]);
      PowGrows(|bits| - 1, 31);
      StepTop(v, bits[0]);
    }
  }

  lemma BurstFromZero(bits: seq<bool>)
    requires 1 <= |bits| <= 32 && bits[0]
    ensures Feed(0, bits) != 0
  {
    XorZero(POLY);
    Powers();
    PowGrows(|bits| - 1, 31);
    if Feed(POLY, bits[1..]) == 0 { BackFromZero(POLY, bits[1..]); }
  }

  // Two equally long bit strings that first differ at lo and agree from hi on
  lemma BurstBits(crc: nat, a: seq<bool>, b: seq<bool>, lo: nat, hi: nat)
    requires Fits32(crc) && |a| == |b| && lo < hi <= |a| && hi - lo <= 32
    requires a[..lo] == b[..lo] && a[lo] != b[lo] && a[hi..] == b[hi..]
    ensures Feed(crc, a) != Feed(crc, b)
  {
    hide Fits32, Xor, Feed;
    var mid := Feed(crc, a[..lo]);
    var wa, wb := a[lo..hi], b[lo..hi];
    assert a == a[..lo] + (wa + a[hi..]) && b == b[..lo] + (wb + b[hi..]);
    FeedConcat(crc, a[..lo], wa + a[hi..]);
    FeedConcat(crc, b[..lo], wb + b[hi..]);
    FeedConcat(mid, wa, a[hi..]);
    FeedConcat(mid, wb, b[hi..]);
    FeedWord(crc, a[..lo]);
    FeedWord(mid, wa);
    FeedWord(mid, wb);
    FeedXor(mid, wa, mid, wb);
    XorSelf(mid);
    BurstFromZero(XorBits(wa, wb));
    XorSelf(Feed(mid, wa));
    if Feed(crc, a) == Feed(crc, b) { FeedInjective(Feed(mid, wa), Feed(mid, wb), a[hi..]); }
  }

  // ------------------------------------------------------------------------------------------
  // Bytes

  // The low bits of a number below 2^n determine it.
  lemma {:induction false} ByteBitsSame(a: nat, b: nat, n: nat)
    requires ByteBits(a, n) == ByteBits(b, n) && a < Pow2(n) && b < Pow2(n)
    ensures a == b
  {
    if n > 0 {
      assert ByteBits(a, n)[0] == ByteBits(b, n)[0];
      assert ByteBits(a, n)[1..] == ByteBits(a / 2, n - 1) && ByteBits(b, n)[1..] == ByteBits(b / 2, n - 1);
      ByteBitsSame(a / 2, b / 2, n - 1);
    }
  }

  lemma {:induction false} BitsInjective(s: seq<byte>, t: seq<byte>)
    requires |s| == |t| && Bits(s) == Bits(t)
    ensures s == t
  {
    if s != [] {
      assert ByteBits(s[0], 8) == Bits(s)[..8] == Bits(t)[..8] == ByteBits(t[0], 8);
      assert Bits(s[1..]) == Bits(s)[8..] == Bits(t)[8..] == Bits(t[1..]);
      assert Pow2(8) == 256;
      ByteBitsSame(s[0], t[0], 8);
      BitsInjective(s[1..], t[1..]);
    }
  }

  // The two texts differ, and agree outside the bit positions lo to hi.
  ghost predicate Burst(s: seq<byte>, t: seq<byte>, lo: nat, hi: nat) {
    && |s| == |t| && s != t
    && forall k :: 0 <= k < |Bits(s)| && !(lo <= k < hi) ==> Bits(s)[k] == Bits(t)[k]
  }

  // Error detection: damage inside one burst of at most 32 bits always changes the CRC.
  lemma BurstDetected(s: seq<byte>, t: seq<byte>, lo: nat, hi: nat)
    requires Burst(s, t, lo, hi) && hi <= lo + 32
    ensures Crc(s) != Crc(t)
  {
    hide Bits, Feed, Xor;
    var a, b := Bits(s), Bits(t);
    if a == b { BitsInjective(s, t); }
    var first := FirstDifference(a, b);
    var end := if hi <= |a| then hi else |a|;
    assert a[end..] == b[end..];
    Powers();
    BurstBits(ONES, a, b, first, end);
    XorCancel(Feed(ONES, a), Feed(ONES, b), ONES);
  }

  lemma XorCancel(x: nat, y: nat, z: nat)
    ensures Xor(x, z) == Xor(y, z) <==> x == y
  {
    hide Xor;
    XorSwap(x, y, z, z);
    XorSelf(z);
    XorZero(Xor(x, y));
    XorSelf(Xor(x, z));
    if Xor(x, z) == Xor(y, z) { XorNone(x, y); }
  }

  lemma {:induction false} FirstDifference(a: seq<bool>, b: seq<bool>) returns (k: nat)
    requires |a| == |b| && a != b
    ensures k < |a| && a[k] != b[k] && a[..k] == b[..k]
  {
    if a[0] != b[0] {
      k := 0;
    } else {
      assert a == [a[0]] + a[1..] && b == [b[0]] + b[1..];
      var j := FirstDifference(a[1..], b[1..]);
      k := j + 1;
      assert a[..k] == [a[0]] + a[1..][..j] && b[..k] == [b[0]] + b[1..][..j];
    }
  }

  // Damage to at most four neighbouring bytes is such a burst.
  lemma FourBytes(s: seq<byte>, t: seq<byte>, at: nat)
    requires |s| == |t| && s != t && at <= |s|
    requires forall i :: 0 <= i < |s| && !(at <= i < at + 4) ==> s[i] == t[i]
    ensures Burst(s, t, 8 * at, 8 * at + 32) && Crc(s) != Crc(t)
  {
    hide Bits, Crc;
    forall k | 0 <= k < |Bits(s)| && !(8 * at <= k < 8 * at + 32) ensures Bits(s)[k] == Bits(t)[k] {
      BitOf(s, k);
      BitOf(t, k);
    }
    BurstDetected(s, t, 8 * at, 8 * at + 32);
  }

  // A burst covers every byte in which the texts differ.
  lemma BurstSpan(s: seq<byte>, t: seq<byte>, lo: nat, hi: nat, i: nat)
    requires Burst(s, t, lo, hi) && i < |s| && s[i] != t[i]
    ensures lo < 8 * i + 8 && 8 * i < hi
  {
    hide Bits, ByteBits;
    assert Pow2(8) == 256;
    var x, y := ByteBits(s[i], 8), ByteBits(t[i], 8);
    if x == y { ByteBitsSame(s[i], t[i], 8); }
    var m := FirstDifference(x, y);
    var k := 8 * i + m;
    assert k / 8 == i && k % 8 == m;
    BitOf(s, k);
    BitOf(t, k);
  }

  lemma {:induction false} BitOf(s: seq<byte>, k: nat)
    requires k < 8 * |s|
    ensures Bits(s)[k] == ByteBits(s[k / 8], 8)[k % 8]
    decreases |s|
  {
    hide ByteBits;
    if k >= 8 {
      BitOf(s[1..], k - 8);
      assert k / 8 == (k - 8) / 8 + 1 && k % 8 == (k - 8) % 8;
      assert s[1..][(k - 8) / 8] == s[k / 8];
    }
  }
}
