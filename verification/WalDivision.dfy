/** The checksum of a log line told by long division of polynomials, as section 8 of RFC 1952 defines it: a bit string is
    the polynomial with these coefficients, highest power first. */
module WalDivision {
  import opened Bytes
  import opened WalCrc

  const POWERS: set<nat> := {32, 26, 23, 22, 16, 12, 11, 10, 8, 7, 5, 4, 2, 1, 0}

  // x^32 + x^26 + x^23 + x^22 + x^16 + x^12 + x^11 + x^10 + x^8 + x^7 + x^5 + x^4 + x^2 + x + 1
  function Generator(): (r: seq<bool>)
    ensures |r| == 33 && r[0]
  {
    seq(33, i requires 0 <= i < 33 => 32 - i in POWERS)
  }

  // What is left of the polynomial after division by the generator
  function Remainder(p: seq<bool>): (r: seq<bool>)
    ensures |r| == if |p| <= 32 then |p| else 32
    decreases |p|
  {
    if |p| <= 32 then p
    else if p[0] then Remainder(XorBits(p[..33], Generator())[1..] + p[33..])
    else Remainder(p[1..])
  }

  function Zeros(n: nat): (r: seq<bool>)
    ensures |r| == n
  {
    seq(n, i => false)
  }

  function Complement(p: seq<bool>): (r: seq<bool>)
    ensures |r| == |p|
  {
    seq(|p|, i requires 0 <= i < |p| => !p[i])
  }

  lemma {:induction false} XorBitsAt(a: seq<bool>, b: seq<bool>)
    requires |a| == |b|
    ensures forall i :: 0 <= i < |a| ==> XorBits(a, b)[i] == (a[i] != b[i])
  {
    if a != [] { XorBitsAt(a[1..], b[1..]); }
  }

  lemma {:induction false} ByteBitsXor(a: nat, b: nat, n: nat)
    ensures ByteBits(Xor(a, b), n) == XorBits(ByteBits(a, n), ByteBits(b, n))
  {
    if n > 0 {
      hide Xor;
      XorHalf(a, b);
      ByteBitsXor(a / 2, b / 2, n - 1);
      assert ByteBits(a, n)[1..] == ByteBits(a / 2, n - 1) && ByteBits(b, n)[1..] == ByteBits(b / 2, n - 1);
    }
  }

  // The bits of a word below 2^n, and no more
  lemma {:induction false} ByteBitsLonger(v: nat, n: nat)
    requires v < Pow2(n)
    ensures ByteBits(v, n + 1) == ByteBits(v, n) + [false]
  {
    if n > 0 {
      ByteBitsLonger(v / 2, n - 1);
    }
  }

  // The state is the polynomial that is still to be added to the next 32 coefficients.
  function Dividend(v: nat, bits: seq<bool>): (r: seq<bool>)
    ensures |r| == |bits| + 32
  {
    XorBits(bits + Zeros(32), ByteBits(v, 32) + Zeros(|bits|))
  }

  lemma FourBits(v: nat, n: nat)
    ensures ByteBits(v, n + 4)
            == [v % 2 == 1, v / 2 % 2 == 1, v / 4 % 2 == 1, v / 8 % 2 == 1] + ByteBits(v / 16, n)
  {
    var a, b, c := v / 2, v / 4, v / 8;
    assert a / 2 == b && b / 2 == c && c / 2 == v / 16;
    assert ByteBits(v, n + 4) == [v % 2 == 1] + ByteBits(a, n + 3);
    assert ByteBits(a, n + 3) == [a % 2 == 1] + ByteBits(b, n + 2);
    assert ByteBits(b, n + 2) == [b % 2 == 1] + ByteBits(c, n + 1);
  }

  lemma PolyHighBits()
    ensures ByteBits(POLY, 32) == Generator()[1..17] + ByteBits(0xEDB8, 16)
  {
    hide ByteBits;
    FourBits(0xEDB88320, 28);
    FourBits(0xEDB8832, 24);
    FourBits(0xEDB883, 20);
    FourBits(0xEDB88, 16);
  }

  // The constant of the code is the generator without its highest coefficient.
  lemma PolyBits()
    ensures ByteBits(POLY, 32) == Generator()[1..]
  {
    hide ByteBits;
    PolyHighBits();
    FourBits(0xEDB8, 12);
    FourBits(0xEDB, 8);
    FourBits(0xED, 4);
    FourBits(0xE, 0);
  }

  lemma DividendAt(v: nat, bits: seq<bool>, i: nat)
    requires i < |bits| + 32
    ensures Dividend(v, bits)[i]
            == ((i < |bits| && bits[i]) != (i < 32 && ByteBits(v, 32)[i]))
  {
    hide ByteBits, XorBits;
    XorBitsAt(bits + Zeros(32), ByteBits(v, 32) + Zeros(|bits|));
  }

  // The next coefficients of the word: those behind its first, and with the polynomial added
  lemma HalfAt(v: nat, i: nat)
    requires Fits32(v) && i < 32
    ensures ByteBits(v, 32)[0] == (v % 2 == 1)
    ensures ByteBits(v / 2, 32)[i] == (i < 31 && ByteBits(v, 32)[i + 1])
    ensures ByteBits(Xor(v / 2, POLY), 32)[i] == ((i < 31 && ByteBits(v, 32)[i + 1]) != Generator()[i + 1])
  {
    assert ByteBits(v, 32) == [v % 2 == 1] + ByteBits(v / 2, 31);
    hide ByteBits, Xor, Generator;
    Powers();
    ByteBitsLonger(v / 2, 31);
    ByteBitsXor(v / 2, POLY, 32);
    XorBitsAt(ByteBits(v / 2, 32), ByteBits(POLY, 32));
    PolyBits();
  }

  // Feeding one bit is one step of the division.
  lemma DivideStep(v: nat, bits: seq<bool>)
    requires Fits32(v) && bits != []
    ensures Remainder(Dividend(v, bits)) == Remainder(Dividend(FeedBit(v, bits[0]), bits[1..]))
  {
    hide ByteBits, Xor, Generator, XorBits, Dividend, Fits32;
    var d, w := Dividend(v, bits), FeedBit(v, bits[0]);
    DividendAt(v, bits, 0);
    HalfAt(v, 0);
    XorBitsAt(d[..33], Generator());
    var next := if d[0] then XorBits(d[..33], Generator())[1..] + d[33..] else d[1..];
    var later := Dividend(w, bits[1..]);
    forall i: nat | i < |later| ensures next[i] == later[i] {
      DividendAt(v, bits, i + 1);
      DividendAt(w, bits[1..], i);
      if i < 32 { HalfAt(v, i); }
    }
    assert next == later;
  }

  lemma {:induction false} FeedDivides(v: nat, bits: seq<bool>)
    requires Fits32(v)
    ensures ByteBits(Feed(v, bits), 32) == Remainder(Dividend(v, bits))
    decreases |bits|
  {
    hide ByteBits, FeedBit, Dividend, Fits32, Remainder;
    if bits == [] {
      DividendNone(v);
    } else {
      DivideStep(v, bits);
      StepWord(v, bits[0]);
      FeedDivides(FeedBit(v, bits[0]), bits[1..]);
    }
  }

  lemma DividendNone(v: nat)
    ensures Dividend(v, []) == ByteBits(v, 32) && Remainder(Dividend(v, [])) == ByteBits(v, 32)
  {
    hide ByteBits, XorBits;
    forall i: nat | i < 32 ensures Dividend(v, [])[i] == ByteBits(v, 32)[i] { DividendAt(v, [], i); }
  }

  lemma {:induction false} OnesAt(n: nat, i: nat)
    requires i < n
    ensures ByteBits(Pow2(n) - 1, n)[i]
  {
    if i > 0 { OnesAt(n - 1, i - 1); }
  }

  lemma AllOnes()
    ensures forall i :: 0 <= i < 32 ==> ByteBits(ONES, 32)[i]
  {
    hide ByteBits, Pow2;
    Powers();
    forall i: nat | i < 32 ensures ByteBits(ONES, 32)[i] { OnesAt(32, i); }
  }

  // The checksum is the complement of the remainder that the generator leaves of the text, lowest bit of each byte first,
  // followed by 32 zeros, with the first 32 coefficients complemented.
  lemma CrcIsRemainder(s: seq<byte>)
    ensures var m := Bits(s) + Zeros(32);
            ByteBits(Crc(s), 32) == Complement(Remainder(Complement(m[..32]) + m[32..]))
  {
    hide ByteBits, Bits, Xor, XorBits, Feed, Remainder, Dividend;
    var m, v := Bits(s) + Zeros(32), Feed(ONES, Bits(s));
    Powers();
    AllOnes();
    FeedDivides(ONES, Bits(s));
    var d := Dividend(ONES, Bits(s));
    forall i: nat | i < |d| ensures d[i] == (Complement(m[..32]) + m[32..])[i] {
      DividendAt(ONES, Bits(s), i);
    }
    assert d == Complement(m[..32]) + m[32..];
    ByteBitsXor(v, ONES, 32);
    XorBitsAt(ByteBits(v, 32), ByteBits(ONES, 32));
  }

  // Two words below 2^32 with the same 32 bits are the same, so this says all about the checksum.
  lemma CrcDetermined(s: seq<byte>, c: nat)
    requires c < 0x1_0000_0000
    ensures var m := Bits(s) + Zeros(32);
            c == Crc(s) <==> ByteBits(c, 32) == Complement(Remainder(Complement(m[..32]) + m[32..]))
  {
    hide ByteBits, Bits, Xor, Feed, Remainder;
    CrcIsRemainder(s);
    Powers();
    FeedWord(ONES, Bits(s));
    XorWord(Feed(ONES, Bits(s)), ONES);
    if ByteBits(c, 32) == ByteBits(Crc(s), 32) { ByteBitsSame(c, Crc(s), 32); }
  }

  // Fed to the empty state, the generator leaves nothing.
  lemma GeneratorVanishes()
    ensures Feed(0, Generator()) == 0
  {
    hide Feed, Generator;
    var g := Generator();
    assert Feed(0, g) == Feed(POLY, g[1..]) by { FirstFed(g); }
    PolyBits();
    Powers();
    FeedOwnBits(POLY, 32);
  }

  lemma FirstFed(g: seq<bool>)
    requires g != [] && g[0]
    ensures Feed(0, g) == Feed(POLY, g[1..])
  {
    XorZero(POLY);
  }

  lemma {:induction false} FeedOwnBits(v: nat, n: nat)
    requires v < Pow2(n)
    ensures Feed(v, ByteBits(v, n)) == 0
  {
    if n > 0 {
      assert ByteBits(v, n)[1..] == ByteBits(v / 2, n - 1);
      FeedOwnBits(v / 2, n - 1);
    }
  }

  lemma {:induction false} XorOnes(v: nat, n: nat)
    requires v < Pow2(n)
    ensures Xor(v, Pow2(n) - 1) == Pow2(n) - 1 - v
  {
    if n > 0 { XorOnes(v / 2, n - 1); }
  }

  lemma OnesBits(s: seq<byte>, k: nat)
    requires k < 8 * |s| && s[k / 8] == 0xFF
    ensures Bits(s)[k]
  {
    hide ByteBits, Bits, Pow2;
    BitOf(s, k);
    EightIsByte();
    OnesAt(8, k % 8);
  }

  lemma FourOnesBits(s: seq<byte>)
    requires s == [0xFF, 0xFF, 0xFF, 0xFF]
    ensures Bits(s) == ByteBits(ONES, 32)
  {
    hide ByteBits, Bits;
    AllOnes();
    forall k: nat | k < 32 ensures Bits(s)[k] { OnesBits(s, k); }
  }

  // Four bytes with all bits set empty the state; a last bit then fills it with the polynomial.
  lemma FourOnes(s: seq<byte>)
    requires s == [0xFF, 0xFF, 0xFF, 0xFF]
    ensures Feed(ONES, Bits(s)) == 0 && Feed(ONES, Bits(s + [0x80])) == POLY
  {
    hide ByteBits, Bits, Feed, Pow2;
    Powers();
    FourOnesBits(s);
    FeedOwnBits(ONES, 32);
    BitsNext(s, 0x80);
    FeedConcat(ONES, Bits(s), ByteBits(0x80, 8));
    LastBit();
  }

  lemma EightIsByte()
    ensures Pow2(8) == 0x100
  {
  }

  lemma {:induction false} BitsNext(s: seq<byte>, c: byte)
    ensures Bits(s + [c]) == Bits(s) + ByteBits(c, 8)
  {
    hide ByteBits;
    if s == [] {
      assert [] + [c] == [c] && Bits([c]) == ByteBits(c, 8) + Bits([]);
    } else {
      assert (s + [c])[1..] == s[1..] + [c];
      BitsNext(s[1..], c);
    }
  }

  lemma LastBit()
    ensures Feed(0, ByteBits(0x80, 8)) == POLY
  {
    hide ByteBits, Feed, Pow2, Xor;
    assert Pow2(7) == 0x80 by { SevenPower(); }
    TopBit(7);
    FeedConcat(0, Zeros(7), [true]);
    FeedNothing(7);
    FedOne();
  }

  lemma SevenPower()
    ensures Pow2(7) == 0x80
  {
  }

  lemma FedOne()
    ensures Feed(0, [true]) == POLY
  {
    XorZero(POLY);
  }

  lemma {:induction false} TopBit(n: nat)
    ensures ByteBits(Pow2(n), n + 1) == Zeros(n) + [true]
  {
    if n == 0 {
      assert ByteBits(1, 1) == [true] + ByteBits(0, 0);
    } else {
      TopBit(n - 1);
      assert Zeros(n) == [false] + Zeros(n - 1);
    }
  }

  lemma {:induction false} FeedNothing(n: nat)
    ensures Feed(0, Zeros(n)) == 0
  {
    if n > 0 {
      assert Zeros(n)[1..] == Zeros(n - 1);
      FeedNothing(n - 1);
    }
  }

  // The checksums of three short texts, which fix the initial and the final value too
  lemma ShortCrcs()
    ensures Crc([]) == 0
    ensures Crc([0xFF, 0xFF, 0xFF, 0xFF]) == 0xFFFF_FFFF
    ensures Crc([0xFF, 0xFF, 0xFF, 0xFF, 0x80]) == 0x1247_7CDF
  {
    assert Feed(ONES, Bits([])) == ONES;
    hide Bits, Feed, Xor, Pow2;
    var s: seq<byte> := [0xFF, 0xFF, 0xFF, 0xFF];
    assert s + [0x80] == [0xFF, 0xFF, 0xFF, 0xFF, 0x80];
    FourOnes(s);
    Powers();
    XorSelf(ONES);
    XorZero(ONES);
    XorOnes(POLY, 32);
  }
}
