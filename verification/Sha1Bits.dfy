/** The functions and constants of SHA-1 bit by bit, in the words of FIPS 180-4 rather than in its formulas. */
module Sha1Bits {
  import opened Bytes
  import opened Sha1

  function BitAt(v: nat, i: nat): bool
    decreases i
  {
    if i == 0 then v % 2 == 1 else BitAt(v / 2, i - 1)
  }

  lemma {:induction false} XorBit(a: nat, b: nat, i: nat)
    ensures BitAt(Xor(a, b), i) == (BitAt(a, i) != BitAt(b, i))
    decreases i
  {
    hide Xor;
    XorHalf(a, b);
    if i > 0 { XorBit(a / 2, b / 2, i - 1); }
  }

  lemma {:induction false} AndBit(a: nat, b: nat, i: nat)
    ensures BitAt(And(a, b), i) == (BitAt(a, i) && BitAt(b, i))
    decreases i
  {
    hide And;
    AndHalf(a, b);
    if i > 0 { AndBit(a / 2, b / 2, i - 1); }
  }

  // All bits of a number below 2^n turned over
  lemma {:induction false} NotBit(a: nat, i: nat, n: nat)
    requires a < Pow2(n) && i < n
    ensures BitAt(Pow2(n) - 1 - a, i) == !BitAt(a, i)
    decreases i
  {
    assert (Pow2(n) - 1 - a) / 2 == Pow2(n - 1) - 1 - a / 2;
    if i > 0 { NotBit(a / 2, i - 1, n - 1); }
  }

  // Section 4.1.1: x chooses between y and z; the parity and the majority of the three
  lemma FunctionBits(x: Word, y: Word, z: Word, i: nat)
    requires i < 32
    ensures BitAt(Ch(x, y, z), i) == if BitAt(x, i) then BitAt(y, i) else BitAt(z, i)
    ensures BitAt(Parity(x, y, z), i) == ((BitAt(x, i) != BitAt(y, i)) != BitAt(z, i))
    ensures BitAt(Maj(x, y, z), i)
         == ((BitAt(x, i) && BitAt(y, i)) || (BitAt(x, i) && BitAt(z, i)) || (BitAt(y, i) && BitAt(z, i)))
  {
    hide BitAt, And, Xor;
    WordPower();
    NotBit(x, i, 32);
    AndBit(x, y, i);
    AndBit(Not(x), z, i);
    XorBit(And(x, y), And(Not(x), z), i);
    XorBit(x, y, i);
    XorBit(Xor(x, y), z, i);
    AndBit(x, z, i);
    AndBit(y, z, i);
    XorBit(And(x, y), And(x, z), i);
    XorBit(Xor(And(x, y), And(x, z)), And(y, z), i);
  }

  // Section 4.2.1: twenty rounds each with Ch, Parity, Maj and Parity, and with the 32-bit numbers below 2^30 times the
  // square roots of 2, 3, 5 and 10
  lemma RoundsAre(t: nat, x: Word, y: Word, z: Word)
    requires t < 80
    ensures F(t, x, y, z) == [Ch(x, y, z), Parity(x, y, z), Maj(x, y, z), Parity(x, y, z)][t / 20]
    ensures var n := [2, 3, 5, 10][t / 20];
            K(t) * K(t) <= n * 0x1000_0000_0000_0000 < (K(t) + 1) * (K(t) + 1)
  {
    hide Ch, Parity, Maj;
  }

  // Section 5.3.1: the bytes of the initial words, lowest first, count up and then down.
  lemma StartBytes()
    ensures LittleEndian(START.a, 4) == [0x01, 0x23, 0x45, 0x67] && LittleEndian(START.b, 4) == [0x89, 0xAB, 0xCD, 0xEF]
    ensures LittleEndian(START.c, 4) == [0xFE, 0xDC, 0xBA, 0x98] && LittleEndian(START.d, 4) == [0x76, 0x54, 0x32, 0x10]
    ensures LittleEndian(START.e, 4) == [0xF0, 0xE1, 0xD2, 0xC3]
  {
    hide LittleEndian;
    FourLittle(START.a);
    FourLittle(START.b);
    FourLittle(START.c);
    FourLittle(START.d);
    FourLittle(START.e);
  }

  lemma FourLittle(n: nat)
    ensures LittleEndian(n, 4) == [n % 256, n / 256 % 256, n / 0x1_0000 % 256, n / 0x100_0000 % 256]
  {
    assert n / 256 / 256 == n / 0x1_0000 && n / 256 / 256 / 256 == n / 0x100_0000;
    assert LittleEndian(n, 4) == [n % 256] + LittleEndian(n / 256, 3);
    assert LittleEndian(n / 256, 3) == [n / 256 % 256] + LittleEndian(n / 256 / 256, 2);
    assert LittleEndian(n / 256 / 256, 2) == [n / 256 / 256 % 256] + LittleEndian(n / 256 / 256 / 256, 1);
  }

  // Section 5.1.1: the message, the byte 80, fewer than 64 zero bytes, and the number of bits in the last eight bytes;
  // whole blocks of 64 bytes
  lemma PadParts(m: seq<byte>)
    ensures var p := Pad(m);
            && |p| % 64 == 0 && |m| + 9 <= |p| < |m| + 73
            && p[..|m|] == m && p[|m|] == 0x80 && p[|p| - 8..] == BigEndian(8 * |m|, 8)
            && forall i :: |m| < i < |p| - 8 ==> p[i] == 0
  {
    hide ZeroCount;
  }

  // Section 5.2.1 and step 1 of 6.1.2: word t is made of bytes 4 t to 4 t + 3, and later words of four earlier ones.
  lemma ScheduleWords(block: seq<byte>, t: nat)
    requires |block| == 64 && t < 80
    ensures t < 16 ==> Schedule(block)[t] == BigValue(block[4 * t..4 * t + 4])
    ensures t >= 16 ==>
              var ws := Schedule(block);
              ws[t] == Rotl1(XorWord(XorWord(XorWord(ws[t - 3], ws[t - 8]), ws[t - 14]), ws[t - 16]))
  {
    if t < 16 {
      var s := block[4 * t..4 * t + 4];
      assert s == [block[4 * t], block[4 * t + 1], block[4 * t + 2], block[4 * t + 3]];
      BigFour(s[0], s[1], s[2], s[3]);
    }
  }

  // Addition modulo 2^32
  lemma AddWraps(a: Word, b: Word)
    ensures Add(a, b) == if a + b < 0x1_0000_0000 then a + b else a + b - 0x1_0000_0000
  {
  }

  // The rotation moves bit i to bit i + n modulo 32.
  lemma {:induction false} LowBits(a: nat, b: nat, n: nat, i: nat)
    requires b < Pow2(n)
    ensures BitAt(a * Pow2(n) + b, i) == if i < n then BitAt(b, i) else BitAt(a, i - n)
    decreases n
  {
    if n == 0 {
      assert a * Pow2(0) + b == a;
    } else {
      var v := a * Pow2(n - 1);
      assert a * Pow2(n) == 2 * v by { Doubled(a, Pow2(n - 1)); }
      assert (2 * v + b) / 2 == v + b / 2 && (2 * v + b) % 2 == b % 2;
      if i > 0 { LowBits(a, b / 2, n - 1, i - 1); }
    }
  }

  lemma RotlBit(x: Word, n: nat, p: nat, q: nat, i: nat)
    requires 0 < n < 32 && p == Pow2(n) && q == Pow2(32 - n) && p * q == WORDS && i < 32
    ensures BitAt(Rotl(x, p, q), (i + n) % 32) == BitAt(x, i)
  {
    hide BitAt, Pow2;
    QuotientBelow(x, p, q);
    var hi, lo := x / q, x % q;
    assert x == hi * q + lo;
    LowBits(hi, lo, 32 - n, i);
    LowBits(lo, hi, n, (i + n) % 32);
  }

  lemma Rotations(x: Word, i: nat)
    requires i < 32
    ensures BitAt(Rotl1(x), (i + 1) % 32) == BitAt(x, i)
    ensures BitAt(Rotl5(x), (i + 5) % 32) == BitAt(x, i)
    ensures BitAt(Rotl30(x), (i + 30) % 32) == BitAt(x, i)
  {
    hide BitAt, Rotl;
    SmallPowers2();
    RotlBit(x, 1, 2, 0x8000_0000, i);
    RotlBit(x, 5, 32, 0x800_0000, i);
    RotlBit(x, 30, 0x4000_0000, 4, i);
  }

  lemma SmallPowers2()
    ensures Pow2(1) == 2 && Pow2(2) == 4 && Pow2(5) == 32 && Pow2(27) == 0x800_0000 && Pow2(30) == 0x4000_0000
    ensures Pow2(31) == 0x8000_0000
  {
    PowersOf256();
    assert Pow2(27) == 8 * Pow2(24) by { assert Pow2(25) == 2 * Pow2(24); }
    assert Pow2(30) == 8 * Pow2(27) by { assert Pow2(28) == 2 * Pow2(27); }
  }

  // Section 6.1.2: every block of 64 bytes is compressed into the hash, one after the other.
  lemma DigestBlock(h: Hash, block: seq<byte>, m: seq<byte>)
    requires |block| == 64
    ensures Digest(h, []) == h && Digest(h, block + m) == Digest(Compress(h, block), m)
  {
    hide Compress;
    assert (block + m)[..64] == block && (block + m)[64..] == m;
  }
}
