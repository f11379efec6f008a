/** SHA-1 as the WebSocket handshake computes it, against the definitions of FIPS 180-4. A word is a number below 2^32;
    shifts are multiplications and divisions, and the bitwise operations are defined bit by bit. */
module Sha1 {
  import opened Bytes

  const WORDS: nat := 0x1_0000_0000

  type Word = x: nat | x < 0x1_0000_0000

  // ------------------------------------------------------------------------------------------
  // Bitwise operations

  function And(a: nat, b: nat): nat
    decreases a
  {
    if a == 0 || b == 0 then 0 else 2 * And(a / 2, b / 2) + if a % 2 == 1 && b % 2 == 1 then 1 else 0
  }

  function Or(a: nat, b: nat): nat
    decreases a + b
  {
    if a == 0 && b == 0 then 0 else 2 * Or(a / 2, b / 2) + if a % 2 == 1 || b % 2 == 1 then 1 else 0
  }

  lemma AndHalf(a: nat, b: nat)
    ensures And(a, b) / 2 == And(a / 2, b / 2) && (And(a, b) % 2 == 1 <==> a % 2 == 1 && b % 2 == 1)
  {
  }

  lemma OrHalf(a: nat, b: nat)
    ensures Or(a, b) / 2 == Or(a / 2, b / 2) && (Or(a, b) % 2 == 1 <==> a % 2 == 1 || b % 2 == 1)
  {
  }

  lemma {:induction false} AndBelow(a: nat, b: nat, n: nat)
    requires a < Pow2(n)
    ensures And(a, b) < Pow2(n)
  {
    if n > 0 { AndBelow(a / 2, b / 2, n - 1); }
  }

  lemma {:induction false} OrBelow(a: nat, b: nat, n: nat)
    requires a < Pow2(n) && b < Pow2(n)
    ensures Or(a, b) < Pow2(n)
  {
    if n > 0 { OrBelow(a / 2, b / 2, n - 1); }
  }

  lemma PowersOf256()
    ensures Pow2(8) == 256 && Pow2(16) == 0x1_0000 && Pow2(24) == 0x100_0000
  {
    assert Pow2(8) == 256 by { assert Pow2(4) == 16; }
    assert Pow2(16) == 0x1_0000 by { assert Pow2(12) == 4096; }
    assert Pow2(24) == 0x100_0000 by { assert Pow2(20) == 0x10_0000; }
  }

  lemma WordPower()
    ensures Pow2(32) == WORDS
  {
    PowersOf256();
    assert Pow2(28) == 0x1000_0000;
  }

  function AndWord(a: Word, b: Word): Word {
    WordPower();
    AndBelow(a, b, 32);
    And(a, b)
  }

  function OrWord(a: Word, b: Word): Word {
    WordPower();
    OrBelow(a, b, 32);
    Or(a, b)
  }

  function XorWord(a: Word, b: Word): Word {
    WordPower();
    XorBelow(a, b, 32);
    Xor(a, b)
  }

  function Not(a: Word): Word { WORDS - 1 - a }

  function Add(a: Word, b: Word): Word { (a + b) % WORDS }

  // ------------------------------------------------------------------------------------------
  // FIPS 180-4

  // Section 3.2: the circular left shift by n, for p == 2^n and q == 2^(32 - n)
  function Rotl(x: Word, p: nat, q: nat): Word
    requires p > 0 && q > 0 && p * q == WORDS
  {
    RotlBelow(x, p, q);
    x % q * p + x / q
  }

  lemma QuotientBelow(x: Word, p: nat, q: nat)
    requires q > 0 && p * q == WORDS
    ensures x / q < p
  {
    assert x == x / q * q + x % q;
    Times(p, x / q, q);
  }

  lemma Times(m: nat, n: nat, q: nat)
    ensures m <= n ==> m * q <= n * q
  {
  }

  lemma RotlBelow(x: Word, p: nat, q: nat)
    requires p > 0 && q > 0 && p * q == WORDS
    ensures x % q * p + x / q < WORDS
  {
    QuotientBelow(x, p, q);
    assert x % q * p <= (q - 1) * p;
    assert (q - 1) * p == p * q - p;
  }

  function Rotl1(x: Word): Word { Rotl(x, 2, 0x8000_0000) }
  function Rotl5(x: Word): Word { Rotl(x, 32, 0x800_0000) }
  function Rotl30(x: Word): Word { Rotl(x, 0x4000_0000, 4) }

  // Section 4.1.1
  function Ch(x: Word, y: Word, z: Word): Word { XorWord(AndWord(x, y), AndWord(Not(x), z)) }

  function Parity(x: Word, y: Word, z: Word): Word { XorWord(XorWord(x, y), z) }

  function Maj(x: Word, y: Word, z: Word): Word { XorWord(XorWord(AndWord(x, y), AndWord(x, z)), AndWord(y, z)) }

  function F(t: nat, x: Word, y: Word, z: Word): Word {
    if t < 20 then Ch(x, y, z) else if 40 <= t < 60 then Maj(x, y, z) else Parity(x, y, z)
  }

  // Section 4.2.1
  function K(t: nat): Word {
    if t < 20 then 0x5A82_7999 else if t < 40 then 0x6ED9_EBA1 else if t < 60 then 0x8F1B_BCDC else 0xCA62_C1D6
  }

  // Section 5.1.1: a one bit, zeros up to 448 bits modulo 512, and the length in bits as 64 bits
  function Zeros(k: nat): seq<byte> { seq(k, _ => 0) }

  // Zero bytes after n bytes of message and the byte 0x80
  function ZeroCount(n: nat): (z: nat)
    ensures z < 64
  {
    var r := (n + 1) % 64;
    if r <= 56 then 56 - r else 120 - r
  }

  // It is the smallest number that leaves 8 bytes to the end of a block.
  lemma ZeroCountSmallest(n: nat, z: nat)
    requires z <= ZeroCount(n)
    ensures (n + 1 + z) % 64 == 56 <==> z == ZeroCount(n)
  {
    var q, r := (n + 1) / 64, (n + 1) % 64;
    assert n + 1 + z == 64 * q + (r + z);
    RemainderIs(q, r + z);
  }

  lemma RemainderIs(q: nat, s: nat)
    requires s < 128
    ensures (64 * q + s) % 64 == if s < 64 then s else s - 64
  {
  }

  function Pad(m: seq<byte>): (r: seq<byte>)
    ensures |r| % 64 == 0
  {
    ZeroCountSmallest(|m|, ZeroCount(|m|));
    hide ZeroCount;
    m + [0x80] + Zeros(ZeroCount(|m|)) + BigEndian(8 * |m|, 8)
  }

  // Section 5.2.1: 16 words of a block
  function BlockWord(block: seq<byte>, t: nat): Word
    requires |block| == 64 && t < 16
  {
    WordValue(block[4 * t], block[4 * t + 1], block[4 * t + 2], block[4 * t + 3])
  }

  function WordValue(a: byte, b: byte, c: byte, d: byte): Word { 0x100_0000 * a + 0x1_0000 * b + 0x100 * c + d }

  // Section 6.1.2, step 1
  function W(block: seq<byte>, t: nat): Word
    requires |block| == 64
  {
    if t < 16 then BlockWord(block, t)
    else Rotl1(XorWord(XorWord(XorWord(W(block, t - 3), W(block, t - 8)), W(block, t - 14)), W(block, t - 16)))
  }

  function Schedule(block: seq<byte>): (r: seq<Word>)
    requires |block| == 64
    ensures |r| == 80
  {
    seq(80, t requires 0 <= t < 80 => W(block, t))
  }

  datatype Hash = Hash(a: Word, b: Word, c: Word, d: Word, e: Word)

  // Section 5.3.1
  const START := Hash(0x6745_2301, 0xEFCD_AB89, 0x98BA_DCFE, 0x1032_5476, 0xC3D2_E1F0)

  // Section 6.1.2, steps 2 and 3
  function Round(h: Hash, t: nat, w: Word): Hash {
    Hash(Add(Add(Add(Add(Rotl5(h.a), F(t, h.b, h.c, h.d)), h.e), K(t)), w), h.a, Rotl30(h.b), h.c, h.d)
  }

  function Rounds(h: Hash, ws: seq<Word>): Hash
    decreases |ws|
  {
    if ws == [] then h else Round(Rounds(h, ws[..|ws| - 1]), |ws| - 1, ws[|ws| - 1])
  }

  // Step 4
  function Sum(h: Hash, k: Hash): Hash {
    Hash(Add(h.a, k.a), Add(h.b, k.b), Add(h.c, k.c), Add(h.d, k.d), Add(h.e, k.e))
  }

  function Compress(h: Hash, block: seq<byte>): Hash
    requires |block| == 64
  {
    Sum(h, Rounds(h, Schedule(block)))
  }

  function Digest(h: Hash, m: seq<byte>): Hash
    decreases |m|
  {
    if |m| < 64 then h else Digest(Compress(h, m[..64]), m[64..])
  }

  function HashBytes(h: Hash): (r: seq<byte>)
    ensures |r| == 20
  {
    BigEndian(h.a, 4) + BigEndian(h.b, 4) + BigEndian(h.c, 4) + BigEndian(h.d, 4) + BigEndian(h.e, 4)
  }

  function Sha1(m: seq<byte>): (r: seq<byte>)
    ensures |r| == 20
  {
    HashBytes(Digest(START, Pad(m)))
  }

  // ------------------------------------------------------------------------------------------
  // The shifted, or-ed forms of the code

  lemma Doubled(a: nat, p: nat)
    ensures a * (2 * p) == 2 * (a * p)
  {
  }

  // Two bit patterns that do not overlap: or adds them.
  lemma {:induction false} OrAdds(a: nat, b: nat, n: nat)
    requires b < Pow2(n)
    ensures Or(a * Pow2(n), b) == a * Pow2(n) + b
  {
    if n == 0 {
      OrZero(a);
    } else {
      OrAdds(a, b / 2, n - 1);
      var v := a * Pow2(n - 1);
      assert a * Pow2(n) == 2 * v by { Doubled(a, Pow2(n - 1)); }
      hide Or, Pow2;
      OrHalf(2 * v, b);
      SameWord(Or(2 * v, b), 2 * v + b);
    }
  }

  lemma {:induction false} OrZero(a: nat)
    ensures Or(a, 0) == a
  {
    if a > 0 { OrZero(a / 2); }
  }

  // (x << n) | (x >> (32 - n)) in 32 bits is the rotation.
  lemma ShiftsRotate(x: Word, n: nat, p: nat, q: nat)
    requires p == Pow2(n) && q > 0 && p * q == WORDS
    ensures Or(x * p % WORDS, x / q) == Rotl(x, p, q)
  {
    hide Or;
    TopBitsLost(x, p, q);
    QuotientBelow(x, p, q);
    OrAdds(x % q, x / q, n);
  }

  lemma TopBitsLost(x: Word, p: nat, q: nat)
    requires p > 0 && q > 0 && p * q == WORDS
    ensures x * p % WORDS == x % q * p
  {
    assert x == x / q * q + x % q;
    assert x * p == x / q * WORDS + x % q * p by { assert x / q * q * p == x / q * (p * q); }
    RotlBelow(x, p, q);
    RemainderOf(x * p, x / q, x % q * p);
  }

  lemma RemainderOf(v: nat, k: nat, r: nat)
    requires v == k * WORDS + r && r < WORDS
    ensures v % WORDS == r
  {
  }

  lemma BytesOr(a: byte, b: byte, c: byte, d: byte)
    ensures Or(Or(Or(a * 0x100_0000, b * 0x1_0000), c * 0x100), d) == WordValue(a, b, c, d)
  {
    hide Or, Pow2;
    PowersOf256();
    OrAdds(a, b * 0x1_0000, 24);
    OrAdds(a * 0x100 + b, c * 0x100, 16);
    OrAdds(a * 0x1_0000 + b * 0x100 + c, d, 8);
  }

  // n ones
  function Ones(n: nat): nat { Pow2(n) - 1 }

  // (b & c) | (~b & d) is Ch, on n-bit words
  lemma {:induction false} ChooseBits(b: nat, c: nat, d: nat, n: nat)
    requires b < Pow2(n)
    ensures Or(And(b, c), And(Ones(n) - b, d)) == Xor(And(b, c), And(Ones(n) - b, d))
  {
    var x, y := And(b, c), And(Ones(n) - b, d);
    if n == 0 {
      assert x == 0 && y == 0;
      OrZero(0);
      XorZero(0);
    } else {
      hide And, Or, Xor;
      ChooseBits(b / 2, c / 2, d / 2, n - 1);
      AndHalf(b, c);
      AndHalf(Ones(n) - b, d);
      assert (Ones(n) - b) / 2 == Ones(n - 1) - b / 2 && (Ones(n) - b) % 2 != b % 2;
      OrHalf(x, y);
      XorHalf(x, y);
      SameWord(Or(x, y), Xor(x, y));
    }
  }

  lemma {:induction false} MajorityBits(b: nat, c: nat, d: nat)
    ensures Or(Or(And(b, c), And(b, d)), And(c, d)) == Xor(Xor(And(b, c), And(b, d)), And(c, d))
    decreases b + c + d
  {
    var x, y, z := And(b, c), And(b, d), And(c, d);
    if b + c + d > 0 {
      hide And, Or, Xor;
      MajorityBits(b / 2, c / 2, d / 2);
      AndHalf(b, c);
      AndHalf(b, d);
      AndHalf(c, d);
      OrHalf(x, y);
      XorHalf(x, y);
      OrHalf(Or(x, y), z);
      XorHalf(Xor(x, y), z);
      SameWord(Or(Or(x, y), z), Xor(Xor(x, y), z));
    }
  }

  lemma ChooseForm(b: Word, c: Word, d: Word)
    ensures OrWord(AndWord(b, c), AndWord(Not(b), d)) == Ch(b, c, d)
  {
    hide And, Or, Xor;
    WordPower();
    ChooseBits(b, c, d, 32);
  }

  lemma MajorityForm(b: Word, c: Word, d: Word)
    ensures OrWord(OrWord(AndWord(b, c), AndWord(b, d)), AndWord(c, d)) == Maj(b, c, d)
  {
    hide And, Or, Xor;
    MajorityBits(b, c, d);
  }

  lemma RotateForms(x: Word)
    ensures Or(x * 2 % WORDS, x / 0x8000_0000) == Rotl1(x)
    ensures Or(x * 32 % WORDS, x / 0x800_0000) == Rotl5(x)
    ensures Or(x * 0x4000_0000 % WORDS, x / 4) == Rotl30(x)
  {
    hide Or, Rotl;
    assert Pow2(1) == 2 && Pow2(5) == 32;
    WordPower();
    assert Pow2(32) == 2 * Pow2(31) && Pow2(31) == 2 * Pow2(30);
    ShiftsRotate(x, 1, 2, 0x8000_0000);
    ShiftsRotate(x, 5, 32, 0x800_0000);
    ShiftsRotate(x, 30, 0x4000_0000, 4);
  }

  // ------------------------------------------------------------------------------------------
  // The code

  method RoundFunction(j: nat, b: Word, c: Word, d: Word) returns (f: Word, k: Word)
    ensures f == F(j, b, c, d) && k == K(j)
  {
    hide Ch, Maj, AndWord, OrWord, XorWord, Not;
    if j < 20 {
      f, k := OrWord(AndWord(b, c), AndWord(Not(b), d)), 0x5A82_7999;
      ChooseForm(b, c, d);
    } else if j < 40 {
      f, k := XorWord(XorWord(b, c), d), 0x6ED9_EBA1;
    } else if j < 60 {
      f, k := OrWord(OrWord(AndWord(b, c), AndWord(b, d)), AndWord(c, d)), 0x8F1B_BCDC;
      MajorityForm(b, c, d);
    } else {
      f, k := XorWord(XorWord(b, c), d), 0xCA62_C1D6;
    }
  }

  method FillSchedule(block: seq<byte>, w: array<Word>)
    requires |block| == 64 && w.Length == 80
    modifies w
    ensures w[..] == Schedule(block)
  {
    hide Rotl1, XorWord, WordValue;
    for j := 0 to 16
      invariant forall t :: 0 <= t < j ==> w[t] == W(block, t)
    {
      BytesOr(block[j * 4], block[j * 4 + 1], block[j * 4 + 2], block[j * 4 + 3]);
      var b0: nat, b1: nat, b2: nat, b3: nat := block[j * 4], block[j * 4 + 1], block[j * 4 + 2], block[j * 4 + 3];
      w[j] := Or(Or(Or(b0 * 0x100_0000, b1 * 0x1_0000), b2 * 0x100), b3);
    }
    for j := 16 to 80
      invariant forall t :: 0 <= t < j ==> w[t] == W(block, t)
    {
      var v := XorWord(XorWord(XorWord(w[j - 3], w[j - 8]), w[j - 14]), w[j - 16]);
      RotateForms(v);
      w[j] := Or(v * 2 % WORDS, v / 0x8000_0000);
    }
  }

  method CompressBlock(block: seq<byte>, h: array<Word>)
    requires |block| == 64 && h.Length == 5
    modifies h
    ensures Values(h[..]) == Compress(old(Values(h[..])), block)
  {
    hide Add, Rotl5, Rotl30, F, K, Schedule;
    var w := new Word[80];
    FillSchedule(block, w);
    var a: Word, b: Word, c: Word, d: Word, e: Word := h[0], h[1], h[2], h[3], h[4];
    ghost var start := Hash(a, b, c, d, e);
    for j := 0 to 80
      invariant Hash(a, b, c, d, e) == Rounds(start, w[..j])
      invariant h[..] == old(h[..]) && w[..] == Schedule(block)
    {
      assert w[..j + 1][..j] == w[..j];
      var f, k := RoundFunction(j, b, c, d);
      RotateForms(a);
      RotateForms(b);
      var tmp := Add(Add(Add(Add(Or(a * 32 % WORDS, a / 0x800_0000), f), e), k), w[j]);
      e := d;
      d := c;
      c := Or(b * 0x4000_0000 % WORDS, b / 4);
      b := a;
      a := tmp;
    }
    assert w[..80] == w[..];
    h[0] := Add(h[0], a);
    h[1] := Add(h[1], b);
    h[2] := Add(h[2], c);
    h[3] := Add(h[3], d);
    h[4] := Add(h[4], e);
  }

  function Values(s: seq<Word>): Hash
    requires |s| == 5
  {
    Hash(s[0], s[1], s[2], s[3], s[4])
  }

  method PadMessage(input: seq<byte>) returns (msg: seq<byte>)
    ensures msg == Pad(input)
  {
    msg := input;
    var origBitLen := |msg| * 8;
    msg := msg + [0x80];
    hide ZeroCount;
    ghost var z := 0;
    assert Zeros(0) == [];
    ZeroCountSmallest(|input|, 0);
    while |msg| % 64 != 56
      invariant msg == input + [0x80] + Zeros(z) && z <= ZeroCount(|input|)
      invariant |msg| % 64 == 56 <==> z == ZeroCount(|input|)
      decreases ZeroCount(|input|) - z
    {
      msg := msg + [0x00];
      assert Zeros(z + 1) == Zeros(z) + [0];
      z := z + 1;
      ZeroCountSmallest(|input|, z);
      assert |msg| == |input| + 1 + z;
    }
    msg := AppendLength(msg, origBitLen);
  }

  method AppendLength(body: seq<byte>, origBitLen: nat) returns (msg: seq<byte>)
    ensures msg == body + BigEndian(origBitLen, 8)
  {
    msg := body;
    var i := 7;
    assert BigEndian(Shifted(origBitLen, 8), 0) == [];
    while i >= 0
      invariant -1 <= i <= 7
      invariant msg == body + BigEndian(Shifted(origBitLen, i + 1), 7 - i)
    {
      msg := msg + [Shifted(origBitLen, i) % 256];
      ShiftedStep(origBitLen, i);
      i := i - 1;
    }
  }

  lemma DigestStep(h: Hash, m: seq<byte>)
    requires |m| >= 64
    ensures Digest(h, m) == Digest(Compress(h, m[..64]), m[64..])
  {
    hide Compress;
  }

  lemma DigestDone(h: Hash)
    ensures Digest(h, []) == h
  {
  }

  method Sha1Raw(input: seq<byte>) returns (result: seq<byte>)
    ensures result == Sha1(input)
  {
    hide Compress, Pad, Digest, HashBytes;
    var h := new Word[5][0x6745_2301, 0xEFCD_AB89, 0x98BA_DCFE, 0x1032_5476, 0xC3D2_E1F0];
    var msg := PadMessage(input);
    var i := 0;
    assert msg[0..] == msg && |msg| % 64 == 0;
    assert Values(h[..]) == START;
    ghost var left := |msg| / 64;
    while i < |msg|
      invariant 0 <= i <= |msg| && |msg| == i + 64 * left
      invariant Digest(START, msg) == Digest(Values(h[..]), msg[i..])
    {
      assert msg[i..][..64] == msg[i..i + 64] && msg[i..][64..] == msg[i + 64..];
      DigestStep(Values(h[..]), msg[i..]);
      CompressBlock(msg[i..i + 64], h);
      i := i + 64;
      left := left - 1;
    }
    assert msg[i..] == [];
    DigestDone(Values(h[..]));
    result := WordBytes(h);
  }

  method WordBytes(h: array<Word>) returns (r: seq<byte>)
    requires h.Length == 5
    ensures r == HashBytes(Values(h[..]))
  {
    var result := new byte[20];
    for i := 0 to 5
      invariant forall k :: 0 <= k < i ==> result[4 * k..4 * k + 4] == BigEndian(h[k], 4)
    {
      result[4 * i] := h[i] / 0x100_0000 % 256;
      result[4 * i + 1] := h[i] / 0x1_0000 % 256;
      result[4 * i + 2] := h[i] / 0x100 % 256;
      result[4 * i + 3] := h[i] % 256;
      FourBigBytes(h[i]);
    }
    r := result[..];
    assert r == result[0..4] + result[4..8] + result[8..12] + result[12..16] + result[16..20];
  }
}
