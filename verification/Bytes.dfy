/** Bytes, exclusive or on natural numbers, and numbers as byte strings, shared by the log checksum and the wire codecs. */
module Bytes {

  type byte = x: int | 0 <= x < 256

  // The text NULL, which both wire protocols send as the value NULL
  const NULL_TEXT: seq<byte> := [78, 85, 76, 76]

  function Pow2(n: nat): (r: nat)
    ensures r > 0
  {
    if n == 0 then 1 else 2 * Pow2(n - 1)
  }

  // ------------------------------------------------------------------------------------------
  // Exclusive or

  function Xor(a: nat, b: nat): nat
    decreases a + b
  {
    if a == 0 && b == 0 then 0 else 2 * Xor(a / 2, b / 2) + if a % 2 != b % 2 then 1 else 0
  }

  lemma {:induction false} XorHalf(a: nat, b: nat)
    ensures Xor(a, b) / 2 == Xor(a / 2, b / 2) && (Xor(a, b) % 2 == 1 <==> a % 2 != b % 2)
  {
  }

  lemma {:induction false} XorZero(a: nat)
    ensures Xor(a, 0) == a == Xor(0, a)
  {
    if a != 0 { XorZero(a / 2); }
  }

  lemma {:induction false} XorSelf(a: nat)
    ensures Xor(a, a) == 0
  {
    if a != 0 { XorSelf(a / 2); }
  }

  lemma {:induction false} XorComm(a: nat, b: nat)
    ensures Xor(a, b) == Xor(b, a)
    decreases a + b
  {
    if a + b != 0 { XorComm(a / 2, b / 2); }
  }

  // Words with the same half and the same low bit are the same.
  lemma SameWord(x: nat, y: nat)
    requires x / 2 == y / 2 && (x % 2 == 1 <==> y % 2 == 1)
    ensures x == y
  {
  }

  lemma {:induction false} XorAssoc(a: nat, b: nat, c: nat)
    ensures Xor(Xor(a, b), c) == Xor(a, Xor(b, c))
    decreases a + b + c
  {
    if a + b + c != 0 {
      hide Xor;
      XorAssoc(a / 2, b / 2, c / 2);
      XorHalf(a, b);
      XorHalf(b, c);
      XorHalf(Xor(a, b), c);
      XorHalf(a, Xor(b, c));
      SameWord(Xor(Xor(a, b), c), Xor(a, Xor(b, c)));
    }
  }

  lemma XorSwap(a: nat, b: nat, c: nat, d: nat)
    ensures Xor(Xor(a, c), Xor(b, d)) == Xor(Xor(a, b), Xor(c, d))
  {
    hide Xor;
    XorAssoc(a, c, Xor(b, d));
    XorAssoc(c, b, d);
    XorComm(c, b);
    XorAssoc(b, c, d);
    XorAssoc(a, b, Xor(c, d));
  }

  lemma {:induction false} XorNone(a: nat, b: nat)
    requires Xor(a, b) == 0
    ensures a == b
    decreases a + b
  {
    if a + b != 0 { XorNone(a / 2, b / 2); }
  }

  lemma {:induction false} XorBelow(a: nat, b: nat, n: nat)
    requires a < Pow2(n) && b < Pow2(n)
    ensures Xor(a, b) < Pow2(n)
  {
    if n > 0 { XorBelow(a / 2, b / 2, n - 1); }
  }

  // A word that alone has its top bit set keeps it.
  lemma {:induction false} XorTop(a: nat, b: nat, n: nat)
    requires a < Pow2(n) <= b < Pow2(n + 1)
    ensures Xor(a, b) >= Pow2(n)
  {
    if n > 0 { XorTop(a / 2, b / 2, n - 1); }
  }

  lemma XorByte(a: byte, b: byte)
    ensures Xor(a, b) < 256
  {
    assert Pow2(8) == 256 by { assert Pow2(4) == 16; }
    XorBelow(a, b, 8);
  }

  // ------------------------------------------------------------------------------------------
  // Numbers in bytes

  // The k low bytes of n, most significant first
  function BigEndian(n: nat, k: nat): (r: seq<byte>)
    ensures |r| == k
  {
    if k == 0 then [] else BigEndian(n / 256, k - 1) + [n % 256]
  }

  function BigValue(s: seq<byte>): nat
    decreases |s|
  {
    if s == [] then 0 else 256 * BigValue(s[..|s| - 1]) + s[|s| - 1]
  }

  // The k low bytes of n, least significant first
  function LittleEndian(n: nat, k: nat): (r: seq<byte>)
    ensures |r| == k
  {
    if k == 0 then [] else [n % 256] + LittleEndian(n / 256, k - 1)
  }

  function LittleValue(s: seq<byte>): nat
    decreases |s|
  {
    if s == [] then 0 else s[0] + 256 * LittleValue(s[1..])
  }

  function Pow256(k: nat): nat { if k == 0 then 1 else 256 * Pow256(k - 1) }

  lemma {:induction false} BigRoundTrip(n: nat, k: nat)
    requires n < Pow256(k)
    ensures BigValue(BigEndian(n, k)) == n
  {
    if k > 0 {
      BigRoundTrip(n / 256, k - 1);
      assert BigEndian(n, k)[..k - 1] == BigEndian(n / 256, k - 1);
    }
  }

  lemma {:induction false} LittleRoundTrip(n: nat, k: nat)
    requires n < Pow256(k)
    ensures LittleValue(LittleEndian(n, k)) == n
  {
    if k > 0 {
      LittleRoundTrip(n / 256, k - 1);
      assert LittleEndian(n, k)[1..] == LittleEndian(n / 256, k - 1);
    }
  }

  lemma TwoBigBytes(n: nat)
    ensures BigEndian(n, 2) == [n / 256 % 256, n % 256]
  {
    assert BigEndian(n / 256, 1) == [n / 256 % 256];
  }

  lemma FourBigBytes(n: nat)
    ensures BigEndian(n, 4) == [n / 0x100_0000 % 256, n / 0x1_0000 % 256, n / 0x100 % 256, n % 256]
  {
    TwoBigBytes(n / 256 / 256);
    assert BigEndian(n, 4) == BigEndian(n / 256, 3) + [n % 256];
    assert BigEndian(n / 256, 3) == BigEndian(n / 256 / 256, 2) + [n / 256 % 256];
    assert n / 256 / 256 == n / 0x1_0000 && n / 256 / 256 / 256 == n / 0x100_0000;
  }

  lemma BigFour(a: byte, b: byte, c: byte, d: byte)
    ensures BigValue([a, b, c, d]) == a * 0x100_0000 + b * 0x1_0000 + c * 0x100 + d
  {
    var s := [a, b, c, d];
    assert s[..3] == [a, b, c] && [a, b, c][..2] == [a, b] && [a, b][..1] == [a] && [a][..0] == [];
    assert BigValue([a]) == 256 * BigValue([]) + a;
    assert BigValue([a, b]) == 256 * BigValue([a]) + b;
    assert BigValue([a, b, c]) == 256 * BigValue([a, b]) + c;
    assert BigValue(s) == 256 * BigValue([a, b, c]) + d;
  }

  lemma SmallPowers()
    ensures Pow256(1) == 256 && Pow256(2) == 0x1_0000 && Pow256(3) == 0x100_0000 && Pow256(4) == 0x1_0000_0000
    ensures Pow256(8) == 0x1_0000_0000_0000_0000
  {
    assert Pow256(4) == 256 * Pow256(3) && Pow256(8) == 256 * Pow256(7) && Pow256(7) == 256 * Pow256(6);
    assert Pow256(6) == 256 * Pow256(5) && Pow256(5) == 256 * Pow256(4);
  }

  // n >> 8 * k
  function Shifted(n: nat, k: nat): nat { if k == 0 then n else Shifted(n / 256, k - 1) }

  lemma {:induction false} ShiftedStep(n: nat, k: nat)
    ensures Shifted(n, k) / 256 == Shifted(n, k + 1)
  {
    if k > 0 { ShiftedStep(n / 256, k - 1); }
  }
}
