/** Base64 (section 4 of RFC 4648) and the accept key of the WebSocket handshake (section 4.2.2 of RFC 6455). */
module Handshake {
  import opened Text
  import opened Bytes
  import opened Sha1

  const GUID := "258EAFA5-E914-47DA-95CA-C5AB0DC85B11"

  // ------------------------------------------------------------------------------------------
  // The alphabet

  function Symbol(v: nat): char
    requires v < 64
  {
    if v < 26 then 'A' + v as char else if v < 52 then 'a' + (v - 26) as char else if v < 62 then '0' + (v - 52) as char
    else if v == 62 then '+' else '/'
  }

  // The value of a character of the alphabet, or 64
  function SymbolValue(c: char): (v: nat)
    ensures v <= 64
  {
    if 'A' <= c <= 'Z' then c as int - 'A' as int
    else if 'a' <= c <= 'z' then c as int - 'a' as int + 26
    else if '0' <= c <= '9' then c as int - '0' as int + 52
    else if c == '+' then 62 else if c == '/' then 63 else 64
  }

  lemma SymbolRoundTrip(v: nat)
    requires v < 64
    ensures SymbolValue(Symbol(v)) == v && Symbol(v) != '='
  {
  }

  lemma ValueRoundTrip(c: char)
    requires SymbolValue(c) < 64
    ensures Symbol(SymbolValue(c)) == c
  {
  }

  // ------------------------------------------------------------------------------------------
  // Encoding

  // The four characters for the first k bytes of a 24-bit group
  function Group(b: nat, k: nat): (r: string)
    requires b < 0x100_0000 && 1 <= k <= 3
    ensures |r| == 4
  {
    [Symbol(b / 0x4_0000), Symbol(b / 0x1000 % 64),
     if k > 1 then Symbol(b / 64 % 64) else '=', if k > 2 then Symbol(b % 64) else '=']
  }

  function Bits24(d: seq<byte>): (b: nat)
    ensures b < 0x100_0000
  {
    (if |d| > 0 then d[0] as int * 0x1_0000 else 0) + (if |d| > 1 then d[1] as int * 0x100 else 0) + if |d| > 2 then d[2] else 0
  }

  function Encode(d: seq<byte>): string {
    if d == [] then "" else if |d| <= 3 then Group(Bits24(d), |d|) else Group(Bits24(d[..3]), 3) + Encode(d[3..])
  }

  lemma {:induction false} EncodedLength(d: seq<byte>)
    ensures |Encode(d)| == (|d| + 2) / 3 * 4
    decreases |d|
  {
    if |d| > 3 { EncodedLength(d[3..]); }
  }

  method Base64Encode(data: seq<byte>) returns (out: string)
    ensures out == Encode(data)
  {
    hide Encode;
    var n := |data|;
    out := "";
    var i := 0;
    EncodeNothing();
    assert data[0..] == data;
    while i < n
      invariant 0 <= i <= n && Encode(data) == out + Encode(data[i..])
    {
      var rem := n - i;
      ghost var group := data[i..if rem < 3 then n else i + 3];
      ghost var rest := data[i + |group|..];
      EncodeStep(data[i..]);
      assert data[i..][..|group|] == group && data[i..][|group|..] == rest;
      var b: nat := data[i] as int * 0x1_0000;
      i := i + 1;
      if i < n { b := b + data[i] as int * 0x100; i := i + 1; }
      if i < n { b := b + data[i]; i := i + 1; }
      assert b == Bits24(group);
      ghost var before := out;
      out := out + [Symbol(b / 0x4_0000)];
      out := out + [Symbol(b / 0x1000 % 64)];
      out := out + [if rem > 1 then Symbol(b / 64 % 64) else '='];
      out := out + [if rem > 2 then Symbol(b % 64) else '='];
      assert out == before + Group(b, |group|);
      assert data[i..] == rest;
    }
    assert data[i..] == [];
  }

  // Table 1 of RFC 4648
  function Table(): (r: string)
    ensures |r| == 64
  {
    "ABCDEFGHIJKLMNOPQRSTUVWXYZ" + "abcdefghijklmnopqrstuvwxyz" + "0123456789+/"
  }

  lemma OtherAt(v: nat)
    requires v < 12
    ensures "0123456789+/"[v] == Symbol(52 + v)
  {
  }

  lemma TableIs(v: nat)
    requires v < 64
    ensures Symbol(v) == Table()[v]
  {
    if v < 26 { LetterAt(v); } else if v < 52 { LetterAt(v - 26); } else { OtherAt(v - 52); }
  }

  // Three bytes are read as four numbers of six bits, most significant first; missing bits are 0 and missing characters
  // `=`; and the groups are encoded one after the other. This determines the encoding.
  lemma SixBits(a: byte, b: byte, c: byte, d: seq<byte>)
    ensures Encode([]) == ""
    ensures Encode([a]) == [Table()[a / 4], Table()[a % 4 * 16], '=', '=']
    ensures Encode([a, b]) == [Table()[a / 4], Table()[a % 4 * 16 + b / 16], Table()[b % 16 * 4], '=']
    ensures Encode([a, b, c] + d)
         == [Table()[a / 4], Table()[a % 4 * 16 + b / 16], Table()[b % 16 * 4 + c / 64], Table()[c % 64]] + Encode(d)
  {
    hide Symbol, Table;
    TableIs(a / 4);
    TableIs(a % 4 * 16);
    TableIs(a % 4 * 16 + b / 16);
    TableIs(b % 16 * 4);
    TableIs(b % 16 * 4 + c / 64);
    TableIs(c % 64);
    GroupNumbers(a, b, c);
    var x := [a, b, c] + d;
    EncodeStep(x);
    assert x[..3] == [a, b, c] && x[3..] == d;
    EncodeStep([a]);
    EncodeStep([a, b]);
    assert [a][..1] == [a] && [a][1..] == [] && [a, b][..2] == [a, b] && [a, b][2..] == [];
  }

  lemma SixBitParts(a1: nat, a0: nat, b1: nat, b0: nat, c1: nat, c0: nat)
    requires a1 < 64 && a0 < 4 && b1 < 16 && b0 < 16 && c1 < 4 && c0 < 64
    ensures var n := 0x1_0000 * (4 * a1 + a0) + 0x100 * (16 * b1 + b0) + (64 * c1 + c0);
            n / 0x4_0000 == a1 && n / 0x1000 % 64 == a0 * 16 + b1 && n / 64 % 64 == b0 * 4 + c1 && n % 64 == c0
  {
    var n := 0x1_0000 * (4 * a1 + a0) + 0x100 * (16 * b1 + b0) + (64 * c1 + c0);
    assert n == 64 * (4096 * a1 + 64 * (a0 * 16 + b1) + (b0 * 4 + c1)) + c0;
    assert n / 64 == 64 * (64 * a1 + (a0 * 16 + b1)) + (b0 * 4 + c1);
    assert n / 0x1000 == n / 64 / 64 == 64 * a1 + (a0 * 16 + b1);
    assert n / 0x4_0000 == n / 0x1000 / 64;
  }

  lemma GroupNumbers(a: byte, b: byte, c: byte)
    ensures var n := Bits24([a, b, c]);
            n / 0x4_0000 == a / 4 && n / 0x1000 % 64 == a % 4 * 16 + b / 16 && n / 64 % 64 == b % 16 * 4 + c / 64
            && n % 64 == c % 64
    ensures var n := Bits24([a, b]);
            n / 0x4_0000 == a / 4 && n / 0x1000 % 64 == a % 4 * 16 + b / 16 && n / 64 % 64 == b % 16 * 4
    ensures var n := Bits24([a]); n / 0x4_0000 == a / 4 && n / 0x1000 % 64 == a % 4 * 16
  {
    SixBitParts(a / 4, a % 4, b / 16, b % 16, c / 64, c % 64);
    SixBitParts(a / 4, a % 4, b / 16, b % 16, 0, 0);
    SixBitParts(a / 4, a % 4, 0, 0, 0, 0);
  }

  lemma EncodeNothing()
    ensures Encode([]) == ""
  {
  }

  lemma EncodeStep(d: seq<byte>)
    requires d != []
    ensures var k := if |d| < 3 then |d| else 3; Encode(d) == Group(Bits24(d[..k]), k) + Encode(d[k..])
  {
    hide Group;
    if |d| <= 3 {
      assert d[..|d|] == d && d[|d|..] == [];
      assert Group(Bits24(d), |d|) + "" == Group(Bits24(d), |d|);
    }
  }

  // ------------------------------------------------------------------------------------------
  // Decoding, strictly: only whole groups, padding only at the end, and no bits lost in the padding

  function Value24(g: string): nat
    requires |g| == 4
  {
    SymbolValue(g[0]) * 0x4_0000 + SymbolValue(g[1]) * 0x1000
    + (if g[2] == '=' then 0 else SymbolValue(g[2]) * 64) + if g[3] == '=' then 0 else SymbolValue(g[3])
  }

  function BytesIn(b: nat): (r: seq<byte>)
    requires b < 0x100_0000
    ensures |r| == 3
  {
    [b / 0x1_0000, b / 0x100 % 256, b % 256]
  }

  // The number of bytes in a group, or 0 when it is malformed
  function Kept(g: string): (k: nat)
    requires |g| == 4
    ensures k > 0 ==> k <= 3 && Value24(g) < 0x100_0000
  {
    if SymbolValue(g[0]) == 64 || SymbolValue(g[1]) == 64 then 0
    else if g[2] == '=' then if g[3] == '=' && SymbolValue(g[1]) % 16 == 0 then 1 else 0
    else if SymbolValue(g[2]) == 64 then 0
    else if g[3] == '=' then if SymbolValue(g[2]) % 4 == 0 then 2 else 0
    else if SymbolValue(g[3]) == 64 then 0 else 3
  }

  function Decode(s: string): Option<seq<byte>>
    decreases |s|
  {
    if s == "" then Some([])
    else if |s| < 4 then None
    else
      var k := Kept(s[..4]);
      if k == 0 || (k < 3 && |s| > 4) then None
      else
        match Decode(s[4..])
        case None => None
        case Some(rest) => Some(BytesIn(Value24(s[..4]))[..k] + rest)
  }

  lemma SextetsOf(b: nat)
    requires b < 0x100_0000
    ensures b == b / 0x4_0000 * 0x4_0000 + b / 0x1000 % 64 * 0x1000 + b / 64 % 64 * 64 + b % 64 && b / 0x4_0000 < 64
  {
    assert b / 64 / 64 == b / 0x1000 && b / 0x1000 / 64 == b / 0x4_0000;
  }

  lemma BytesOf(x: byte, y: byte, z: byte)
    ensures BytesIn(x * 0x1_0000 + y * 0x100 + z) == [x, y, z]
  {
  }

  lemma GroupReads(v0: nat, v1: nat, v2: nat, v3: nat, k: nat)
    requires v0 < 64 && v1 < 64 && v2 < 64 && v3 < 64 && 1 <= k <= 3
    requires (k == 1 ==> v1 % 16 == 0 && v2 == 0) && (k == 2 ==> v2 % 4 == 0) && (k < 3 ==> v3 == 0)
    ensures var g := [Symbol(v0), Symbol(v1), if k > 1 then Symbol(v2) else '=', if k > 2 then Symbol(v3) else '='];
            Kept(g) == k && Value24(g) == v0 * 0x4_0000 + v1 * 0x1000 + v2 * 64 + v3
  {
    SymbolRoundTrip(v0);
    SymbolRoundTrip(v1);
    SymbolRoundTrip(v2);
    SymbolRoundTrip(v3);
    hide Symbol, SymbolValue;
  }

  lemma GroupKept(d: seq<byte>)
    requires 1 <= |d| <= 3
    ensures var g := Group(Bits24(d), |d|); Kept(g) == |d| && Value24(g) == Bits24(d)
  {
    hide Kept, Value24, Symbol;
    var b := Bits24(d);
    SextetsOf(b);
    if |d| == 1 { LowZero(b, d[0]); }
    if |d| == 2 { LowByteZero(b, d[0] as int * 0x100 + d[1] as int); }
    GroupReads(b / 0x4_0000, b / 0x1000 % 64, b / 64 % 64, b % 64, |d|);
  }

  lemma LowZero(b: nat, x: nat)
    requires b == x * 0x1_0000
    ensures b / 0x1000 % 64 % 16 == 0 && b / 64 % 64 == 0 && b % 64 == 0
  {
    assert b / 0x1000 == x * 16 && b / 64 == x * 1024;
  }

  lemma LowByteZero(b: nat, x: nat)
    requires b == x * 0x100
    ensures b / 64 % 64 % 4 == 0 && b % 64 == 0
  {
    assert b / 64 == x * 4;
  }

  lemma GroupBytes(d: seq<byte>)
    requires 1 <= |d| <= 3
    ensures BytesIn(Bits24(d))[..|d|] == d
  {
    BytesOf(d[0], if |d| > 1 then d[1] else 0, if |d| > 2 then d[2] else 0);
  }

  // Decoding inverts encoding.
  lemma {:induction false} DecodeEncode(d: seq<byte>)
    ensures Decode(Encode(d)) == Some(d)
    decreases |d|
  {
    hide Group, Kept, Value24, Bits24, BytesIn;
    if d != [] {
      var k := if |d| < 3 then |d| else 3;
      var g := Group(Bits24(d[..k]), k);
      EncodeStep(d);
      DecodeEncode(d[k..]);
      GroupKept(d[..k]);
      GroupBytes(d[..k]);
      var s := g + Encode(d[k..]);
      assert s[..4] == g && s[4..] == Encode(d[k..]);
      assert k < 3 ==> Encode(d[k..]) == "";
      assert d == d[..k] + d[k..];
    }
  }

  lemma KeptGroup(g: string)
    requires |g| == 4 && Kept(g) > 0
    ensures Group(Value24(g), Kept(g)) == g
  {
    var v0, v1 := SymbolValue(g[0]), SymbolValue(g[1]);
    var v2, v3 := if g[2] == '=' then 0 else SymbolValue(g[2]), if g[3] == '=' then 0 else SymbolValue(g[3]);
    ValueRoundTrip(g[0]);
    ValueRoundTrip(g[1]);
    if g[2] != '=' { ValueRoundTrip(g[2]); }
    if g[3] != '=' { ValueRoundTrip(g[3]); }
    hide SymbolValue, Symbol;
    Sextets(v0, v1, v2, v3);
  }

  lemma Sextets(v0: nat, v1: nat, v2: nat, v3: nat)
    requires v0 < 64 && v1 < 64 && v2 < 64 && v3 < 64
    ensures var b := v0 * 0x4_0000 + v1 * 0x1000 + v2 * 64 + v3;
            b / 0x4_0000 == v0 && b / 0x1000 % 64 == v1 && b / 64 % 64 == v2 && b % 64 == v3
  {
    var b := v0 * 0x4_0000 + v1 * 0x1000 + v2 * 64 + v3;
    assert b / 64 == v0 * 0x1000 + v1 * 64 + v2;
    assert b / 0x1000 == v0 * 64 + v1;
  }

  lemma BitsOfBytes(b: nat)
    requires b < 0x100_0000
    ensures Bits24(BytesIn(b)) == b
    ensures b % 0x100 == 0 ==> Bits24(BytesIn(b)[..2]) == b
    ensures b % 0x1_0000 == 0 ==> Bits24(BytesIn(b)[..1]) == b
  {
    assert b / 0x100 / 0x100 == b / 0x1_0000;
    assert b == b / 0x1_0000 * 0x1_0000 + b / 0x100 % 256 * 0x100 + b % 256;
  }

  lemma Multiples(b: nat, x: nat)
    ensures b == x * 0x1_0000 ==> b % 0x1_0000 == 0
    ensures b == x * 0x100 ==> b % 0x100 == 0
  {
  }

  lemma KeptBits(g: string)
    requires |g| == 4 && Kept(g) > 0
    ensures Bits24(BytesIn(Value24(g))[..Kept(g)]) == Value24(g)
  {
    var b, k := Value24(g), Kept(g);
    assert |BytesIn(b)| == 3;
    hide SymbolValue, Bits24, BytesIn;
    if k == 1 {
      Multiples(b, SymbolValue(g[0]) * 4 + SymbolValue(g[1]) / 16);
    } else if k == 2 {
      Multiples(b, SymbolValue(g[0]) * 0x400 + SymbolValue(g[1]) * 16 + SymbolValue(g[2]) / 4);
    }
    BitsOfBytes(b);
    assert BytesIn(b)[..3] == BytesIn(b);
  }

  // Nothing else decodes: a text the decoder accepts is the encoding of what it decodes to.
  lemma {:induction false} EncodeDecode(s: string)
    requires Decode(s).Some?
    ensures Encode(Decode(s).value) == s
    decreases |s|
  {
    hide Group, Kept, Value24, Bits24, BytesIn;
    if s != "" {
      var g, k := s[..4], Kept(s[..4]);
      var d, rest := Decode(s).value, Decode(s[4..]).value;
      EncodeDecode(s[4..]);
      KeptGroup(g);
      KeptBits(g);
      var first := BytesIn(Value24(g))[..k];
      assert d == first + rest && d[..k] == first && d[k..] == rest;
      assert k < 3 ==> rest == [];
      EncodeStep(d);
      assert s == g + s[4..];
    }
  }

  // ------------------------------------------------------------------------------------------
  // The accept key

  function Ascii(s: string): seq<byte> { seq(|s|, i requires 0 <= i < |s| => s[i] as int % 256) }

  // Section 4.2.2 of RFC 6455, item 5.4
  function AcceptKey(clientKey: seq<byte>): string { Encode(Sha1.Sha1(clientKey + Ascii(GUID))) }

  // For every client key the computed key is the standard's, has 28 characters, and decodes to the SHA-1 digest.
  method ComputeAcceptKey(clientKey: seq<byte>) returns (key: string)
    ensures key == AcceptKey(clientKey) && |key| == 28
    ensures Decode(key) == Some(Sha1.Sha1(clientKey + Ascii("258EAFA5-E914-47DA-95CA-C5AB0DC85B11")))
  {
    hide Encode, Decode, Sha1.Sha1, Ascii;
    var magic := clientKey + Ascii(GUID);
    var sha := Sha1Raw(magic);
    key := Base64Encode(sha);
    EncodedLength(sha);
    DecodeEncode(sha);
  }
}
