/** WebSocket frames (section 5 of RFC 6455) read from and written to a socket that delivers bytes in chunks of any size. */
module WebSocket {
  import opened Text
  import opened Bytes
  import opened Network

  // Payloads above this are refused.
  const LIMIT: nat := 65536

  const CLOSE: nat := 8
  const PING: nat := 9

  // A pong without payload
  const PONG: seq<byte> := [0x8A, 0x00]

  // ------------------------------------------------------------------------------------------
  // Frames as section 5.2 lays them out

  // key: empty, or the four bytes of the masking key
  datatype Frame = Frame(first: byte, key: seq<byte>, payload: seq<byte>)

  ghost predicate WellFormed(f: Frame) { (f.key == [] || |f.key| == 4) && |f.payload| < Pow256(8) }

  function XorBytes(a: byte, b: byte): byte {
    XorByte(a, b);
    Xor(a, b)
  }

  // Section 5.3: octet i is xored with octet i modulo 4 of the key.
  function Masked(p: seq<byte>, key: seq<byte>): (r: seq<byte>)
    ensures |r| == |p|
  {
    if |key| != 4 then p else seq(|p|, i requires 0 <= i < |p| => XorBytes(p[i], key[i % 4]))
  }

  function LengthBytes(n: nat, masked: bool): (r: seq<byte>)
    ensures r != []
  {
    var bit := if masked then 128 else 0;
    if n < 126 then [bit + n] else if n < 0x1_0000 then [bit + 126] + BigEndian(n, 2) else [bit + 127] + BigEndian(n, 8)
  }

  function Wire(f: Frame): seq<byte> {
    [f.first] + LengthBytes(|f.payload|, f.key != []) + f.key + Masked(f.payload, f.key)
  }

  // ------------------------------------------------------------------------------------------
  // What reading one message gives: its payload, the bytes left, and the pongs answered on the way. A failure, a close
  // frame and an oversized frame all give the empty payload.

  datatype Reading = Reading(payload: seq<byte>, rest: seq<byte>, pongs: nat)

  const CUT := Reading([], [], 0)

  // second: the second header byte; s: what follows it
  function LengthField(second: byte, s: seq<byte>): (r: Option<(nat, seq<byte>)>)
    ensures r.Some? ==> |r.value.1| <= |s|
  {
    var n := second % 128;
    var k := if n == 126 then 2 else if n == 127 then 8 else 0;
    if |s| < k then None else Some((if k == 0 then n else BigValue(s[..k]), s[k..]))
  }

  // The payload and what follows it, or where reading stops
  datatype Part = Got(payload: seq<byte>, rest: seq<byte>) | Stop(rest: seq<byte>)

  function Body(masked: bool, len: nat, t: seq<byte>): (r: Part)
    ensures |r.rest| <= |t|
  {
    if masked && |t| < 4 then Stop([])
    else
      var key, u := if masked then t[..4] else [], if masked then t[4..] else t;
      if len > LIMIT then Stop(u)
      else if |u| < len then Stop([])
      else Got(Masked(u[..len], key), u[len..])
  }

  function Read(s: seq<byte>): Reading
    decreases |s|
  {
    if |s| < 2 then CUT
    else
      match LengthField(s[1], s[2..])
      case None => CUT
      case Some((len, t)) =>
        if s[0] % 16 == CLOSE then Reading([], t, 0)
        else
          match Body(s[1] >= 128, len, t)
          case Stop(rest) => Reading([], rest, 0)
          case Got(payload, rest) =>
            if s[0] % 16 == PING then var next := Read(rest); next.(pongs := next.pongs + 1)
            else Reading(payload, rest, 0)
  }

  function Pongs(n: nat): seq<byte> { if n == 0 then [] else PONG + Pongs(n - 1) }

  // ------------------------------------------------------------------------------------------
  // The code

  method SendFrame(sock: Socket, payload: seq<byte>)
    modifies sock`sent
    ensures sock.sent == old(sock.sent) + Wire(Frame(0x81, [], payload))
  {
    var frame: seq<byte> := [0x81];
    var len := |payload|;
    if len < 126 {
      frame := frame + [len];
    } else if len < 65536 {
      frame := frame + [126];
      frame := frame + [len / 256];
      frame := frame + [len % 256];
      assert BigEndian(len, 2) == [len / 256, len % 256];
    } else {
      frame := frame + [127];
      var i := 7;
      assert BigEndian(Shifted(len, 8), 0) == [];
      while i >= 0
        invariant -1 <= i <= 7
        invariant frame == [0x81, 127] + BigEndian(Shifted(len, i + 1), 7 - i)
      {
        frame := frame + [Shifted(len, i) % 256];
        assert Shifted(len, i) / 256 == Shifted(len, i + 1) by { ShiftedStep(len, i); }
        i := i - 1;
      }
    }
    assert frame == [0x81] + LengthBytes(len, false);
    frame := frame + payload;
    assert frame == Wire(Frame(0x81, [], payload));
    sock.Send(frame);
  }

  method ReadFrame(sock: Socket) returns (text: seq<byte>)
    modifies sock
    ensures var r := Read(old(sock.incoming));
            text == r.payload && sock.incoming == r.rest && sock.sent == old(sock.sent) + Pongs(r.pongs)
    decreases |sock.incoming|
  {
    hide LengthField, Body, Masked;
    ghost var s := sock.incoming;
    var header := new byte[2];
    var ok := sock.RecvAll(header);
    if !ok { return []; }
    assert s[0] == header[0] && s[1] == header[1] && s[2..] == sock.incoming;
    var opcode := header[0] % 16;
    var masked := header[1] >= 128;
    var payloadLen;
    ok, payloadLen := ReadLength(sock, header[1]);
    if !ok { return []; }
    if opcode == CLOSE { return []; }
    var payload;
    ok, payload := ReadPayload(sock, masked, payloadLen);
    if !ok { return []; }
    if opcode == PING {
      sock.Send(PONG);
      text := ReadFrame(sock);
      return text;
    }
    return payload;
  }

  // The masking key and the payload, unmasked in place
  method ReadPayload(sock: Socket, masked: bool, payloadLen: nat) returns (ok: bool, text: seq<byte>)
    modifies sock`incoming
    ensures Body(masked, payloadLen, old(sock.incoming)) == if ok then Got(text, sock.incoming) else Stop(sock.incoming)
  {
    ghost var t := sock.incoming;
    var maskKey := new byte[4](_ => 0);
    if masked {
      ok := sock.RecvAll(maskKey);
      if !ok { return false, []; }
      assert t[..4] == maskKey[..] && t[4..] == sock.incoming;
    }
    if payloadLen > 65536 { return false, []; }
    ghost var u := sock.incoming;
    var payload := new byte[payloadLen];
    if payloadLen > 0 {
      ok := sock.RecvAll(payload);
      if !ok { return false, []; }
      assert u[..payloadLen] == payload[..] && u[payloadLen..] == sock.incoming;
      if masked { Unmask(payload, maskKey); }
    }
    return true, payload[..];
  }

  // The 7-bit length, or the 2 or 8 bytes that extend it
  method ReadLength(sock: Socket, second: byte) returns (ok: bool, len: nat)
    modifies sock`incoming
    ensures var f := LengthField(second, old(sock.incoming));
            ok == f.Some? && (ok ==> f.value == (len, sock.incoming)) && (!ok ==> sock.incoming == [])
  {
    len := second % 128;
    if len == 126 {
      var ext := new byte[2];
      ok := sock.RecvAll(ext);
      if !ok { return false, 0; }
      assert old(sock.incoming)[..2] == ext[..] && old(sock.incoming)[2..] == sock.incoming;
      len := ext[0] as int * 256 + ext[1] as int;
      assert BigValue([ext[0]]) == ext[0] as int;
      assert BigValue(ext[..]) == 256 * BigValue(ext[..][..1]) + ext[1] as int;
      assert ext[..][..1] == [ext[0]] && [ext[0]][..0] == [];
      assert len == BigValue(ext[..]);
    } else if len == 127 {
      var ext := new byte[8];
      ok := sock.RecvAll(ext);
      if !ok { return false, 0; }
      assert old(sock.incoming)[..8] == ext[..] && old(sock.incoming)[8..] == sock.incoming;
      len := 0;
      for i := 0 to 8
        invariant len == BigValue(ext[..i])
      {
        assert ext[..i + 1][..i] == ext[..i];
        len := len * 256 + ext[i];
      }
      assert ext[..8] == ext[..];
    }
    return true, len;
  }

  // The payload is xored in place with the key repeated.
  method Unmask(payload: array<byte>, maskKey: array<byte>)
    requires maskKey.Length == 4 && payload != maskKey
    modifies payload
    ensures payload[..] == Masked(old(payload[..]), maskKey[..])
  {
    for i := 0 to payload.Length
      invariant forall j :: 0 <= j < i ==> payload[j] == XorBytes(old(payload[j]), maskKey[j % 4])
      invariant forall j :: i <= j < payload.Length ==> payload[j] == old(payload[j])
    {
      payload[i] := XorBytes(payload[i], maskKey[i % 4]);
    }
  }

  // ------------------------------------------------------------------------------------------
  // Reading what was written

  lemma UnmaskMasked(p: seq<byte>, key: seq<byte>)
    ensures Masked(Masked(p, key), key) == p
  {
    forall i | 0 <= i < |p| ensures Masked(Masked(p, key), key)[i] == p[i] {
      if |key| == 4 {
        var k := key[i % 4];
        XorAssoc(p[i], k, k);
        XorSelf(k);
        XorZero(p[i]);
      }
    }
  }

  lemma LengthRoundTrip(n: nat, masked: bool, t: seq<byte>)
    requires n < Pow256(8)
    ensures var w := LengthBytes(n, masked);
            LengthField(w[0], w[1..] + t) == Some((n, t)) && (w[0] >= 128 <==> masked)
  {
    SmallPowers();
    var w := LengthBytes(n, masked);
    var k := |w| - 1;
    assert (w[1..] + t)[..k] == w[1..] && (w[1..] + t)[k..] == t;
    if 126 <= n < 0x1_0000 {
      BigRoundTrip(n, 2);
      assert w[1..] == BigEndian(n, 2);
    } else if n >= 0x1_0000 {
      BigRoundTrip(n, 8);
      assert w[1..] == BigEndian(n, 8);
    }
  }

  lemma BodyRoundTrip(key: seq<byte>, p: seq<byte>, t: seq<byte>)
    requires key == [] || |key| == 4
    ensures Body(key != [], |p|, key + Masked(p, key) + t) ==
            if |p| <= LIMIT then Got(p, t) else Stop(Masked(p, key) + t)
  {
    var m := Masked(p, key);
    UnmaskMasked(p, key);
    hide Masked;
    assert key + m + t == key + (m + t);
    assert (key + (m + t))[|key|..] == m + t && (key + (m + t))[..|key|] == key;
    assert (m + t)[..|p|] == m && (m + t)[|p|..] == t;
  }

  // What reading makes of one well-formed frame and whatever follows it. A close frame stops after its length field, an
  // oversized one after its header, so the bytes behind them are read as the next frame.
  lemma ReadWire(f: Frame, t: seq<byte>)
    requires WellFormed(f)
    ensures Read(Wire(f) + t) ==
            if f.first % 16 == CLOSE then Reading([], f.key + Masked(f.payload, f.key) + t, 0)
            else if |f.payload| > LIMIT then Reading([], Masked(f.payload, f.key) + t, 0)
            else if f.first % 16 == PING then Read(t).(pongs := Read(t).pongs + 1)
            else Reading(f.payload, t, 0)
  {
    hide LengthField, Body, Masked, LengthBytes;
    var w := LengthBytes(|f.payload|, f.key != []);
    var u := f.key + Masked(f.payload, f.key) + t;
    var s := Wire(f) + t;
    assert s == [f.first] + w + u;
    assert s[0] == f.first && s[1] == w[0] && s[2..] == w[1..] + u;
    LengthRoundTrip(|f.payload|, f.key != [], u);
    BodyRoundTrip(f.key, f.payload, t);
  }

  // A nonempty payload comes back, with exactly its frame's bytes used up, exactly when it has at most 65536 bytes.
  lemma SentComesBack(p: seq<byte>, t: seq<byte>)
    requires 0 < |p| < Pow256(8)
    ensures Read(Wire(Frame(0x81, [], p)) + t) == Reading(p, t, 0) <==> |p| <= 65_536
  {
    hide Wire, Read, Masked;
    ReadWire(Frame(0x81, [], p), t);
  }

  // ------------------------------------------------------------------------------------------
  // Pongs

  // Section 5.5.3: a pong carries the application data of the ping it answers.
  function ConformingPong(ping: Frame): seq<byte> { Wire(Frame(0x8A, [], ping.payload)) }

  // The code's pong conforms exactly when the ping was empty.
  lemma PongConforms(ping: Frame)
    ensures PONG == ConformingPong(ping) <==> ping.payload == []
  {
    var w := LengthBytes(|ping.payload|, false);
    assert ConformingPong(ping) == [0x8A as byte] + w + ping.payload;
    assert |ConformingPong(ping)| == 1 + |w| + |ping.payload|;
    if ping.payload == [] { assert w == [0]; }
  }

  // A ping with one byte of data, sent by a client, and the reply it gets
  lemma PongLosesData(t: seq<byte>)
    ensures var ping := Frame(0x89, [1, 2, 3, 4], [7]);
            Read(Wire(ping) + t).pongs == Read(t).pongs + 1 && PONG != ConformingPong(ping)
  {
    hide Wire, Read, Masked, ConformingPong;
    var ping := Frame(0x89, [1, 2, 3, 4], [7]);
    SmallPowers();
    ReadWire(ping, t);
    PongConforms(ping);
  }

  // ------------------------------------------------------------------------------------------
  // Streams

  function Wires(fs: seq<Frame>): seq<byte> {
    if fs == [] then [] else Wire(fs[0]) + Wires(fs[1..])
  }

  predicate IsPing(f: Frame) { f.first % 16 == PING }

  // Any frame but a close, within the limit
  ghost predicate Readable(f: Frame) { WellFormed(f) && |f.payload| <= LIMIT && f.first % 16 != CLOSE }

  // Any number of pings before a message is transparent, except for one pong each.
  lemma {:induction false} PingsTransparent(pings: seq<Frame>, s: seq<byte>)
    requires forall i :: 0 <= i < |pings| ==> Readable(pings[i]) && IsPing(pings[i])
    ensures Read(Wires(pings) + s) == Read(s).(pongs := Read(s).pongs + |pings|)
    decreases |pings|
  {
    hide Wire, Read;
    if pings == [] {
      assert Wires(pings) + s == s;
    } else {
      PingsTransparent(pings[1..], s);
      ReadWire(pings[0], Wires(pings[1..]) + s);
      assert Wires(pings) + s == Wire(pings[0]) + (Wires(pings[1..]) + s);
    }
  }

  // The payloads of n calls in a row, what is left after them, and the pongs answered
  function ReadMany(s: seq<byte>, n: nat): (seq<seq<byte>>, seq<byte>, nat)
    decreases n
  {
    if n == 0 then ([], s, 0)
    else
      var r := Read(s);
      var (texts, rest, pongs) := ReadMany(r.rest, n - 1);
      ([r.payload] + texts, rest, r.pongs + pongs)
  }

  function Messages(fs: seq<Frame>): seq<seq<byte>> {
    if fs == [] then [] else (if IsPing(fs[0]) then [] else [fs[0].payload]) + Messages(fs[1..])
  }

  lemma PingFirst(f: Frame, rest: seq<byte>, n: nat)
    requires Readable(f) && IsPing(f) && n > 0
    ensures var (texts, left, pongs) := ReadMany(rest, n); ReadMany(Wire(f) + rest, n) == (texts, left, pongs + 1)
  {
    hide Wire, Read;
    ReadWire(f, rest);
  }

  lemma MessageFirst(f: Frame, rest: seq<byte>, n: nat)
    requires Readable(f) && !IsPing(f)
    ensures var (texts, left, pongs) := ReadMany(rest, n);
            ReadMany(Wire(f) + rest, n + 1) == ([f.payload] + texts, left, pongs)
  {
    hide Wire, Read;
    ReadWire(f, rest);
  }

  lemma NothingToRead(t: seq<byte>)
    ensures ReadMany(t, 0) == ([], t, 0)
  {
  }

  // A stream of frames that ends with a message gives back its messages in order, uses up exactly its own bytes and
  // answers every ping, wherever pings stand and however each frame is masked.
  lemma {:induction false} StreamReadsBack(fs: seq<Frame>, t: seq<byte>)
    requires forall i :: 0 <= i < |fs| ==> Readable(fs[i])
    requires fs != [] ==> !IsPing(fs[|fs| - 1])
    ensures ReadMany(Wires(fs) + t, |Messages(fs)|) == (Messages(fs), t, |fs| - |Messages(fs)|)
    decreases |fs|
  {
    hide Wire, Read, ReadMany, Readable, IsPing;
    if fs == [] {
      assert Wires(fs) + t == t;
      NothingToRead(t);
    } else {
      var rest := Wires(fs[1..]) + t;
      StreamReadsBack(fs[1..], t);
      assert Wires(fs) + t == Wire(fs[0]) + rest;
      if IsPing(fs[0]) {
        EndsInMessage(fs[1..]);
        assert Messages(fs) == Messages(fs[1..]);
        PingFirst(fs[0], rest, |Messages(fs[1..])|);
      } else {
        MessageFirst(fs[0], rest, |Messages(fs[1..])|);
      }
    }
  }

  lemma {:induction false} EndsInMessage(fs: seq<Frame>)
    requires fs != [] && !IsPing(fs[|fs| - 1])
    ensures Messages(fs) != []
    decreases |fs|
  {
    if |fs| > 1 { EndsInMessage(fs[1..]); }
  }
}
