/** A socket that delivers and accepts bytes in chunks of any size. */
module Network {
  import opened Bytes

  class Socket {
    // every byte that still arrives before the connection ends
    var incoming: seq<byte>
    var sent: seq<byte>

    constructor (incoming: seq<byte>)
      ensures this.incoming == incoming && sent == []
    {
      this.incoming := incoming;
      sent := [];
    }

    // recv: between one and n of the next bytes, or none once the connection has ended
    method Recv(n: nat) returns (chunk: seq<byte>)
      requires n > 0
      modifies this`incoming
      ensures chunk + incoming == old(incoming) && |chunk| <= n
      ensures chunk == [] <==> old(incoming) == []
    {
      if incoming == [] { return []; }
      var r :| 1 <= r <= n && r <= |incoming|;
      chunk := incoming[..r];
      incoming := incoming[r..];
    }

    // recvAll, ws_recv_all: fills the buffer whatever the chunks, or fails having used up the stream
    method RecvAll(buf: array<byte>) returns (ok: bool)
      modifies this`incoming, buf
      ensures ok <==> buf.Length <= |old(incoming)|
      ensures ok ==> buf[..] + incoming == old(incoming)
      ensures !ok ==> incoming == []
    {
      var got := 0;
      while got < buf.Length
        invariant 0 <= got <= buf.Length
        invariant buf[..got] + incoming == old(incoming)
        decreases buf.Length - got
      {
        ghost var before := buf[..got];
        ghost var left := incoming;
        var chunk := Recv(buf.Length - got);
        if |chunk| == 0 { return false; }
        for j := 0 to |chunk|
          invariant buf[..got] == before && buf[got..got + j] == chunk[..j]
          invariant chunk + incoming == left
          modifies buf
        {
          buf[got + j] := chunk[j];
        }
        assert buf[..got + |chunk|] == before + chunk;
        assert before + chunk + incoming == before + left;
        got := got + |chunk|;
      }
      assert buf[..got] == buf[..];
      return true;
    }

    method Send(bytes: seq<byte>)
      modifies this`sent
      ensures sent == old(sent) + bytes
    {
      sent := sent + bytes;
    }

    // send: accepts between one and all of the bytes
    method SendSome(bytes: seq<byte>) returns (r: nat)
      requires bytes != []
      modifies this`sent
      ensures 1 <= r <= |bytes| && sent == old(sent) + bytes[..r]
    {
      r :| 1 <= r <= |bytes|;
      sent := sent + bytes[..r];
    }

    method SendAll(bytes: seq<byte>)
      modifies this`sent
      ensures sent == old(sent) + bytes
    {
      var done := 0;
      assert bytes[..0] == [];
      while done < |bytes|
        invariant done <= |bytes| && sent == old(sent) + bytes[..done]
      {
        var r := SendSome(bytes[done..]);
        assert bytes[..done] + bytes[done..][..r] == bytes[..done + r];
        done := done + r;
      }
      assert bytes[..done] == bytes;
    }
  }
}
