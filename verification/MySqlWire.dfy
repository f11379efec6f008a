/** MySQL packets and result sets: length-encoded values, packets under any chunking, and sequence ids. */
module MySqlWire {
  import opened Text
  import opened Bytes
  import opened Network

  // A payload this long or longer does not fit the length field.
  const TOO_LONG: nat := 0x100_0000

  const NULL_BYTE: byte := 0xfb

  // ------------------------------------------------------------------------------------------
  // Length-encoded integers and strings

  function Lei(v: nat): (r: seq<byte>)
    ensures r != [] && r[0] != NULL_BYTE
  {
    if v < 251 then [v] else if v < 0x1_0000 then [0xfc] + LittleEndian(v, 2) else [0xfd] + LittleEndian(v, 3)
  }

  function Les(s: seq<byte>): seq<byte> { Lei(|s|) + s }

  // The client's reader: 0xfc, 0xfd and 0xfe announce 2, 3 and 8 bytes.
  function ReadLei(s: seq<byte>): Option<(nat, seq<byte>)> {
    if s == [] then None
    else if s[0] < 251 then Some((s[0], s[1..]))
    else
      var k := if s[0] == 0xfc then 2 else if s[0] == 0xfd then 3 else 8;
      if s[0] == 0xfb || s[0] == 0xff || |s| < 1 + k then None
      else Some((LittleValue(s[1..1 + k]), s[1 + k..]))
  }

  function ReadLes(s: seq<byte>): Option<(seq<byte>, seq<byte>)> {
    match ReadLei(s)
    case None => None
    case Some((n, t)) => if |t| < n then None else Some((t[..n], t[n..]))
  }

  lemma LeiRoundTrip(v: nat, t: seq<byte>)
    requires v < TOO_LONG
    ensures ReadLei(Lei(v) + t) == Some((v, t))
  {
    SmallPowers();
    var s := Lei(v) + t;
    if 251 <= v < 0x1_0000 {
      LittleRoundTrip(v, 2);
      assert s[1..3] == LittleEndian(v, 2) && s[3..] == t;
    } else if v >= 0x1_0000 {
      LittleRoundTrip(v, 3);
      assert s[1..4] == LittleEndian(v, 3) && s[4..] == t;
    } else {
      assert s[1..] == t;
    }
  }

  lemma {:induction false} LittleBelow(n: nat, k: nat)
    ensures LittleValue(LittleEndian(n, k)) < Pow256(k)
  {
    if k > 0 {
      LittleBelow(n / 256, k - 1);
      assert LittleEndian(n, k)[1..] == LittleEndian(n / 256, k - 1);
    }
  }

  // A string comes back exactly when it is shorter than 2^24 bytes.
  lemma LesRoundTrip(s: seq<byte>, t: seq<byte>)
    ensures ReadLes(Les(s) + t) == Some((s, t)) <==> |s| < TOO_LONG
  {
    assert Les(s) + t == Lei(|s|) + (s + t);
    if |s| < TOO_LONG {
      LeiRoundTrip(|s|, s + t);
      assert (s + t)[..|s|] == s && (s + t)[|s|..] == t;
    } else {
      SmallPowers();
      LittleBelow(|s|, 3);
      assert (Les(s) + t)[1..4] == LittleEndian(|s|, 3);
    }
  }

  // ------------------------------------------------------------------------------------------
  // Rows

  // What a cell says: a value, or NULL
  type Cell = Option<seq<byte>>

  function CellBytes(c: Cell): seq<byte> { match c case None => [NULL_BYTE] case Some(v) => Les(v) }

  function RowBytes(cells: seq<Cell>): seq<byte> {
    if cells == [] then [] else CellBytes(cells[0]) + RowBytes(cells[1..])
  }

  // The client's reader of n cells
  function ReadRow(s: seq<byte>, n: nat): Option<(seq<Cell>, seq<byte>)>
    decreases n
  {
    if n == 0 then Some(([], s))
    else
      var first: Option<(Cell, seq<byte>)> := if s != [] && s[0] == NULL_BYTE then Some((None, s[1..])) else
        match ReadLes(s) case None => None case Some((v, t)) => Some((Some(v), t));
      match first
      case None => None
      case Some((cell, t)) =>
        match ReadRow(t, n - 1) case None => None case Some((cells, rest)) => Some(([cell] + cells, rest))
  }

  predicate CellFits(c: Cell) { c.Some? ==> |c.value| < TOO_LONG }

  predicate AllFit(cells: seq<Cell>) { forall i :: 0 <= i < |cells| ==> CellFits(cells[i]) }

  lemma ReadCell(c: Cell, u: seq<byte>, n: nat)
    requires CellFits(c)
    ensures ReadRow(CellBytes(c) + u, n + 1) ==
            match ReadRow(u, n) case None => None case Some((cells, rest)) => Some(([c] + cells, rest))
  {
    if c.None? {
      assert ([NULL_BYTE] + u)[1..] == u;
    } else {
      assert Les(c.value) != [] && Les(c.value)[0] != NULL_BYTE;
      hide ReadLes, Les;
      LesRoundTrip(c.value, u);
      assert (Les(c.value) + u)[0] == Les(c.value)[0];
    }
  }

  // A row packet decodes to its list of values and NULLs.
  lemma {:induction false} RowRoundTrip(cells: seq<Cell>, t: seq<byte>)
    requires AllFit(cells)
    ensures ReadRow(RowBytes(cells) + t, |cells|) == Some((cells, t))
    decreases |cells|
  {
    if cells == [] {
      assert RowBytes(cells) + t == t;
    } else {
      var tail, u := cells[1..], RowBytes(cells[1..]) + t;
      assert CellFits(cells[0]) && AllFit(tail);
      RowStep(cells);
      hide ReadRow, RowBytes, CellBytes, AllFit;
      RowRoundTrip(tail, t);
      ReadCell(cells[0], u, |tail|);
      Regroup(CellBytes(cells[0]), RowBytes(tail), t);
      assert cells == [cells[0]] + tail;
    }
  }

  // Two rows of the same number of cells with the same bytes are the same row.
  lemma RowsUnique(a: seq<Cell>, b: seq<Cell>)
    requires |a| == |b| && RowBytes(a) == RowBytes(b) && AllFit(a) && AllFit(b)
    ensures a == b
  {
    RowRoundTrip(a, []);
    RowRoundTrip(b, []);
  }

  // ------------------------------------------------------------------------------------------
  // Packets

  datatype Packet = Packet(id: byte, payload: seq<byte>)

  // The reader's answer to every failure
  const NO_PACKET := Packet(255, [])

  function PacketBytes(p: Packet): seq<byte> { LittleEndian(|p.payload|, 3) + [p.id] + p.payload }

  // The packet and the bytes left. A packet cut short uses up the stream.
  function ReadBytes(s: seq<byte>): (Packet, seq<byte>) {
    if |s| < 4 then (NO_PACKET, [])
    else
      var n := LittleValue(s[..3]);
      if |s| < 4 + n then (NO_PACKET, []) else (Packet(s[3], s[4..4 + n]), s[4 + n..])
  }

  method ReadPacket(sock: Socket) returns (p: Packet)
    modifies sock`incoming
    ensures (p, sock.incoming) == ReadBytes(old(sock.incoming))
  {
    ghost var s := sock.incoming;
    var header := new byte[4];
    var ok := sock.RecvAll(header);
    if !ok { return NO_PACKET; }
    var len := header[0] as int + header[1] as int * 0x100 + header[2] as int * 0x1_0000;
    assert s == header[..] + sock.incoming;
    ThreeBytes(s);
    assert len == LittleValue(s[..3]);
    var id := header[3];
    var payload := new byte[len];
    if len > 0 {
      ok := sock.RecvAll(payload);
      if !ok { return NO_PACKET; }
    }
    assert s == header[..] + (payload[..] + sock.incoming);
    assert s[4..4 + len] == payload[..] && s[4 + len..] == sock.incoming;
    return Packet(id, payload[..]);
  }

  lemma ThreeBytes(s: seq<byte>)
    requires |s| >= 3
    ensures LittleValue(s[..3]) == s[0] as int + s[1] as int * 0x100 + s[2] as int * 0x1_0000
    ensures LittleValue(s[..3]) < TOO_LONG
  {
    var t := s[..3];
    assert LittleValue(t) == t[0] as int + 256 * LittleValue(t[1..]);
    assert LittleValue(t[1..]) == t[1] as int + 256 * LittleValue(t[2..]) by { assert t[1..][1..] == t[2..]; }
    assert LittleValue(t[2..]) == t[2] as int by { assert t[2..][1..] == []; }
  }

  method SendPacket(sock: Socket, id: byte, payload: seq<byte>)
    modifies sock`sent
    ensures sock.sent == old(sock.sent) + PacketBytes(Packet(id, payload))
  {
    var len := |payload|;
    var frame: seq<byte> := [];
    frame := frame + [len % 256];
    frame := frame + [len / 0x100 % 256];
    frame := frame + [len / 0x1_0000 % 256];
    assert frame == LittleEndian(len, 3) by {
      assert len / 256 / 256 == len / 0x1_0000;
      assert LittleEndian(len, 3) == [len % 256] + LittleEndian(len / 256, 2);
      assert LittleEndian(len / 256, 2) == [len / 256 % 256] + LittleEndian(len / 256 / 256, 1);
      assert LittleEndian(len / 256 / 256, 1) == [len / 256 / 256 % 256];
    }
    frame := frame + [id];
    frame := frame + payload;
    sock.SendAll(frame);
  }

  // Reading what was sent gives the packet back, and uses up exactly its bytes, exactly when the payload is shorter than
  // 2^24 bytes.
  lemma PacketRoundTrip(p: Packet, t: seq<byte>)
    ensures ReadBytes(PacketBytes(p) + t) == (p, t) <==> |p.payload| < TOO_LONG
  {
    var s := PacketBytes(p) + t;
    var n := |p.payload|;
    assert s == LittleEndian(n, 3) + ([p.id] + p.payload + t);
    assert s[..3] == LittleEndian(n, 3) && s[3] == p.id;
    SmallPowers();
    if n < TOO_LONG {
      LittleRoundTrip(n, 3);
      assert s[4..4 + n] == p.payload && s[4 + n..] == t;
    } else {
      LittleBelow(n, 3);
    }
  }

  function Stream(ps: seq<Packet>): seq<byte> { if ps == [] then [] else PacketBytes(ps[0]) + Stream(ps[1..]) }

  function ReadMany(s: seq<byte>, n: nat): (seq<Packet>, seq<byte>)
    decreases n
  {
    if n == 0 then ([], s)
    else
      var (p, t) := ReadBytes(s);
      var (ps, rest) := ReadMany(t, n - 1);
      ([p] + ps, rest)
  }

  lemma {:induction false} StreamReadsBack(ps: seq<Packet>, t: seq<byte>)
    requires forall i :: 0 <= i < |ps| ==> |ps[i].payload| < TOO_LONG
    ensures ReadMany(Stream(ps) + t, |ps|) == (ps, t)
    decreases |ps|
  {
    hide ReadBytes, PacketBytes;
    if ps == [] {
      assert Stream(ps) + t == t;
    } else {
      assert Stream(ps) + t == PacketBytes(ps[0]) + (Stream(ps[1..]) + t);
      PacketRoundTrip(ps[0], Stream(ps[1..]) + t);
      StreamReadsBack(ps[1..], t);
      assert ps == [ps[0]] + ps[1..];
    }
  }

  // ------------------------------------------------------------------------------------------
  // Result sets

  // xmax: the transaction that deleted the row, or 0
  datatype TableRow = TableRow(values: seq<seq<byte>>, xmax: nat)

  datatype Table = Table(columns: seq<seq<byte>>, rows: seq<TableRow>)

  // A missing value and the text NULL are sent as NULL.
  function CellOf(row: TableRow, ci: nat): Cell {
    if ci < |row.values| && row.values[ci] != NULL_TEXT then Some(row.values[ci]) else None
  }

  function Cells(row: TableRow, n: nat): (r: seq<Cell>)
    ensures |r| == n
  {
    seq(n, ci requires 0 <= ci < n => CellOf(row, ci))
  }

  function ColumnDefinition(table: seq<byte>, name: seq<byte>): seq<byte> {
    Les([100, 101, 102]) + Les([]) + Les(table) + Les(table) + Les(name) + Les(name) + [0x0c] + LittleEndian(33, 2)
    + LittleEndian(500, 4) + [0xfd] + LittleEndian(0, 2) + [0] + LittleEndian(0, 2)
  }

  const EOF: seq<byte> := [0xfe, 0, 0, 2, 0]

  function Definitions(table: seq<byte>, columns: seq<seq<byte>>): (r: seq<seq<byte>>)
    ensures |r| == |columns|
  {
    if columns == [] then [] else [ColumnDefinition(table, columns[0])] + Definitions(table, columns[1..])
  }

  function LiveRows(rows: seq<TableRow>): seq<TableRow> {
    if rows == [] then [] else (if rows[0].xmax != 0 then [] else [rows[0]]) + LiveRows(rows[1..])
  }

  function RowPayloads(rows: seq<TableRow>, n: nat): (r: seq<seq<byte>>)
    ensures |r| == |rows| && forall i :: 0 <= i < |rows| ==> r[i] == RowBytes(Cells(rows[i], n))
  {
    if rows == [] then [] else [RowBytes(Cells(rows[0], n))] + RowPayloads(rows[1..], n)
  }

  // The payloads of a result set: column count, columns, end, live rows, end
  function Payloads(t: Table, name: seq<byte>): seq<seq<byte>> {
    [Lei(|t.columns|)] + Definitions(name, t.columns) + [EOF] + RowPayloads(LiveRows(t.rows), |t.columns|) + [EOF]
  }

  // Consecutive sequence ids modulo 256
  function Numbered(payloads: seq<seq<byte>>, id: byte): (r: seq<Packet>)
    ensures |r| == |payloads|
    ensures forall i :: 0 <= i < |payloads| ==> r[i] == Packet((id as int + i) % 256, payloads[i])
  {
    seq(|payloads|, i requires 0 <= i < |payloads| => Packet((id as int + i) % 256, payloads[i]))
  }

  lemma NumberedNext(payloads: seq<seq<byte>>, payload: seq<byte>, id: byte)
    ensures Numbered(payloads + [payload], id) == Numbered(payloads, id) + [Packet((id as int + |payloads|) % 256, payload)]
  {
  }

  lemma {:induction false} StreamNext(ps: seq<Packet>, p: Packet)
    ensures Stream(ps + [p]) == Stream(ps) + PacketBytes(p)
  {
    hide PacketBytes;
    if ps == [] {
      assert [] + [p] == [p] && Stream([p]) == PacketBytes(p) + Stream([]);
      assert PacketBytes(p) + [] == PacketBytes(p) == [] + PacketBytes(p);
    } else {
      assert (ps + [p])[1..] == ps[1..] + [p];
      StreamNext(ps[1..], p);
    }
  }

  // Everything sent so far is the stream of `payloads` numbered from `first`, and the next id follows.
  ghost predicate Sent(sock: Socket, before: seq<byte>, payloads: seq<seq<byte>>, first: byte, id: byte)
    reads sock
  {
    sock.sent == before + Stream(Numbered(payloads, first)) && id as int == (first as int + |payloads|) % 256
  }

  // sendPacket(sock, seq++, pkt)
  method SendNext(sock: Socket, id: byte, payload: seq<byte>, ghost before: seq<byte>, ghost payloads: seq<seq<byte>>,
                  ghost first: byte)
    returns (next: byte)
    requires Sent(sock, before, payloads, first, id)
    modifies sock`sent
    ensures Sent(sock, before, payloads + [payload], first, next)
  {
    hide Stream, Numbered, PacketBytes;
    SendPacket(sock, id, payload);
    next := (id as int + 1) % 256;
    NumberedNext(payloads, payload, first);
    StreamNext(Numbered(payloads, first), Packet(id, payload));
    NextId(first, |payloads|, id);
  }

  lemma NextId(first: byte, n: nat, id: byte)
    requires id as int == (first as int + n) % 256
    ensures (id as int + 1) % 256 == (first as int + (n + 1)) % 256
  {
  }

  lemma LiveStep(rows: seq<TableRow>, n: nat)
    requires rows != []
    ensures RowPayloads(LiveRows(rows), n) ==
            (if rows[0].xmax != 0 then [] else [RowBytes(Cells(rows[0], n))]) + RowPayloads(LiveRows(rows[1..]), n)
  {
    hide RowBytes, Cells;
    if rows[0].xmax == 0 {
      assert LiveRows(rows)[1..] == LiveRows(rows[1..]);
    } else {
      assert LiveRows(rows) == LiveRows(rows[1..]);
    }
  }

  method SendResultSet(sock: Socket, id: byte, result: Table, tblName: seq<byte>) returns (next: byte)
    modifies sock`sent
    ensures var payloads := Payloads(result, tblName);
            sock.sent == old(sock.sent) + Stream(Numbered(payloads, id)) && next as int == (id as int + |payloads|) % 256
  {
    hide Stream, Numbered, ColumnDefinition, RowBytes, Cells, Lei, RowPayloads, Definitions;
    ghost var before, done := sock.sent, [];
    var numCols := |result.columns|;
    NothingSent(id);
    assert Sent(sock, before, done, id, id);
    next := SendNext(sock, id, Lei(numCols), before, done, id);
    done := done + [Lei(numCols)];
    next, done := SendColumns(sock, next, result.columns, tblName, before, done, id);
    next := SendNext(sock, next, EOF, before, done, id);
    done := done + [EOF];
    next, done := SendRows(sock, next, result.rows, numCols, before, done, id);
    next := SendNext(sock, next, EOF, before, done, id);
    done := done + [EOF];
    assert done == Payloads(result, tblName) by {
      assert [] + [Lei(numCols)] == [Lei(numCols)];
    }
  }

  lemma NothingSent(id: byte)
    ensures Stream(Numbered([], id)) == [] && (id as int + 0) % 256 == id as int
  {
  }

  method SendColumns(sock: Socket, id: byte, columns: seq<seq<byte>>, tblName: seq<byte>, ghost before: seq<byte>,
                     ghost payloads: seq<seq<byte>>, ghost first: byte)
    returns (next: byte, ghost done: seq<seq<byte>>)
    requires Sent(sock, before, payloads, first, id)
    modifies sock`sent
    ensures done == payloads + Definitions(tblName, columns) && Sent(sock, before, done, first, next)
  {
    hide Sent, ColumnDefinition;
    next, done := id, payloads;
    assert columns[0..] == columns;
    for i := 0 to |columns|
      invariant payloads + Definitions(tblName, columns) == done + Definitions(tblName, columns[i..])
      invariant Sent(sock, before, done, first, next)
    {
      assert columns[i..][1..] == columns[i + 1..];
      var pkt := ColumnPacket(tblName, columns[i]);
      next := SendNext(sock, next, pkt, before, done, first);
      done := done + [pkt];
    }
    assert done + [] == done;
  }

  method ColumnPacket(tblName: seq<byte>, name: seq<byte>) returns (pkt: seq<byte>)
    ensures pkt == ColumnDefinition(tblName, name)
  {
    hide Les;
    pkt := Les([100, 101, 102]);
    pkt := pkt + Les([]);
    pkt := pkt + Les(tblName);
    pkt := pkt + Les(tblName);
    pkt := pkt + Les(name);
    pkt := pkt + Les(name);
    pkt := pkt + [0x0c];
    pkt := pkt + LittleEndian(33, 2);
    pkt := pkt + LittleEndian(500, 4);
    pkt := pkt + [0xfd];
    pkt := pkt + LittleEndian(0, 2);
    pkt := pkt + [0];
    pkt := pkt + LittleEndian(0, 2);
  }

  method SendRows(sock: Socket, id: byte, rows: seq<TableRow>, numCols: nat, ghost before: seq<byte>,
                  ghost payloads: seq<seq<byte>>, ghost first: byte)
    returns (next: byte, ghost done: seq<seq<byte>>)
    requires Sent(sock, before, payloads, first, id)
    modifies sock`sent
    ensures done == payloads + RowPayloads(LiveRows(rows), numCols) && Sent(sock, before, done, first, next)
  {
    assert RowPayloads(LiveRows([]), numCols) == [];
    hide Sent, RowBytes, Cells, RowPayloads, LiveRows;
    next, done := id, payloads;
    assert rows[0..] == rows;
    for i := 0 to |rows|
      invariant payloads + RowPayloads(LiveRows(rows), numCols) == done + RowPayloads(LiveRows(rows[i..]), numCols)
      invariant Sent(sock, before, done, first, next)
    {
      assert rows[i..][1..] == rows[i + 1..];
      LiveStep(rows[i..], numCols);
      ghost var rest := RowPayloads(LiveRows(rows[i + 1..]), numCols);
      if rows[i].xmax != 0 {
        assert [] + rest == rest;
      } else {
        var pkt := RowPacket(rows[i], numCols);
        Regroup(done, [pkt], rest);
        next := SendNext(sock, next, pkt, before, done, first);
        done := done + [pkt];
      }
    }
    assert done + [] == done;
  }

  lemma RowStep(cells: seq<Cell>)
    requires cells != []
    ensures RowBytes(cells) == CellBytes(cells[0]) + RowBytes(cells[1..])
  {
  }

  method RowPacket(row: TableRow, numCols: nat) returns (pkt: seq<byte>)
    ensures pkt == RowBytes(Cells(row, numCols))
  {
    assert RowBytes([]) == [];
    hide RowBytes, Les;
    pkt := [];
    var cells := Cells(row, numCols);
    assert cells[0..] == cells;
    for ci := 0 to numCols
      invariant RowBytes(cells) == pkt + RowBytes(cells[ci..])
    {
      assert cells[ci..][1..] == cells[ci + 1..] && cells[ci] == CellOf(row, ci);
      RowStep(cells[ci..]);
      Regroup(pkt, CellBytes(cells[ci]), RowBytes(cells[ci + 1..]));
      if ci < |row.values| && row.values[ci] != NULL_TEXT {
        pkt := pkt + Les(row.values[ci]);
      } else {
        pkt := pkt + [NULL_BYTE];
      }
    }
  }

  // The client that reads as many packets as the result set has finds them in order with consecutive ids: the columns,
  // then one packet for each live row, which decodes to that row's cells. Their number is columns + live rows + 3.
  lemma ResultSetReadsBack(t: Table, name: seq<byte>, id: byte, rest: seq<byte>)
    requires forall i :: 0 <= i < |Payloads(t, name)| ==> |Payloads(t, name)[i]| < TOO_LONG
    ensures var n := |t.columns| + |LiveRows(t.rows)| + 3;
            && |Payloads(t, name)| == n
            && ReadMany(Stream(Numbered(Payloads(t, name), id)) + rest, n) == (Numbered(Payloads(t, name), id), rest)
  {
    hide Definitions, RowPayloads, Stream, ReadMany, Lei;
    StreamReadsBack(Numbered(Payloads(t, name), id), rest);
  }

  lemma RowPacketDecodes(t: Table, name: seq<byte>, i: nat)
    requires i < |LiveRows(t.rows)|
    requires |Payloads(t, name)[|t.columns| + 2 + i]| < TOO_LONG
    ensures var cells := Cells(LiveRows(t.rows)[i], |t.columns|);
            ReadRow(Payloads(t, name)[|t.columns| + 2 + i], |t.columns|) == Some((cells, []))
  {
    var n := |t.columns|;
    var cells := Cells(LiveRows(t.rows)[i], n);
    assert Payloads(t, name)[n + 2 + i] == RowPayloads(LiveRows(t.rows), n)[i] == RowBytes(cells);
    CellsFit(cells);
    RowRoundTrip(cells, []);
    assert RowBytes(cells) + [] == RowBytes(cells);
  }

  lemma {:induction false} CellsFit(cells: seq<Cell>)
    requires |RowBytes(cells)| < TOO_LONG
    ensures AllFit(cells)
  {
    if cells != [] {
      CellsFit(cells[1..]);
      assert cells == [cells[0]] + cells[1..];
    }
  }

  // ------------------------------------------------------------------------------------------
  // A client that finds the end by itself

  // An end packet starts with 0xfe.
  predicate Ends(payload: seq<byte>) { payload != [] && payload[0] == 0xfe }

  // The payloads up to the first end packet, and what follows it
  function ReadToEnd(s: seq<byte>): (seq<seq<byte>>, seq<byte>)
    decreases |s|
  {
    if |s| < 4 then ([], s)
    else
      var (p, t) := ReadBytes(s);
      if Ends(p.payload) then ([], t) else var (payloads, rest) := ReadToEnd(t); ([p.payload] + payloads, rest)
  }

  function PayloadsOf(ps: seq<Packet>): (r: seq<seq<byte>>)
    ensures |r| == |ps| && forall i :: 0 <= i < |ps| ==> r[i] == ps[i].payload
  {
    if ps == [] then [] else [ps[0].payload] + PayloadsOf(ps[1..])
  }

  // The column count, that many definitions, an end packet, and rows up to the next end packet
  function ReadResult(s: seq<byte>): Option<(seq<seq<byte>>, seq<seq<byte>>, seq<byte>)> {
    var (count, t) := ReadBytes(s);
    match ReadLei(count.payload)
    case None => None
    case Some((n, _)) =>
      var (definitions, u) := ReadMany(t, n);
      var (end, v) := ReadBytes(u);
      var (rows, rest) := ReadToEnd(v);
      if Ends(end.payload) then Some((PayloadsOf(definitions), rows, rest)) else None
  }

  // No row packet looks like an end packet: a length never starts with 0xfe.
  lemma RowIsNoEnd(cells: seq<Cell>)
    ensures !Ends(RowBytes(cells))
  {
    if cells != [] {
      var first := CellBytes(cells[0]);
      assert first != [] && first[0] != 0xfe;
      assert RowBytes(cells)[0] == first[0];
    }
  }

  lemma {:induction false} RowsToEnd(ps: seq<Packet>, end: Packet, rest: seq<byte>)
    requires forall i :: 0 <= i < |ps| ==> |ps[i].payload| < TOO_LONG && !Ends(ps[i].payload)
    requires |end.payload| < TOO_LONG && Ends(end.payload)
    ensures ReadToEnd(Stream(ps) + PacketBytes(end) + rest) == (PayloadsOf(ps), rest)
    decreases |ps|
  {
    hide ReadBytes, PacketBytes, Ends;
    if ps == [] {
      LongEnough(end);
      PacketRoundTrip(end, rest);
      assert Stream(ps) + PacketBytes(end) + rest == PacketBytes(end) + rest;
    } else {
      var later := Stream(ps[1..]) + PacketBytes(end) + rest;
      LongEnough(ps[0]);
      PacketRoundTrip(ps[0], later);
      RowsToEnd(ps[1..], end, rest);
      assert Stream(ps) + PacketBytes(end) + rest == PacketBytes(ps[0]) + later;
    }
  }

  lemma LongEnough(p: Packet)
    ensures |PacketBytes(p)| >= 4
  {
  }

  lemma {:induction false} StreamConcat(a: seq<Packet>, b: seq<Packet>)
    ensures Stream(a + b) == Stream(a) + Stream(b)
  {
    hide PacketBytes;
    if a == [] {
      assert a + b == b && [] + Stream(b) == Stream(b);
    } else {
      assert (a + b)[1..] == a[1..] + b;
      StreamConcat(a[1..], b);
      Regroup(PacketBytes(a[0]), Stream(a[1..]), Stream(b));
    }
  }

  // The pieces of a result set as packets
  lemma ResultPieces(count: Packet, defs: seq<Packet>, mid: Packet, rows: seq<Packet>, end: Packet, rest: seq<byte>)
    requires |count.payload| < TOO_LONG && ReadLei(count.payload).Some? && ReadLei(count.payload).value.0 == |defs|
    requires forall i :: 0 <= i < |defs| ==> |defs[i].payload| < TOO_LONG
    requires |mid.payload| < TOO_LONG && Ends(mid.payload)
    requires forall i :: 0 <= i < |rows| ==> |rows[i].payload| < TOO_LONG && !Ends(rows[i].payload)
    requires |end.payload| < TOO_LONG && Ends(end.payload)
    ensures ReadResult(Stream([count] + defs + [mid] + rows + [end]) + rest)
            == Some((PayloadsOf(defs), PayloadsOf(rows), rest))
  {
    hide ReadBytes, PacketBytes, Stream, ReadLei, ReadMany, ReadToEnd, Ends;
    var v := Stream(rows) + PacketBytes(end) + rest;
    var u := PacketBytes(mid) + v;
    var t := Stream(defs) + u;
    PiecesInOrder(count, defs, mid, rows, end, rest);
    PacketRoundTrip(count, t);
    StreamReadsBack(defs, u);
    PacketRoundTrip(mid, v);
    RowsToEnd(rows, end, rest);
  }

  lemma PiecesInOrder(count: Packet, defs: seq<Packet>, mid: Packet, rows: seq<Packet>, end: Packet, rest: seq<byte>)
    ensures Stream([count] + defs + [mid] + rows + [end]) + rest
            == PacketBytes(count) + (Stream(defs) + (PacketBytes(mid) + (Stream(rows) + PacketBytes(end) + rest)))
  {
    hide PacketBytes;
    StreamConcat([count] + defs + [mid] + rows, [end]);
    StreamConcat([count] + defs + [mid], rows);
    StreamConcat([count] + defs, [mid]);
    StreamConcat([count], defs);
    StreamOne(count);
    StreamOne(mid);
    StreamOne(end);
    hide Stream;
  }

  lemma StreamOne(p: Packet)
    ensures Stream([p]) == PacketBytes(p)
  {
    hide PacketBytes;
    assert Stream([p]) == PacketBytes(p) + Stream([]);
  }

  lemma NumberedConcat(a: seq<seq<byte>>, b: seq<seq<byte>>, id: byte)
    ensures Numbered(a + b, id) == Numbered(a, id) + Numbered(b, (id as int + |a|) % 256)
  {
    var next := (id as int + |a|) % 256;
    forall i | 0 <= i < |b| ensures Numbered(a + b, id)[|a| + i] == Numbered(b, next)[i] { IdAfter(id, |a|, i); }
  }

  lemma IdAfter(id: byte, n: nat, i: nat)
    ensures ((id as int + n) % 256 + i) % 256 == (id as int + (n + i)) % 256
  {
  }

  lemma PayloadsOfNumbered(a: seq<seq<byte>>, id: byte)
    ensures PayloadsOf(Numbered(a, id)) == a
  {
  }

  predicate AllShort(payloads: seq<seq<byte>>) { forall i :: 0 <= i < |payloads| ==> |payloads[i]| < TOO_LONG }

  lemma ShortParts(a: seq<seq<byte>>, b: seq<seq<byte>>)
    requires AllShort(a + b)
    ensures AllShort(a) && AllShort(b)
  {
    assert forall i :: 0 <= i < |a| ==> a[i] == (a + b)[i];
    assert forall i :: 0 <= i < |b| ==> b[i] == (a + b)[|a| + i];
  }

  // A result set of given definitions and rows, numbered from id
  lemma ClientReads(n: seq<byte>, defs: seq<seq<byte>>, rows: seq<seq<byte>>, id: byte, rest: seq<byte>)
    requires AllShort([n] + defs + [EOF] + rows + [EOF])
    requires ReadLei(n).Some? && ReadLei(n).value.0 == |defs|
    requires forall i :: 0 <= i < |rows| ==> !Ends(rows[i])
    ensures ReadResult(Stream(Numbered([n] + defs + [EOF] + rows + [EOF], id)) + rest) == Some((defs, rows, rest))
  {
    hide ReadResult, Stream, ReadLei;
    ShortParts([n] + defs + [EOF] + rows, [EOF]);
    ShortParts([n] + defs + [EOF], rows);
    ShortParts([n] + defs, [EOF]);
    ShortParts([n], defs);
    assert |n| < TOO_LONG by { assert [n][0] == n; }
    var i1, i2 := (id as int + 1) % 256, (id as int + |[n] + defs|) % 256;
    var i3, i4 := (id as int + |[n] + defs + [EOF]|) % 256, (id as int + |[n] + defs + [EOF] + rows|) % 256;
    NumberedConcat([n] + defs + [EOF] + rows, [EOF], id);
    NumberedConcat([n] + defs + [EOF], rows, id);
    NumberedConcat([n] + defs, [EOF], id);
    NumberedConcat([n], defs, id);
    PayloadsOfNumbered(defs, i1);
    PayloadsOfNumbered(rows, i3);
    NumberedOne(n, id);
    NumberedOne(EOF, i2);
    NumberedOne(EOF, i4);
    ResultPieces(Packet(id, n), Numbered(defs, i1), Packet(i2, EOF), Numbered(rows, i3), Packet(i4, EOF), rest);
  }

  lemma NumberedOne(payload: seq<byte>, id: byte)
    ensures Numbered([payload], id) == [Packet(id, payload)]
  {
  }

  // A client that is told nothing reads a result set to its end: it finds every column definition and the packet of
  // every live row, and stops exactly behind the last end packet.
  lemma ClientFindsEnd(t: Table, name: seq<byte>, id: byte, rest: seq<byte>)
    requires |t.columns| < TOO_LONG && AllShort(Payloads(t, name))
    ensures ReadResult(Stream(Numbered(Payloads(t, name), id)) + rest)
            == Some((Definitions(name, t.columns), RowPayloads(LiveRows(t.rows), |t.columns|), rest))
  {
    var n, live := |t.columns|, LiveRows(t.rows);
    forall i | 0 <= i < |live| ensures !Ends(RowPayloads(live, n)[i]) { RowIsNoEnd(Cells(live[i], n)); }
    LeiRoundTrip(n, []);
    assert Lei(n) + [] == Lei(n);
    hide Lei, ReadLei, Definitions, RowPayloads, Stream, ReadResult, Numbered, AllShort;
    ClientReads(Lei(n), Definitions(name, t.columns), RowPayloads(live, n), id, rest);
  }
}
