/** PostgreSQL v3 messages: their framing, the server's replies, and the client's reader that takes them apart again. */
module PgWire {
  import opened Text
  import opened Bytes

  // ------------------------------------------------------------------------------------------
  // Numbers and strings

  // writeInt32BE and writeInt16BE: two's complement
  function Int32(v: int): (r: seq<byte>)
    ensures |r| == 4
  {
    BigEndian(v % 0x1_0000_0000, 4)
  }

  function Int16(v: int): (r: seq<byte>)
    ensures |r| == 2
  {
    BigEndian(v % 0x1_0000, 2)
  }

  // readInt32BE
  function Signed32(s: seq<byte>): int
    requires |s| == 4
  {
    var n := BigValue(s);
    if n < 0x8000_0000 then n else n - 0x1_0000_0000
  }

  function Signed16(s: seq<byte>): int
    requires |s| == 2
  {
    var n := BigValue(s);
    if n < 0x8000 then n else n - 0x1_0000
  }

  lemma Int32RoundTrip(v: int)
    ensures Signed32(Int32(v)) == v <==> 0 <= v + 0x8000_0000 && v < 0x8000_0000
  {
    SmallPowers();
    BigRoundTrip(v % 0x1_0000_0000, 4);
  }

  lemma Int16RoundTrip(v: int)
    ensures Signed16(Int16(v)) == v <==> 0 <= v + 0x8000 && v < 0x8000
  {
    SmallPowers();
    BigRoundTrip(v % 0x1_0000, 2);
  }

  predicate NulFree(s: seq<byte>) { forall i :: 0 <= i < |s| ==> s[i] != 0 }

  // appendCStr
  function CStr(s: seq<byte>): seq<byte> { s + [0] }

  // The bytes before the first NUL
  function UntilNul(s: seq<byte>): (r: seq<byte>) { Before(s, 0) }

  function ReadCStr(s: seq<byte>): Option<(seq<byte>, seq<byte>)> {
    var r := UntilNul(s);
    if |r| < |s| then Some((r, s[|r| + 1..])) else None
  }

  lemma CStrRoundTrip(s: seq<byte>, t: seq<byte>)
    requires NulFree(s)
    ensures ReadCStr(CStr(s) + t) == Some((s, t))
  {
    assert s + [0] + t == s + ([0] + t);
    FindPart(s, 0, [0] + t);
    assert (s + [0] + t)[|s| + 1..] == t;
  }

  // ------------------------------------------------------------------------------------------
  // Messages: a type byte, the length without it, and the payload

  datatype Msg = Msg(kind: byte, payload: seq<byte>)

  // The length is written in 32 bits.
  function MsgBytes(m: Msg): seq<byte> { [m.kind] + Int32(4 + |m.payload|) + m.payload }

  predicate Fits(m: Msg) { 4 + |m.payload| < 0x8000_0000 }

  function ParseMsg(s: seq<byte>): (r: Option<(Msg, seq<byte>)>)
    ensures r.Some? ==> |r.value.1| < |s|
  {
    if |s| < 5 then None
    else
      var n := Signed32(s[1..5]);
      if n < 4 || |s| < 1 + n then None else Some((Msg(s[0], s[5..1 + n]), s[1 + n..]))
  }

  // A message comes back, with exactly its own bytes used up, exactly when its length fits 31 bits.
  lemma MsgRoundTrip(m: Msg, t: seq<byte>)
    ensures ParseMsg(MsgBytes(m) + t) == Some((m, t)) <==> Fits(m)
  {
    var s := MsgBytes(m) + t;
    var n := 4 + |m.payload|;
    assert s == [m.kind] + (Int32(n) + (m.payload + t));
    assert s[1..] == Int32(n) + (m.payload + t);
    assert s[1..5] == Int32(n) && s[5..] == m.payload + t;
    Int32RoundTrip(n);
    hide Int32, Signed32;
    if Fits(m) {
      assert s[5..1 + n] == m.payload && s[1 + n..] == t;
    }
  }

  function Stream(ms: seq<Msg>): seq<byte> { if ms == [] then [] else MsgBytes(ms[0]) + Stream(ms[1..]) }

  function ParseStream(s: seq<byte>): Option<seq<Msg>>
    decreases |s|
  {
    if s == [] then Some([])
    else
      match ParseMsg(s)
      case None => None
      case Some((m, t)) => match ParseStream(t) case None => None case Some(ms) => Some([m] + ms)
  }

  // Any run of messages parses back to exactly that run.
  lemma {:induction false} StreamRoundTrip(ms: seq<Msg>)
    requires forall i :: 0 <= i < |ms| ==> Fits(ms[i])
    ensures ParseStream(Stream(ms)) == Some(ms)
  {
    if ms != [] {
      assert Stream(ms) != [];
      hide ParseMsg, MsgBytes;
      MsgRoundTrip(ms[0], Stream(ms[1..]));
      StreamRoundTrip(ms[1..]);
      assert ms == [ms[0]] + ms[1..];
    }
  }

  lemma {:induction false} StreamConcat(a: seq<Msg>, b: seq<Msg>)
    ensures Stream(a + b) == Stream(a) + Stream(b)
  {
    hide MsgBytes;
    if a == [] {
      assert a + b == b && [] + Stream(b) == Stream(b);
    } else {
      assert (a + b)[1..] == a[1..] + b;
      StreamConcat(a[1..], b);
      Regroup(MsgBytes(a[0]), Stream(a[1..]), Stream(b));
    }
  }

  // ------------------------------------------------------------------------------------------
  // The server's replies

  // A cell of a row: a value, or NULL
  type Cell = Option<seq<byte>>

  datatype Reply =
    | AuthOk
    | ParameterStatus(key: seq<byte>, value: seq<byte>)
    | BackendKeyData(pid: int, secret: int)
    | ReadyForQuery
    | RowDescription(columns: seq<seq<byte>>)
    | DataRow(cells: seq<Cell>)
    | CommandComplete(tag: seq<byte>)
    | ErrorResponse(message: seq<byte>)
    | EmptyQueryResponse
    | ParseComplete
    | BindComplete
    | NoData

  // No table, no attribute, type 25 (text) of variable length, no modifier, text format
  function ColumnTail(): (r: seq<byte>)
    ensures |r| == 18
  {
    [0, 0, 0, 0, 0, 0, 0, 0, 0, 25, 255, 255, 255, 255, 255, 255, 0, 0]
  }

  function Columns(names: seq<seq<byte>>): seq<byte> {
    if names == [] then [] else CStr(names[0]) + ColumnTail() + Columns(names[1..])
  }

  function CellBytes(c: Cell): seq<byte> { match c case None => Int32(-1) case Some(v) => Int32(|v|) + v }

  function Cells(cells: seq<Cell>): seq<byte> { if cells == [] then [] else CellBytes(cells[0]) + Cells(cells[1..]) }

  // 'S' "ERROR" 'C' "42000" 'M'
  const ERROR_HEAD: seq<byte> := [83, 69, 82, 82, 79, 82, 0, 67, 52, 50, 48, 48, 48, 0, 77]

  function Kind(r: Reply): byte {
    match r
    case AuthOk => 'R' as int
    case ParameterStatus(_, _) => 'S' as int
    case BackendKeyData(_, _) => 'K' as int
    case ReadyForQuery => 'Z' as int
    case RowDescription(_) => 'T' as int
    case DataRow(_) => 'D' as int
    case CommandComplete(_) => 'C' as int
    case ErrorResponse(_) => 'E' as int
    case EmptyQueryResponse => 'I' as int
    case ParseComplete => '1' as int
    case BindComplete => '2' as int
    case NoData => 'n' as int
  }

  function Payload(r: Reply): seq<byte> {
    match r
    case AuthOk => Int32(0)
    case ParameterStatus(key, value) => CStr(key) + CStr(value)
    case BackendKeyData(pid, secret) => Int32(pid) + Int32(secret)
    case ReadyForQuery => ['I' as int]
    case RowDescription(columns) => Int16(|columns|) + Columns(columns)
    case DataRow(cells) => Int16(|cells|) + Cells(cells)
    case CommandComplete(tag) => CStr(tag)
    case ErrorResponse(message) => ERROR_HEAD + CStr(message) + [0]
    case _ => []
  }

  function Encode(r: Reply): Msg { Msg(Kind(r), Payload(r)) }

  // ------------------------------------------------------------------------------------------
  // The client's reader

  function ReadColumns(s: seq<byte>, n: nat): Option<seq<seq<byte>>>
    decreases n
  {
    if n == 0 then if s == [] then Some([]) else None
    else
      match ReadCStr(s)
      case None => None
      case Some((name, t)) =>
        if |t| < 18 then None
        else match ReadColumns(t[18..], n - 1) case None => None case Some(names) => Some([name] + names)
  }

  function ReadCells(s: seq<byte>, n: nat): Option<seq<Cell>>
    decreases n
  {
    if n == 0 then if s == [] then Some([]) else None
    else if |s| < 4 then None
    else
      var len := Signed32(s[..4]);
      if len == -1 then
        match ReadCells(s[4..], n - 1) case None => None case Some(cells) => Some([None] + cells)
      else if len < 0 || |s| < 4 + len then None
      else
        match ReadCells(s[4 + len..], n - 1)
        case None => None
        case Some(cells) => Some([Some(s[4..4 + len])] + cells)
  }

  function Decode(m: Msg): Option<Reply> {
    var p := m.payload;
    if m.kind == 'R' as int then if p == Int32(0) then Some(AuthOk) else None
    else if m.kind == 'S' as int then
      match ReadCStr(p)
      case None => None
      case Some((key, t)) =>
        match ReadCStr(t) case None => None case Some((value, rest)) => Some(ParameterStatus(key, value))
    else if m.kind == 'K' as int then
      if |p| == 8 then Some(BackendKeyData(Signed32(p[..4]), Signed32(p[4..]))) else None
    else if m.kind == 'Z' as int then if p == ['I' as int] then Some(ReadyForQuery) else None
    else if m.kind == 'T' as int then
      if |p| < 2 || Signed16(p[..2]) < 0 then None
      else match ReadColumns(p[2..], Signed16(p[..2])) case None => None case Some(names) => Some(RowDescription(names))
    else if m.kind == 'D' as int then
      if |p| < 2 || Signed16(p[..2]) < 0 then None
      else match ReadCells(p[2..], Signed16(p[..2])) case None => None case Some(cells) => Some(DataRow(cells))
    else if m.kind == 'C' as int then
      match ReadCStr(p) case None => None case Some((tag, rest)) => Some(CommandComplete(tag))
    else if m.kind == 'E' as int then
      if ERROR_HEAD <= p then
        match ReadCStr(p[|ERROR_HEAD|..]) case None => None case Some((message, rest)) => Some(ErrorResponse(message))
      else None
    else if m.kind == 'I' as int then Some(EmptyQueryResponse)
    else if m.kind == '1' as int then Some(ParseComplete)
    else if m.kind == '2' as int then Some(BindComplete)
    else if m.kind == 'n' as int then Some(NoData)
    else None
  }

  predicate Small32(v: int) { 0 <= v + 0x8000_0000 && v < 0x8000_0000 }

  // Strings without NUL, at most 32767 columns, and numbers and values that 32 bits can count
  predicate Sendable(r: Reply) {
    match r
    case ParameterStatus(key, value) => NulFree(key) && NulFree(value)
    case BackendKeyData(pid, secret) => Small32(pid) && Small32(secret)
    case RowDescription(columns) => |columns| < 0x8000 && AllNulFree(columns)
    case DataRow(cells) => |cells| < 0x8000 && AllFit(cells)
    case CommandComplete(tag) => NulFree(tag)
    case ErrorResponse(message) => NulFree(message)
    case _ => true
  }

  lemma ReadColumn(name: seq<byte>, rest: seq<byte>, n: nat)
    requires NulFree(name)
    ensures ReadColumns(CStr(name) + ColumnTail() + rest, n + 1) ==
            match ReadColumns(rest, n) case None => None case Some(names) => Some([name] + names)
  {
    hide ReadCStr, CStr, ColumnTail;
    CStrRoundTrip(name, ColumnTail() + rest);
    assert CStr(name) + ColumnTail() + rest == CStr(name) + (ColumnTail() + rest);
    assert (ColumnTail() + rest)[18..] == rest;
  }

  predicate AllNulFree(names: seq<seq<byte>>) { forall i :: 0 <= i < |names| ==> NulFree(names[i]) }

  lemma {:induction false} ColumnsReadBack(names: seq<seq<byte>>)
    requires AllNulFree(names)
    ensures ReadColumns(Columns(names), |names|) == Some(names)
  {
    if names != [] {
      var tail, bytes := names[1..], Columns(names[1..]);
      assert NulFree(names[0]) && AllNulFree(tail);
      hide ReadColumns, Columns, CStr, NulFree, AllNulFree, ColumnTail;
      ColumnsReadBack(tail);
      ReadColumn(names[0], bytes, |tail|);
      ColumnsFirst(names);
      assert names == [names[0]] + tail;
    }
  }

  lemma ReadCell(c: Cell, rest: seq<byte>, n: nat)
    requires CellFits(c)
    ensures ReadCells(CellBytes(c) + rest, n + 1) ==
            match ReadCells(rest, n) case None => None case Some(cells) => Some([c] + cells)
  {
    hide Int32, Signed32;
    var s := CellBytes(c) + rest;
    if c.None? {
      Int32RoundTrip(-1);
      assert s[..4] == Int32(-1) && s[4..] == rest;
    } else {
      Int32RoundTrip(|c.value|);
      assert s == Int32(|c.value|) + (c.value + rest);
      assert s[..4] == Int32(|c.value|) && s[4..] == c.value + rest;
      assert s[4..4 + |c.value|] == c.value && s[4 + |c.value|..] == rest;
    }
  }

  predicate CellFits(c: Cell) { c.Some? ==> |c.value| < 0x8000_0000 }

  predicate AllFit(cells: seq<Cell>) { forall i :: 0 <= i < |cells| ==> CellFits(cells[i]) }

  // Values and NULLs of a row are recovered.
  lemma {:induction false} CellsReadBack(cells: seq<Cell>)
    requires AllFit(cells)
    ensures ReadCells(Cells(cells), |cells|) == Some(cells)
  {
    if cells != [] {
      var tail, bytes := cells[1..], Cells(cells[1..]);
      assert CellFits(cells[0]) && AllFit(tail);
      hide ReadCells, Cells, CellBytes, AllFit;
      CellsReadBack(tail);
      ReadCell(cells[0], bytes, |tail|);
      CellsFirst(cells);
      assert cells == [cells[0]] + tail;
    }
  }

  lemma CountedReadBack(n: nat, t: seq<byte>)
    requires n < 0x8000
    ensures var p := Int16(n) + t; Signed16(p[..2]) == n && p[2..] == t
  {
    Int16RoundTrip(n);
    assert (Int16(n) + t)[..2] == Int16(n);
  }

  // Every reply the server builds decodes to itself.
  lemma DecodeEncode(r: Reply)
    requires Sendable(r)
    ensures Decode(Encode(r)) == Some(r)
  {
    hide Int32, Int16, Signed32, Signed16, ReadCStr, ReadColumns, ReadCells, Columns, Cells, CStr;
    match r {
      case ParameterStatus(key, value) =>
        CStrRoundTrip(key, CStr(value));
        CStrRoundTrip(value, []);
        assert CStr(value) + [] == CStr(value);
      case BackendKeyData(pid, secret) =>
        Int32RoundTrip(pid);
        Int32RoundTrip(secret);
        var p := Int32(pid) + Int32(secret);
        assert p[..4] == Int32(pid) && p[4..] == Int32(secret);
      case RowDescription(columns) =>
        CountedReadBack(|columns|, Columns(columns));
        ColumnsReadBack(columns);
      case DataRow(cells) =>
        CountedReadBack(|cells|, Cells(cells));
        CellsReadBack(cells);
      case CommandComplete(tag) =>
        CStrRoundTrip(tag, []);
        assert CStr(tag) + [] == CStr(tag);
      case ErrorResponse(message) =>
        CStrRoundTrip(message, [0]);
        var p := ERROR_HEAD + CStr(message) + [0];
        assert p == ERROR_HEAD + (CStr(message) + [0]) && p[|ERROR_HEAD|..] == CStr(message) + [0];
      case _ =>
    }
  }

  lemma ReadCStrNulFree(s: seq<byte>)
    ensures ReadCStr(s).Some? ==> NulFree(ReadCStr(s).value.0)
  {
    hide Find;
  }

  lemma {:induction false} ReadColumnsSendable(s: seq<byte>, n: nat)
    ensures ReadColumns(s, n).Some? ==> |ReadColumns(s, n).value| == n && AllNulFree(ReadColumns(s, n).value)
    decreases n
  {
    hide ReadCStr, NulFree;
    if n > 0 && ReadCStr(s).Some? {
      var (name, t) := ReadCStr(s).value;
      ReadCStrNulFree(s);
      if |t| >= 18 { ReadColumnsSendable(t[18..], n - 1); }
    }
  }

  lemma SignedSmall(s: seq<byte>)
    ensures |s| == 4 ==> Small32(Signed32(s))
    ensures |s| == 2 ==> Signed16(s) < 0x8000
  {
    SmallPowers();
    BigBelow(s);
  }

  lemma {:induction false} BigBelow(s: seq<byte>)
    ensures BigValue(s) < Pow256(|s|)
    decreases |s|
  {
    if s != [] { BigBelow(s[..|s| - 1]); }
  }

  lemma {:induction false} ReadCellsSendable(s: seq<byte>, n: nat)
    ensures ReadCells(s, n).Some? ==> |ReadCells(s, n).value| == n && AllFit(ReadCells(s, n).value)
    decreases n
  {
    hide Signed32;
    if n > 0 && |s| >= 4 {
      var len := Signed32(s[..4]);
      SignedSmall(s[..4]);
      if len == -1 {
        ReadCellsSendable(s[4..], n - 1);
      } else if len >= 0 && |s| >= 4 + len {
        ReadCellsSendable(s[4 + len..], n - 1);
      }
    }
  }

  // Whatever the reader accepts is such a reply.
  lemma DecodeSendable(m: Msg)
    ensures Decode(m).Some? ==> Sendable(Decode(m).value)
  {
    hide Int32, Signed32, Signed16, ReadCStr, ReadColumns, ReadCells, NulFree, AllNulFree, AllFit;
    var p := m.payload;
    ReadCStrNulFree(p);
    if ReadCStr(p).Some? { ReadCStrNulFree(ReadCStr(p).value.1); }
    if ERROR_HEAD <= p { ReadCStrNulFree(p[|ERROR_HEAD|..]); }
    if |p| == 8 {
      SignedSmall(p[..4]);
      SignedSmall(p[4..]);
    }
    if |p| >= 2 && Signed16(p[..2]) >= 0 {
      SignedSmall(p[..2]);
      ReadColumnsSendable(p[2..], Signed16(p[..2]));
      ReadCellsSendable(p[2..], Signed16(p[..2]));
    }
  }

  // So exactly these replies decode to themselves.
  lemma DecodeEncodeIff(r: Reply)
    ensures Decode(Encode(r)) == Some(r) <==> Sendable(r)
  {
    hide Decode, Encode, Sendable;
    DecodeSendable(Encode(r));
    if Sendable(r) { DecodeEncode(r); }
  }

  // ------------------------------------------------------------------------------------------
  // The builders with loops

  // The text NULL is sent as NULL; the empty text is a value.
  function RowCells(values: seq<seq<byte>>): (r: seq<Cell>)
    ensures |r| == |values|
    ensures forall i :: 0 <= i < |values| ==> r[i] == if values[i] == NULL_TEXT then None else Some(values[i])
  {
    if values == [] then []
    else [if values[0] == NULL_TEXT then None else Some(values[0])] + RowCells(values[1..])
  }

  method MakeDataRow(values: seq<seq<byte>>) returns (msg: seq<byte>)
    ensures msg == MsgBytes(Encode(DataRow(RowCells(values))))
  {
    assert Cells([]) == [];
    hide Int32, Cells;
    var payload := Int16(|values|);
    ghost var head := payload;
    var cells := RowCells(values);
    assert cells[0..] == cells;
    for i := 0 to |values|
      invariant head + Cells(cells) == payload + Cells(cells[i..])
    {
      ghost var before := payload;
      assert cells[i..][1..] == cells[i + 1..];
      CellsFirst(cells[i..]);
      Regroup(payload, CellBytes(cells[i]), Cells(cells[i + 1..]));
      if values[i] == NULL_TEXT || values[i] == [] {
        if values[i] == NULL_TEXT {
          payload := payload + Int32(-1);
        } else {
          payload := payload + Int32(0);
          assert Int32(0) + [] == Int32(0);
        }
      } else {
        payload := payload + (Int32(|values[i]|) + values[i]);
      }
      assert payload == before + CellBytes(cells[i]);
    }
    assert payload + [] == payload;
    msg := ['D' as int] + Int32(4 + |payload|) + payload;
  }

  lemma CellsFirst(cells: seq<Cell>)
    requires cells != []
    ensures Cells(cells) == CellBytes(cells[0]) + Cells(cells[1..])
  {
  }

  method MakeRowDescription(colNames: seq<seq<byte>>) returns (msg: seq<byte>)
    ensures msg == MsgBytes(Encode(RowDescription(colNames)))
  {
    assert Columns([]) == [];
    hide Int32, Columns, CStr, ColumnTail;
    var payload := Int16(|colNames|);
    ghost var head := payload;
    TailBytes();
    assert colNames[0..] == colNames;
    for i := 0 to |colNames|
      invariant head + Columns(colNames) == payload + Columns(colNames[i..])
    {
      var tail := Int32(0) + Int16(0) + Int32(25) + Int16(-1) + Int32(-1) + Int16(0);
      ColumnsFirst(colNames[i..]);
      assert colNames[i..][1..] == colNames[i + 1..];
      Regroup(payload, CStr(colNames[i]) + tail, Columns(colNames[i + 1..]));
      payload := payload + (CStr(colNames[i]) + tail);
    }
    assert payload + [] == payload;
    msg := ['T' as int] + Int32(4 + |payload|) + payload;
  }

  lemma ColumnsFirst(names: seq<seq<byte>>)
    requires names != []
    ensures Columns(names) == CStr(names[0]) + ColumnTail() + Columns(names[1..])
  {
    hide CStr, ColumnTail;
  }

  lemma TailNumbers()
    ensures Int32(0) == [0, 0, 0, 0] && Int32(25) == [0, 0, 0, 25] && Int32(-1) == [255, 255, 255, 255]
    ensures Int16(0) == [0, 0] && Int16(-1) == [255, 255]
  {
    hide BigEndian;
    FourBigBytes(0);
    FourBigBytes(25);
    FourBigBytes(0xFFFF_FFFF);
    TwoBigBytes(0);
    TwoBigBytes(0xFFFF);
  }

  lemma TailBytes()
    ensures Int32(0) + Int16(0) + Int32(25) + Int16(-1) + Int32(-1) + Int16(0) == ColumnTail()
  {
    hide Int32, Int16;
    TailNumbers();
    var a: seq<byte>, b: seq<byte> := [0, 0, 0, 0] + [0, 0], [0, 0, 0, 25] + [255, 255];
    assert a == [0, 0, 0, 0, 0, 0] && b == [0, 0, 0, 25, 255, 255];
    assert a + [0, 0, 0, 25] + [255, 255] == a + b;
  }
}
