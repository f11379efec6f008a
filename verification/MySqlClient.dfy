/** What a client gets out of a result set, told of the columns and rows of the table alone. */
module MySqlClient {
  import opened Text
  import opened Bytes
  import opened MySqlWire

  // How many rows no transaction has deleted
  function Live(rows: seq<TableRow>): nat {
    if rows == [] then 0 else (if rows[0].xmax == 0 then 1 else 0) + Live(rows[1..])
  }

  // Cell k of a row: the row's value k, or NULL when there is none or it is the text NULL
  ghost predicate Shows(cells: seq<Cell>, n: nat, row: TableRow) {
    && |cells| == n
    && forall k :: 0 <= k < n ==>
         cells[k] == if k < |row.values| && row.values[k] != [78, 85, 76, 76] then Some(row.values[k]) else None
  }

  // The parts of a column definition: six strings, and 13 bytes that are always the same
  ghost predicate Describes(payload: seq<byte>, table: seq<byte>, name: seq<byte>) {
    ReadRow(payload, 6)
    == Some(([Some([100, 101, 102]), Some([]), Some(table), Some(table), Some(name), Some(name)],
             [0x0c, 33, 0, 0xF4, 1, 0, 0, 0xfd, 0, 0, 0, 0, 0]))
  }

  lemma {:induction false} LiveRank(rows: seq<TableRow>, j: nat)
    requires j < |rows| && rows[j].xmax == 0
    ensures |LiveRows(rows)| == Live(rows)
    ensures Live(rows[..j]) < Live(rows) && LiveRows(rows)[Live(rows[..j])] == rows[j]
    decreases |rows|
  {
    LiveCount(rows);
    if j > 0 {
      LiveRank(rows[1..], j - 1);
      assert rows[..j][1..] == rows[1..][..j - 1];
      LiveCount(rows[1..]);
    }
  }

  lemma {:induction false} LiveCount(rows: seq<TableRow>)
    ensures |LiveRows(rows)| == Live(rows)
  {
    if rows != [] { LiveCount(rows[1..]); }
  }

  // The packet of the j-th row of the table, if it is alive, says what the row says.
  lemma RowPacketSays(t: Table, name: seq<byte>, j: nat)
    requires j < |t.rows| && t.rows[j].xmax == 0
    requires AllShort(Payloads(t, name))
    ensures var at := |t.columns| + 2 + Live(t.rows[..j]);
            && at < |Payloads(t, name)|
            && var r := ReadRow(Payloads(t, name)[at], |t.columns|);
               r.Some? && r.value.1 == [] && Shows(r.value.0, |t.columns|, t.rows[j])
  {
    hide ReadRow, LiveRows, Live;
    LiveRank(t.rows, j);
    RowPacketDecodes(t, name, Live(t.rows[..j]));
  }

  lemma NameCells(table: seq<byte>, name: seq<byte>)
    ensures var cells: seq<Cell> :=
              [Some([100, 101, 102]), Some([]), Some(table), Some(table), Some(name), Some(name)];
            RowBytes(cells) == Les([100, 101, 102]) + Les([]) + Les(table) + Les(table) + Les(name) + Les(name)
  {
    hide Les, RowBytes;
    var a, b: seq<Cell> := [Some([100, 101, 102]), Some([]), Some(table)], [Some(table), Some(name), Some(name)];
    ThreeCells(a);
    ThreeCells(b);
    RowBytesConcat(a, b);
    assert a + b == [Some([100, 101, 102]), Some([]), Some(table), Some(table), Some(name), Some(name)];
    Three(Les([100, 101, 102]) + Les([]) + Les(table), Les(table), Les(name), Les(name));
  }

  lemma Three(x: seq<byte>, a: seq<byte>, b: seq<byte>, c: seq<byte>)
    ensures x + (a + b + c) == x + a + b + c
  {
  }

  lemma Seven(x: seq<byte>, a: seq<byte>, b: seq<byte>, c: seq<byte>, d: seq<byte>, e: seq<byte>, f: seq<byte>, g: seq<byte>)
    ensures x + a + b + c + d + e + f + g == x + (a + b + c + d + e + f + g)
  {
    Three(x, a, b, c);
    Three(x + (a + b + c), d, e, f);
    Three(a + b + c, d, e, f);
    Regroup(x, a + b + c, d + e + f);
    Regroup(x, a + b + c + d + e + f, g);
  }

  lemma DefinitionParts(table: seq<byte>, name: seq<byte>)
    ensures var cells: seq<Cell> :=
              [Some([100, 101, 102]), Some([]), Some(table), Some(table), Some(name), Some(name)];
            ColumnDefinition(table, name)
            == RowBytes(cells) + [0x0c, 33, 0, 0xF4, 1, 0, 0, 0xfd, 0, 0, 0, 0, 0]
  {
    hide Les, RowBytes, LittleEndian;
    NameCells(table, name);
    FixedFields();
    Seven(Les([100, 101, 102]) + Les([]) + Les(table) + Les(table) + Les(name) + Les(name), [0x0c],
          LittleEndian(33, 2), LittleEndian(500, 4), [0xfd], LittleEndian(0, 2), [0], LittleEndian(0, 2));
  }

  lemma FixedFields()
    ensures [0x0c] + LittleEndian(33, 2) + LittleEndian(500, 4) + [0xfd] + LittleEndian(0, 2) + [0] + LittleEndian(0, 2)
            == [0x0c, 33, 0, 0xF4, 1, 0, 0, 0xfd, 0, 0, 0, 0, 0]
  {
    assert LittleEndian(33, 2) == [33] + LittleEndian(0, 1);
    assert LittleEndian(500, 4) == [0xF4] + LittleEndian(1, 3);
    assert LittleEndian(1, 3) == [1] + LittleEndian(0, 2);
    assert LittleEndian(0, 2) == [0] + LittleEndian(0, 1);
  }

  lemma ThreeCells(c: seq<Cell>)
    requires |c| == 3
    ensures RowBytes(c) == CellBytes(c[0]) + CellBytes(c[1]) + CellBytes(c[2])
  {
    hide CellBytes;
    assert c[1..][0] == c[1] && c[1..][1..] == [c[2]];
    assert RowBytes([c[2]]) == CellBytes(c[2]) + RowBytes([]);
  }

  lemma {:induction false} RowBytesConcat(a: seq<Cell>, b: seq<Cell>)
    ensures RowBytes(a + b) == RowBytes(a) + RowBytes(b)
  {
    hide CellBytes;
    if a == [] {
      assert a + b == b;
    } else {
      assert (a + b)[1..] == a[1..] + b;
      RowBytesConcat(a[1..], b);
      Regroup(CellBytes(a[0]), RowBytes(a[1..]), RowBytes(b));
    }
  }

  lemma DefinitionSays(table: seq<byte>, name: seq<byte>)
    requires |ColumnDefinition(table, name)| < TOO_LONG
    ensures Describes(ColumnDefinition(table, name), table, name)
  {
    hide RowBytes, ReadRow, Les, LittleEndian, ColumnDefinition;
    DefinitionParts(table, name);
    var cells: seq<Cell> := [Some([100, 101, 102]), Some([]), Some(table), Some(table), Some(name), Some(name)];
    CellsFit(cells);
    RowRoundTrip(cells, [0x0c, 33, 0, 0xF4, 1, 0, 0, 0xfd, 0, 0, 0, 0, 0]);
  }

  // The packet of column k names the table and the column.
  lemma {:induction false} DefinitionAt(table: seq<byte>, columns: seq<seq<byte>>, k: nat)
    requires k < |columns|
    ensures Definitions(table, columns)[k] == ColumnDefinition(table, columns[k])
  {
    hide ColumnDefinition;
    if k > 0 { DefinitionAt(table, columns[1..], k - 1); }
  }

  lemma ColumnPacketSays(t: Table, name: seq<byte>, k: nat)
    requires k < |t.columns| && AllShort(Payloads(t, name))
    ensures Describes(Payloads(t, name)[1 + k], name, t.columns[k])
  {
    hide Definitions, ColumnDefinition, Describes, RowPayloads, Lei;
    DefinitionAt(name, t.columns, k);
    assert Payloads(t, name)[1 + k] == Definitions(name, t.columns)[k];
    DefinitionSays(name, t.columns[k]);
  }

  // The packets around the definitions and the rows: the column count in length-encoded form, and twice an end packet
  // without warnings, with the autocommit flag
  lemma CountAndEnds(t: Table, name: seq<byte>)
    requires |t.columns| < TOO_LONG
    ensures var n, p := |t.columns|, Payloads(t, name);
            && |p| == n + Live(t.rows) + 3 && ReadLei(p[0]) == Some((n, []))
            && p[n + 1] == [0xfe, 0, 0, 2, 0] && p[|p| - 1] == [0xfe, 0, 0, 2, 0]
  {
    hide LiveRows, Live, RowPayloads, Definitions, Lei, ReadLei;
    LiveCount(t.rows);
    LeiRoundTrip(|t.columns|, []);
    assert Lei(|t.columns|) + [] == Lei(|t.columns|);
  }

  // The client that reads a result set to its end, knowing only the format, gets the names of all columns in order, and of
  // every row that no transaction has deleted, in order, its values, with NULL for a missing value and the text NULL; it
  // gets nothing else, and stops exactly behind the last packet.
  lemma ClientGetsTable(t: Table, name: seq<byte>, id: byte, rest: seq<byte>)
    requires |t.columns| < TOO_LONG && AllShort(Payloads(t, name))
    ensures var r := ReadResult(Stream(Numbered(Payloads(t, name), id)) + rest);
            && r.Some?
            && var (definitions, rows, left) := r.value;
               && left == rest
               && |definitions| == |t.columns| && |rows| == Live(t.rows)
               && (forall k :: 0 <= k < |t.columns| ==> Describes(definitions[k], name, t.columns[k]))
               && (forall j :: 0 <= j < |t.rows| && t.rows[j].xmax == 0 ==> RowAt(rows, t, j))
  {
    hide ReadResult, Stream, Numbered, Definitions, RowPayloads, Describes, RowAt, LiveRows, Live, AllShort, Lei;
    ClientFindsEnd(t, name, id, rest);
    var definitions, rows := Definitions(name, t.columns), RowPayloads(LiveRows(t.rows), |t.columns|);
    LiveCount(t.rows);
    forall k: nat | k < |t.columns| ensures Describes(definitions[k], name, t.columns[k]) {
      ColumnPacketSays(t, name, k);
      assert Payloads(t, name)[1 + k] == definitions[k];
    }
    forall j: nat | j < |t.rows| && t.rows[j].xmax == 0 ensures RowAt(rows, t, j) { RowFound(t, name, j); }
  }

  // The row packets hold row j of the table at its place among the live rows.
  ghost predicate RowAt(rows: seq<seq<byte>>, t: Table, j: nat)
    requires j < |t.rows|
  {
    var at := Live(t.rows[..j]);
    && at < |rows|
    && var r := ReadRow(rows[at], |t.columns|);
       r.Some? && r.value.1 == [] && Shows(r.value.0, |t.columns|, t.rows[j])
  }

  lemma RowFound(t: Table, name: seq<byte>, j: nat)
    requires j < |t.rows| && t.rows[j].xmax == 0 && AllShort(Payloads(t, name))
    ensures RowAt(RowPayloads(LiveRows(t.rows), |t.columns|), t, j)
  {
    hide ReadRow, LiveRows, Live, Shows, RowPayloads, Definitions, Lei;
    RowPacketSays(t, name, j);
    LiveRank(t.rows, j);
    var at := Live(t.rows[..j]);
    assert Payloads(t, name)[|t.columns| + 2 + at] == RowPayloads(LiveRows(t.rows), |t.columns|)[at];
  }
}
