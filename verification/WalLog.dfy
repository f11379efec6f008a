/** The log as transactions write it, and what the scan makes of it when a crash has cut it at any line. */
module WalLog {
  import opened Text
  import opened Decimal
  import opened Bytes
  import opened Fields
  import opened WalCrc
  import opened WalScan
  import opened WalOps

  // ------------------------------------------------------------------------------------------
  // A serial log

  // A commit line may be followed by its time stamp and by its CRC line.
  datatype Ending = Committed(crc: bool, stamped: Option<nat>) | RolledBack | Unfinished

  datatype Tx = Tx(id: nat, stamp: Option<nat>, ops: seq<Op>, ending: Ending)

  function CommitLine(id: nat): string { "TX_COMMIT:" + Print(id) }

  function StampText(stamp: Option<nat>): seq<string> { if stamp.Some? then ["TS:" + Print(stamp.value)] else [] }

  function StampLines(t: Tx): seq<string> { StampText(t.stamp) }

  predicate Checked(t: Tx) { t.ending.Committed? && t.ending.crc }

  predicate Unchecked(t: Tx) { t.ending.Committed? && !t.ending.crc }

  predicate AllPrintable(ops: seq<Op>) { forall i :: 0 <= i < |ops| ==> Printable(ops[i]) }

  function OpsLines(ops: seq<Op>): seq<string>
    requires AllPrintable(ops)
  {
    if ops == [] then [] else assert Printable(ops[0]); OpLines(ops[0]) + ["---"] + OpsLines(ops[1..])
  }

  function EndLines(t: Tx): seq<string> {
    match t.ending
    case Committed(crc, stamped) => [CommitLine(t.id)] + StampText(stamped) + if crc then [CrcLine(CommitLine(t.id))] else []
    case RolledBack => ["TX_ROLLBACK:" + Print(t.id)]
    case Unfinished => []
  }

  predicate Writable(t: Tx) {
    t.id < TWO64 && AllPrintable(t.ops)
  }

  function Body(t: Tx): seq<string>
    requires Writable(t)
  {
    StampLines(t) + OpsLines(t.ops)
  }

  function TxLines(t: Tx): seq<string>
    requires Writable(t)
  {
    ["TX_BEGIN:" + Print(t.id)] + Body(t) + EndLines(t)
  }

  predicate AllWritable(txs: seq<Tx>) { forall i :: 0 <= i < |txs| ==> Writable(txs[i]) }

  function Log(txs: seq<Tx>): seq<string>
    requires AllWritable(txs)
  {
    if txs == [] then [] else TxLines(txs[0]) + Log(txs[1..])
  }

  // beginTransaction, appendWal for each operation, and applyAndCommit or rollbackTransaction
  method WriteTransaction(wal: seq<string>, id: nat, began: nat, ops: seq<Op>, committed: Option<nat>)
    returns (r: seq<string>)
    requires id < TWO64 && AllPrintable(ops)
    ensures r == wal + TxLines(Tx(id, Some(began), ops, if committed.Some? then Committed(true, committed) else RolledBack))
  {
    hide OpLines, Print, Crc, LineBytes, Printable;
    ghost var t := Tx(id, Some(began), ops, if committed.Some? then Committed(true, committed) else RolledBack);
    r := wal + ["TX_BEGIN:" + Print(id)] + ["TS:" + Print(began)];
    ghost var start := r;
    assert ops[0..] == ops;
    for i := 0 to |ops|
      invariant start + OpsLines(ops) == r + OpsLines(ops[i..])
    {
      OpsLinesNext(ops, i);
      ghost var before := r;
      assert Printable(ops[i]) by { assert AllPrintable(ops); }
      OpTypeFits(ops[i]);
      r := AppendWal(r, ops[i]);
      assert r == before + (OpLines(ops[i]) + ["---"]);
      Regroup(before, OpLines(ops[i]) + ["---"], OpsLines(ops[i + 1..]));
    }
    assert OpsLines(ops[|ops|..]) == [] && r + [] == r;
    assert r == wal + (["TX_BEGIN:" + Print(id)] + Body(t));
    if committed.Some? {
      var line := "TX_COMMIT:" + Print(id);
      var crc := WalCrc32(LineBytes(line));
      r := r + [line] + ["TS:" + Print(committed.value)] + ["CRC:" + Print(crc)];
    } else {
      r := r + ["TX_ROLLBACK:" + Print(id)];
    }
  }

  lemma OpTypeFits(op: Op)
    requires Printable(op)
    ensures op.opType >= 0
  {
  }

  lemma OpsLinesNext(ops: seq<Op>, i: nat)
    requires AllPrintable(ops) && i < |ops| && Printable(ops[i])
    ensures OpsLines(ops[i..]) == OpLines(ops[i]) + ["---"] + OpsLines(ops[i + 1..])
  {
    assert ops[i..][0] == ops[i] && ops[i..][1..] == ops[i + 1..];
  }

  predicate Distinct(txs: seq<Tx>) {
    && AllWritable(txs)
    && (forall i, j :: 0 <= i < j < |txs| ==> txs[i].id != txs[j].id)
  }

  // The scanner compares the CRC line with the pending commit line of the largest id, whichever commit it belongs to.
  // `pending`: the commit lines that wait for their CRC lines.

  function Waiting(pending: map<nat, string>, t: Tx): (r: map<nat, string>)
    ensures t.id in r
  {
    pending[t.id := CommitLine(t.id)]
  }

  ghost function Suspect(pending: map<nat, string>, t: Tx): nat { LastKey(Waiting(pending, t).Keys) }

  ghost function PendingAfter(pending: map<nat, string>, t: Tx): map<nat, string> {
    if Checked(t) then Waiting(pending, t) - {Suspect(pending, t)}
    else if Unchecked(t) then Waiting(pending, t)
    else pending
  }

  ghost predicate CrcFits(pending: map<nat, string>, t: Tx) {
    Checked(t) ==> Crc(LineBytes(Waiting(pending, t)[Suspect(pending, t)])) == Crc(LineBytes(CommitLine(t.id)))
  }

  ghost predicate CrcsFit(pending: map<nat, string>, txs: seq<Tx>)
    decreases |txs|
  {
    txs == [] || (CrcFits(pending, txs[0]) && CrcsFit(PendingAfter(pending, txs[0]), txs[1..]))
  }

  // Ids are distinct, and no CRC line meets a commit line with another CRC.
  ghost predicate Serial(txs: seq<Tx>) { Distinct(txs) && CrcsFit(map[], txs) }

  // ------------------------------------------------------------------------------------------
  // Kinds of the printed lines

  lemma KindOfBegin(id: nat)
    requires id < TWO64
    ensures KindOf("TX_BEGIN:" + Print(id)) == Begin(id) && Chomp("TX_BEGIN:" + Print(id)) == "TX_BEGIN:" + Print(id)
  {
    hide StoULL, Print;
    StoULLPrint(id);
    var t := "TX_BEGIN:" + Print(id);
    assert t[9..] == Print(id) && IsDigit(t[|t| - 1]);
  }

  lemma KindOfCommit(id: nat)
    requires id < TWO64
    ensures KindOf(CommitLine(id)) == Commit(id) && Chomp(CommitLine(id)) == CommitLine(id)
  {
    hide StoULL, Print;
    StoULLPrint(id);
    var t := CommitLine(id);
    assert t[10..] == Print(id) && t[3] == 'C' && IsDigit(t[|t| - 1]);
  }

  lemma KindOfRollback(id: nat)
    requires id < TWO64
    ensures KindOf("TX_ROLLBACK:" + Print(id)) == Rollback(id)
    ensures Chomp("TX_ROLLBACK:" + Print(id)) == "TX_ROLLBACK:" + Print(id)
  {
    hide StoULL, Print;
    StoULLPrint(id);
    var t := "TX_ROLLBACK:" + Print(id);
    assert t[12..] == Print(id) && t[3] == 'R' && t[0] == 'T' && IsDigit(t[|t| - 1]);
  }

  // A line of an op block
  predicate DataLine(line: string) { line != "" && Chomp(line) == line && KindOf(line) == Data }

  predicate BodyLine(line: string) { DataLine(line) || line == "---" }

  lemma DataByStart(line: string, i: nat, c: char)
    requires i < |line| && line[i] == c && OneLine(line)
    requires (i == 0 && c != 'T' && c != 'C' && c != '-') || (i == 1 && c == 'S')
    ensures DataLine(line)
  {
  }

  lemma {:induction false} ValueLinesData(values: seq<string>)
    ensures forall i :: 0 <= i < |ValueLines(values)| ==> DataLine(ValueLines(values)[i])
  {
    if values != [] {
      hide WalEscape;
      EscapedLine("VAL ", values[0]);
      DataByStart("VAL " + WalEscape(values[0]), 0, 'V');
      ValueLinesData(values[1..]);
    }
  }

  lemma OpLinesData(op: Op)
    requires Printable(op)
    ensures forall i :: 0 <= i < |OpLines(op)| ==> DataLine(OpLines(op)[i])
  {
    hide DataLine, OneLine, ValueLines, WalEscape, Print, AlterText;
    OpOneLine(op);
    OpLineOneLine(op);
    DataByStart(OpLine(op), 0, 'O');
    ValueLinesData(op.values);
    SetLineData(op);
    WhereLineData(op);
    SpokenOneLine(op.alter);
    DataByStart(AlterLine(op.alter), 0, 'A');
  }

  lemma SetLineData(op: Op)
    requires Printable(op)
    ensures forall i :: 0 <= i < |SetLines(op)| ==> DataLine(SetLines(op)[i])
  {
    hide DataLine, OneLine, WalEscape;
    ColumnLine("SET ", op.setCol);
    EscapedLine("SET " + op.setCol + " ", op.setVal);
    DataByStart("SET " + op.setCol + " " + WalEscape(op.setVal), 0, 'S');
  }

  lemma WhereLineData(op: Op)
    requires Printable(op)
    ensures forall i :: 0 <= i < |WhereLines(op)| ==> DataLine(WhereLines(op)[i])
  {
    hide DataLine, OneLine, WalEscape;
    ColumnLine("WHERE ", op.whereCol);
    EscapedLine("WHERE " + op.whereCol + " ", op.whereVal);
    DataByStart("WHERE " + op.whereCol + " " + WalEscape(op.whereVal), 0, 'W');
  }

  lemma {:induction false} OpsLinesBody(ops: seq<Op>)
    requires AllPrintable(ops)
    ensures forall i :: 0 <= i < |OpsLines(ops)| ==> BodyLine(OpsLines(ops)[i])
  {
    hide DataLine, Printable, OpLines;
    if ops != [] {
      OpLinesData(ops[0]);
      OpsLinesBody(ops[1..]);
    }
  }

  lemma BodyLines(t: Tx)
    requires Writable(t)
    ensures forall i :: 0 <= i < |Body(t)| ==> BodyLine(Body(t)[i])
  {
    hide DataLine, Printable, OpsLines;
    OpsLinesBody(t.ops);
    StampData(t.stamp);
  }

  lemma StampData(stamp: Option<nat>)
    ensures forall i :: 0 <= i < |StampText(stamp)| ==> DataLine(StampText(stamp)[i])
  {
    hide Print;
    if stamp.Some? {
      assert '\n' !in "TS:" && AllDigits(Print(stamp.value));
      DataByStart("TS:" + Print(stamp.value), 1, 'S');
    }
  }

  // ------------------------------------------------------------------------------------------
  // Op blocks

  // The complete blocks among the lines, and the lines after the last of them
  function Chop(block: seq<string>, lines: seq<string>): (seq<seq<string>>, seq<string>)
    decreases |lines|
  {
    if lines == [] then ([], block)
    else if lines[0] != "---" then Chop(block + [lines[0]], lines[1..])
    else
      var (blocks, rest) := Chop([], lines[1..]);
      (if block == [] then blocks else [block] + blocks, rest)
  }

  lemma {:induction false} ChopConcat(block: seq<string>, a: seq<string>, b: seq<string>)
    ensures var (blocks, rest) := Chop(block, a);
            Chop(block, a + b) == (blocks + Chop(rest, b).0, Chop(rest, b).1)
    decreases |a|
  {
    if a == [] {
      assert a + b == b;
      assert [] + Chop(block, b).0 == Chop(block, b).0;
    } else {
      assert (a + b)[1..] == a[1..] + b;
      if a[0] != "---" {
        ChopConcat(block + [a[0]], a[1..], b);
      } else {
        ChopConcat([], a[1..], b);
        var (blocks, rest) := Chop([], a[1..]);
        assert [block] + blocks + Chop(rest, b).0 == [block] + (blocks + Chop(rest, b).0);
      }
    }
  }

  lemma {:induction false} ChopData(block: seq<string>, lines: seq<string>)
    requires forall i :: 0 <= i < |lines| ==> lines[i] != "---"
    ensures Chop(block, lines) == ([], block + lines)
    decreases |lines|
  {
    if lines == [] {
      assert block + lines == block;
    } else {
      ChopData(block + [lines[0]], lines[1..]);
      assert block + [lines[0]] + lines[1..] == block + lines;
    }
  }

  // The blocks of a list of operations; the lines in front join the first of them.
  function BlocksOf(front: seq<string>, ops: seq<Op>): seq<seq<string>>
    requires AllPrintable(ops)
    decreases |ops|
  {
    if ops == [] then [] else assert Printable(ops[0]); [front + OpLines(ops[0])] + BlocksOf([], ops[1..])
  }

  lemma {:induction false} ChopOps(front: seq<string>, ops: seq<Op>)
    requires AllPrintable(ops)
    ensures Chop(front, OpsLines(ops)).0 == BlocksOf(front, ops)
    decreases |ops|
  {
    if ops == [] {
      assert Chop(front, []).0 == [];
    } else {
      hide Printable, OpLines, Chop;
      ChopFirst(front, ops[0], OpsLines(ops[1..]));
      ChopOps([], ops[1..]);
    }
  }

  lemma ChopFirst(front: seq<string>, op: Op, more: seq<string>)
    requires Printable(op)
    ensures Chop(front, OpLines(op) + ["---"] + more).0 == [front + OpLines(op)] + Chop([], more).0
  {
    hide OpLines, Chop, DataLine;
    var lines := OpLines(op);
    OpLinesData(op);
    NotSeparator(lines);
    NonEmptyOp(op);
    ChopData(front, lines);
    assert lines + ["---"] + more == lines + (["---"] + more);
    ChopConcat(front, lines, ["---"] + more);
    ChopSeparator(front + lines, more);
  }

  lemma ChopSeparator(block: seq<string>, lines: seq<string>)
    requires block != []
    ensures Chop(block, ["---"] + lines).0 == [block] + Chop([], lines).0
  {
    assert (["---"] + lines)[1..] == lines;
  }

  lemma NonEmptyOp(op: Op)
    requires Printable(op)
    ensures OpLines(op) != []
  {
  }

  lemma NotSeparator(lines: seq<string>)
    requires forall i :: 0 <= i < |lines| ==> DataLine(lines[i])
    ensures forall i :: 0 <= i < |lines| ==> lines[i] != "---"
  {
  }

  function Blocks(t: Tx): seq<seq<string>>
    requires Writable(t)
  {
    BlocksOf(StampLines(t), t.ops)
  }

  lemma ChopBody(t: Tx)
    requires Writable(t)
    ensures Chop([], Body(t)).0 == Blocks(t)
  {
    hide OpsLines, BlocksOf, Printable;
    var front := StampLines(t);
    StampData(t.stamp);
    NotSeparator(front);
    ChopData([], front);
    ChopConcat([], front, OpsLines(t.ops));
    ChopOps(front, t.ops);
    assert [] + front == front;
    assert [] + Chop(front, OpsLines(t.ops)).0 == Chop(front, OpsLines(t.ops)).0;
  }

  // Cutting the lines leaves a prefix of the blocks.
  lemma ChopPrefix(lines: seq<string>, k: nat)
    requires k <= |lines|
    ensures Chop([], lines[..k]).0 <= Chop([], lines).0
  {
    assert lines == lines[..k] + lines[k..];
    ChopConcat([], lines[..k], lines[k..]);
  }

  // ------------------------------------------------------------------------------------------
  // Scanning one transaction

  // The body lines of the open transaction
  lemma {:induction false} ScanBody(s: Scanner, lines: seq<string>)
    requires s.open && s.txs != [] && forall i :: 0 <= i < |lines| ==> BodyLine(lines[i])
    ensures var n := |s.txs| - 1;
            var (blocks, rest) := Chop(s.block, lines);
            Scan(s, lines)
            == Scanner(s.txs[n := s.txs[n].(opBlocks := s.txs[n].opBlocks + blocks)], true, rest, s.pending)
    decreases |lines|
  {
    var n := |s.txs| - 1;
    if lines == [] {
      assert s.txs[n].opBlocks + [] == s.txs[n].opBlocks;
      assert s.txs[n := s.txs[n]] == s.txs;
    } else {
      hide Chomp, Step, BodyLine;
      var s' := Step(s, lines[0]);
      StepBody(s, lines[0]);
      ScanBody(s', lines[1..]);
      if lines[0] == "---" && s.block != [] {
        var blocks := Chop([], lines[1..]).0;
        assert s.txs[n].opBlocks + [s.block] + blocks == s.txs[n].opBlocks + ([s.block] + blocks);
      }
    }
  }

  lemma StepBody(s: Scanner, line: string)
    requires s.open && s.txs != [] && BodyLine(line)
    ensures var n := |s.txs| - 1;
            Step(s, line)
            == if line != "---" then s.(block := s.block + [line])
               else if s.block == [] then s
               else s.(txs := s.txs[n := s.txs[n].(opBlocks := s.txs[n].opBlocks + [s.block])], block := [])
  {
  }

  // What the scanner knows of a transaction after the first k of its lines, k > 0
  function EntryAt(t: Tx, k: nat): TxEntry
    requires Writable(t) && 1 <= k
  {
    var b := |Body(t)|;
    TxEntry(t.id, t.ending.Committed? && k > 1 + b, t.ending.RolledBack? && k > 1 + b,
            Chop([], Body(t)[..if k - 1 < b then k - 1 else b]).0)
  }

  lemma ScanBegin(s: Scanner, id: nat)
    requires id < TWO64
    ensures Step(s, "TX_BEGIN:" + Print(id))
         == Scanner(s.txs + [TxEntry(id, false, false, [])], true, [], s.pending)
  {
    hide Print;
    KindOfBegin(id);
  }

  lemma MarkLast(txs: seq<TxEntry>, e: TxEntry, id: nat)
    requires e.txId == id && forall i :: 0 <= i < |txs| ==> txs[i].txId != id
    ensures forall flag :: MarkCommit(txs + [e], id, flag) == txs + [e.(committed := flag)]
    ensures MarkRollback(txs + [e], id) == txs + [e.(rolledBack := true)]
  {
    var x := txs + [e];
    assert x[|txs|].txId == id && forall k :: 0 <= k < |txs| ==> x[k] == txs[k];
    assert FirstOf(x, id) == |txs|;
  }

  // The start of a transaction: BEGIN and m body lines
  lemma ScanOpen(s: Scanner, t: Tx, m: nat)
    requires Writable(t) && m <= |Body(t)|
    ensures var r := Scan(s, ["TX_BEGIN:" + Print(t.id)] + Body(t)[..m]);
            r.txs == s.txs + [TxEntry(t.id, false, false, Chop([], Body(t)[..m]).0)] && r.pending == s.pending
  {
    hide Body, Writable, Print, Step;
    var head := "TX_BEGIN:" + Print(t.id);
    var s1 := Scanner(s.txs + [TxEntry(t.id, false, false, [])], true, [], s.pending);
    IdFits(t);
    ScanBegin(s, t.id);
    assert ([head] + Body(t)[..m])[1..] == Body(t)[..m];
    BodyLines(t);
    ScanBody(s1, Body(t)[..m]);
    var blocks := Chop([], Body(t)[..m]).0;
    assert [] + blocks == blocks;
    assert s1.txs[|s.txs| := TxEntry(t.id, false, false, blocks)] == s.txs + [TxEntry(t.id, false, false, blocks)];
  }

  lemma IdFits(t: Tx)
    requires Writable(t)
    ensures t.id < TWO64 && AllPrintable(t.ops)
  {
  }

  // The commit, CRC and rollback lines
  lemma ScanCommit(s: Scanner, txs: seq<TxEntry>, e: TxEntry, id: nat)
    requires id < TWO64 && s.txs == txs + [e] && e.txId == id && forall i :: 0 <= i < |txs| ==> txs[i].txId != id
    ensures Step(s, CommitLine(id))
         == Scanner(txs + [e.(committed := true)], false, [], s.pending[id := CommitLine(id)])
  {
    hide CommitLine;
    KindOfCommit(id);
    MarkLast(txs, e, id);
    NonEmptyCommit(id);
  }

  lemma NonEmptyCommit(id: nat)
    ensures CommitLine(id) != "" && CrcLine(CommitLine(id)) != ""
  {
  }

  lemma ScanRollback(s: Scanner, txs: seq<TxEntry>, e: TxEntry, id: nat)
    requires id < TWO64 && s.txs == txs + [e] && e.txId == id && forall i :: 0 <= i < |txs| ==> txs[i].txId != id
    ensures Step(s, "TX_ROLLBACK:" + Print(id)).txs == txs + [e.(rolledBack := true)]
    ensures Step(s, "TX_ROLLBACK:" + Print(id)).pending == s.pending
  {
    hide Print;
    KindOfRollback(id);
    MarkLast(txs, e, id);
  }

  // Lines between transactions that are neither tagged nor empty
  lemma {:induction false} ScanIgnored(s: Scanner, lines: seq<string>)
    requires !s.open && forall i :: 0 <= i < |lines| ==> DataLine(lines[i])
    ensures Scan(s, lines) == s
    decreases |lines|
  {
    if lines != [] {
      assert Step(s, lines[0]) == s by { assert DataLine(lines[0]); }
      ScanIgnored(s, lines[1..]);
    }
  }

  // The scanner's transactions when the CRC line of t has been read: the commit that it does not fit is taken back.
  ghost function Verdict(pending: map<nat, string>, t: Tx, txs: seq<TxEntry>): seq<TxEntry> {
    if CrcFits(pending, t) then txs else MarkCommit(txs, Suspect(pending, t), false)
  }

  lemma ScanCheck(s: Scanner, pending: map<nat, string>, t: Tx)
    requires Checked(t) && s.pending == Waiting(pending, t)
    ensures var r := Step(s, CrcLine(CommitLine(t.id)));
            r.txs == Verdict(pending, t, s.txs) && r.pending == PendingAfter(pending, t)
  {
    hide CommitLine, CrcLine, Crc, LineBytes, MarkCommit;
    KindOfCrcLine(CommitLine(t.id));
    NonEmptyCommit(t.id);
    assert t.id in s.pending;
  }

  predicate Fresh(s: Scanner, t: Tx) { forall i :: 0 <= i < |s.txs| ==> s.txs[i].txId != t.id }

  // The scanner after k lines of a transaction, wherever it was before
  lemma ScanTx(s: Scanner, t: Tx, k: nat)
    requires Writable(t) && 1 <= k <= |TxLines(t)| && Fresh(s, t)
    ensures k < |TxLines(t)| || CrcFits(s.pending, t) ==> Scan(s, TxLines(t)[..k]).txs == s.txs + [EntryAt(t, k)]
    ensures k == |TxLines(t)| ==>
              var r := Scan(s, TxLines(t));
              r.txs == Verdict(s.pending, t, s.txs + [EntryAt(t, k)]) && r.pending == PendingAfter(s.pending, t)
  {
    hide Body, Writable, Print, Step, Chop, CommitLine, CrcLine, CrcFits, Verdict, PendingAfter;
    var b := |Body(t)|;
    var head := ["TX_BEGIN:" + Print(t.id)];
    assert k == |TxLines(t)| ==> TxLines(t)[..k] == TxLines(t);
    if k <= 1 + b {
      assert TxLines(t)[..k] == head + Body(t)[..k - 1];
      ScanOpen(s, t, k - 1);
      if k == |TxLines(t)| { NoVerdict(s, t, s.txs + [EntryAt(t, k)]); }
    } else {
      ScanOpen(s, t, b);
      assert Body(t)[..b] == Body(t);
      var full := head + Body(t)[..b];
      var end := EndLines(t)[..k - 1 - b];
      assert TxLines(t)[..k] == full + end;
      ScanConcat(s, full, end);
      ScanEnd(Scan(s, full), s, t, end);
      assert k == |TxLines(t)| ==> end == EndLines(t);
      assert EntryAt(t, k) == FullEntry(t);
      VerdictFits(s.pending, t, s.txs + [FullEntry(t)]);
    }
  }

  lemma VerdictFits(pending: map<nat, string>, t: Tx, txs: seq<TxEntry>)
    ensures CrcFits(pending, t) ==> Verdict(pending, t, txs) == txs
  {
  }

  // A transaction that did not come to its commit line, or has no CRC line
  lemma NoVerdict(s: Scanner, t: Tx, txs: seq<TxEntry>)
    requires !Checked(t)
    ensures CrcFits(s.pending, t) && Verdict(s.pending, t, txs) == txs
    ensures !t.ending.Committed? ==> PendingAfter(s.pending, t) == s.pending
    ensures t.ending.Committed? ==> PendingAfter(s.pending, t) == Waiting(s.pending, t)
  {
  }

  function FullEntry(t: Tx): TxEntry
    requires Writable(t)
  {
    TxEntry(t.id, t.ending.Committed?, t.ending.RolledBack?, Chop([], Body(t)).0)
  }

  lemma ScanEnd(s1: Scanner, s: Scanner, t: Tx, end: seq<string>)
    requires Writable(t) && end != [] && end <= EndLines(t) && Fresh(s, t)
    requires s1.txs == s.txs + [TxEntry(t.id, false, false, Chop([], Body(t)).0)] && s1.pending == s.pending
    ensures end != EndLines(t) ==> Scan(s1, end).txs == s.txs + [FullEntry(t)]
    ensures end == EndLines(t) ==>
              var r := Scan(s1, end);
              r.txs == Verdict(s.pending, t, s.txs + [FullEntry(t)]) && r.pending == PendingAfter(s.pending, t)
  {
    hide Body, Writable, Print, Step, Chop, CommitLine, CrcLine, CrcFits, Verdict, PendingAfter, Scan;
    var e := TxEntry(t.id, false, false, Chop([], Body(t)).0);
    IdFits(t);
    if t.ending.RolledBack? {
      assert end == EndLines(t);
      ScanRollback(s1, s.txs, e, t.id);
      ScanOne(s1, end[0]);
      NoVerdict(s, t, s.txs + [FullEntry(t)]);
    } else {
      ScanCommit(s1, s.txs, e, t.id);
      ScanCommitted(s1, s, t, end);
      if !t.ending.crc { NoVerdict(s, t, s.txs + [FullEntry(t)]); }
    }
  }

  // The commit line, the time stamp behind it, and the CRC line
  lemma ScanCommitted(s1: Scanner, s: Scanner, t: Tx, end: seq<string>)
    requires Writable(t) && t.ending.Committed? && end != [] && end <= EndLines(t)
    requires Step(s1, CommitLine(t.id)) == Scanner(s.txs + [FullEntry(t)], false, [], Waiting(s.pending, t))
    ensures end == EndLines(t) && t.ending.crc ==>
              var r := Scan(s1, end);
              r.txs == Verdict(s.pending, t, s.txs + [FullEntry(t)]) && r.pending == PendingAfter(s.pending, t)
    ensures end != EndLines(t) || !t.ending.crc ==>
              Scan(s1, end).txs == s.txs + [FullEntry(t)] && Scan(s1, end).pending == Waiting(s.pending, t)
  {
    hide Body, Writable, Print, Step, Chop, CommitLine, CrcLine, CrcFits, Verdict, PendingAfter, Scan, DataLine, StampText;
    var s2 := Step(s1, CommitLine(t.id));
    var mid := StampText(t.ending.stamped);
    StampData(t.ending.stamped);
    ScanOne(s1, CommitLine(t.id));
    if end == EndLines(t) && t.ending.crc {
      var last := CrcLine(CommitLine(t.id));
      assert end == [CommitLine(t.id)] + (mid + [last]);
      ScanConcat(s1, [CommitLine(t.id)], mid + [last]);
      ScanConcat(s2, mid, [last]);
      ScanIgnored(s2, mid);
      ScanOne(s2, last);
      ScanCheck(s2, s.pending, t);
    } else {
      var m := end[1..];
      assert end == [CommitLine(t.id)] + m && m <= mid;
      ScanConcat(s1, [CommitLine(t.id)], m);
      assert forall i :: 0 <= i < |m| ==> m[i] == mid[i];
      ScanIgnored(s2, m);
    }
  }

  // ------------------------------------------------------------------------------------------
  // A log cut after k lines

  function Entries(txs: seq<Tx>, k: nat): seq<TxEntry>
    requires AllWritable(txs)
    decreases |txs|
  {
    if txs == [] || k == 0 then []
    else
      var n := |TxLines(txs[0])|;
      [EntryAt(txs[0], if k < n then k else n)] + if k < n then [] else Entries(txs[1..], k - n)
  }

  // Number of log lines up to and including the commit line of transaction i
  function CommitEnd(txs: seq<Tx>, i: nat): nat
    requires AllWritable(txs) && i < |txs|
  {
    if i == 0 then 2 + |Body(txs[0])| else |TxLines(txs[0])| + CommitEnd(txs[1..], i - 1)
  }

  // The scanner before a log: it knows none of the ids to come.
  predicate Apart(s: Scanner, txs: seq<Tx>) { forall j :: 0 <= j < |txs| ==> Fresh(s, txs[j]) }

  // What the scanner knows behind the first k lines of a log
  ghost function After(s: Scanner, txs: seq<Tx>, k: nat): seq<TxEntry>
    requires AllWritable(txs) && k <= |Log(txs)|
  {
    WalScan.Scan(s, Log(txs)[..k]).txs
  }

  predicate Knows(r: seq<TxEntry>, before: seq<TxEntry>, more: seq<TxEntry>) { r == before + more }

  lemma KnowsNext(r: seq<TxEntry>, before: seq<TxEntry>, e: TxEntry, more: seq<TxEntry>)
    ensures Knows(r, before + [e], more) <==> Knows(r, before, [e] + more)
  {
    Regroup(before, [e], more);
  }

  // What is known behind k lines is right.
  ghost predicate Right(s: Scanner, txs: seq<Tx>, k: nat)
    requires AllWritable(txs) && k <= |Log(txs)|
  {
    Knows(After(s, txs, k), s.txs, Entries(txs, k))
  }

  lemma ScanNoLines(s: Scanner, txs: seq<Tx>, k: nat)
    requires AllWritable(txs) && k <= |Log(txs)| && (txs == [] || k == 0)
    ensures After(s, txs, k) == s.txs && Right(s, txs, k)
  {
    hide TxLines, Step, Writable;
    assert Log(txs)[..k] == [];
    assert s.txs + [] == s.txs;
  }

  // Cut inside or at the end of the first transaction
  lemma CutFirst(s: Scanner, txs: seq<Tx>, k: nat)
    requires Distinct(txs) && Apart(s, txs) && txs != [] && AllWritable(txs) && 0 < k <= |TxLines(txs[0])|
    requires k <= |Log(txs)|
    ensures k < |TxLines(txs[0])| || CrcFits(s.pending, txs[0]) ==> Right(s, txs, k)
    ensures k == |TxLines(txs[0])| ==>
              After(s, txs, k) == Verdict(s.pending, txs[0], s.txs + [EntryAt(txs[0], k)])
              && Entries(txs, k) == [EntryAt(txs[0], k)]
  {
    hide TxLines, EntryAt, Step, Writable, WalScan.Scan, CrcFits, Verdict, PendingAfter, Entries, Apart, Distinct;
    LogCut(txs, k);
    ScanFirst(s, txs);
    ScanTx(s, txs[0], k);
    assert k == |TxLines(txs[0])| ==> TxLines(txs[0])[..k] == TxLines(txs[0]);
  }

  // Cut behind the first transaction
  lemma CutLater(s: Scanner, txs: seq<Tx>, k: nat)
    requires Distinct(txs) && Apart(s, txs) && txs != [] && AllWritable(txs) && AllWritable(txs[1..])
    requires |TxLines(txs[0])| < k <= |Log(txs)|
    ensures var n, s' := |TxLines(txs[0])|, WalScan.Scan(s, TxLines(txs[0]));
            1 <= n && k - n <= |Log(txs[1..])| && After(s, txs, k) == After(s', txs[1..], k - n)
            && Entries(txs, k) == [EntryAt(txs[0], n)] + Entries(txs[1..], k - n)
  {
    hide TxLines, EntryAt, Step, Writable, WalScan.Scan, Entries, Apart, Distinct;
    LinesNonEmpty(txs[0]);
    LogCut(txs, k);
    ScanConcat(s, TxLines(txs[0]), Log(txs[1..])[..k - |TxLines(txs[0])|]);
  }

  lemma LogLength(txs: seq<Tx>)
    requires AllWritable(txs) && txs != [] && AllWritable(txs[1..])
    ensures |Log(txs)| == |TxLines(txs[0])| + |Log(txs[1..])|
  {
  }

  lemma {:induction false} ScanLog(s: Scanner, txs: seq<Tx>, k: nat)
    requires AllWritable(txs) && Distinct(txs) && Apart(s, txs) && CrcsFit(s.pending, txs) && k <= |Log(txs)|
    ensures Right(s, txs, k)
    decreases |txs|
  {
    hide Apart, Distinct, PendingAfter, Writable, AllWritable, CrcsFit, Right, Verdict, CrcFits;
    hide Log, After, Entries, TxLines, EntryAt, WalScan.Scan;
    DistinctWritable(txs);
    if txs == [] || k == 0 {
      ScanNoLines(s, txs, k);
    } else {
      var t, rest := txs[0], txs[1..];
      LogLength(txs);
      FirstFits(s.pending, txs);
      if k <= |TxLines(t)| {
        CutFirst(s, txs, k);
      } else {
        ScanFirst(s, txs);
        var s', m := WalScan.Scan(s, TxLines(t)), k - |TxLines(t)|;
        assert Distinct(rest) && Apart(s', rest) && CrcsFit(s'.pending, rest) && m <= |Log(rest)|;
        ScanLog(s', rest, m);
        RightLater(s, txs, k);
      }
    }
  }

  // With a first transaction whose CRC line fits, the cuts behind it are right when they are for the rest of the log.
  lemma RightLater(s: Scanner, txs: seq<Tx>, k: nat)
    requires Distinct(txs) && Apart(s, txs) && txs != [] && AllWritable(txs) && AllWritable(txs[1..])
    requires CrcFits(s.pending, txs[0]) && |TxLines(txs[0])| < k <= |Log(txs)|
    ensures var m, s' := k - |TxLines(txs[0])|, WalScan.Scan(s, TxLines(txs[0]));
            m <= |Log(txs[1..])| && (Right(s, txs, k) <==> Right(s', txs[1..], m))
  {
    hide Apart, Distinct, PendingAfter, Writable, AllWritable, Verdict, CrcFits, Knows;
    hide Log, After, Entries, TxLines, EntryAt, WalScan.Scan;
    DistinctWritable(txs);
    var t := txs[0];
    var n := |TxLines(t)|;
    CutLater(s, txs, k);
    ScanFirst(s, txs);
    VerdictFits(s.pending, t, s.txs + [EntryAt(t, n)]);
    var s' := WalScan.Scan(s, TxLines(t));
    KnowsNext(After(s', txs[1..], k - n), s.txs, EntryAt(t, n), Entries(txs[1..], k - n));
  }

  lemma FirstFits(pending: map<nat, string>, txs: seq<Tx>)
    requires txs != []
    ensures CrcsFit(pending, txs) <==> CrcFits(pending, txs[0]) && CrcsFit(PendingAfter(pending, txs[0]), txs[1..])
  {
  }

  // The scanner behind the first transaction of a log
  lemma ScanFirst(s: Scanner, txs: seq<Tx>)
    requires Distinct(txs) && Apart(s, txs) && txs != []
    ensures Distinct(txs[1..]) && AllWritable(txs) && Writable(txs[0]) && Fresh(s, txs[0]) && |TxLines(txs[0])| >= 1
    ensures var s', n := WalScan.Scan(s, TxLines(txs[0])), |TxLines(txs[0])|;
            s'.txs == Verdict(s.pending, txs[0], s.txs + [EntryAt(txs[0], n)])
            && s'.pending == PendingAfter(s.pending, txs[0]) && Apart(s', txs[1..])
  {
    hide TxLines, EntryAt, Step, Writable, WalScan.Scan, PendingAfter, Verdict;
    var t := txs[0];
    DistinctRest(txs);
    LinesNonEmpty(t);
    assert Fresh(s, t);
    ScanTx(s, t, |TxLines(t)|);
    VerdictIds(s.pending, t, s.txs + [EntryAt(t, |TxLines(t)|)]);
    EntryId(t, |TxLines(t)|);
    ApartAfter(s, WalScan.Scan(s, TxLines(t)), txs);
  }

  lemma EntryId(t: Tx, k: nat)
    requires Writable(t) && 1 <= k
    ensures EntryAt(t, k).txId == t.id
  {
  }

  lemma VerdictIds(pending: map<nat, string>, t: Tx, txs: seq<TxEntry>)
    ensures var r := Verdict(pending, t, txs); |r| == |txs| && forall i :: 0 <= i < |r| ==> r[i].txId == txs[i].txId
  {
    hide FirstOf, CrcFits;
  }

  // The first k lines, and what is known after them, by the first transaction
  lemma LogCut(txs: seq<Tx>, k: nat)
    requires AllWritable(txs) && txs != [] && 0 < k <= |Log(txs)|
    ensures var n := |TxLines(txs[0])|;
            if k <= n then Log(txs)[..k] == TxLines(txs[0])[..k] && Entries(txs, k) == [EntryAt(txs[0], k)]
            else k - n <= |Log(txs[1..])| && Log(txs)[..k] == TxLines(txs[0]) + Log(txs[1..])[..k - n]
                 && Entries(txs, k) == [EntryAt(txs[0], n)] + Entries(txs[1..], k - n)
  {
    hide TxLines, EntryAt;
    var n := |TxLines(txs[0])|;
    assert Log(txs) == TxLines(txs[0]) + Log(txs[1..]);
    assert k == n ==> Entries(txs[1..], 0) == [];
  }

  lemma LinesNonEmpty(t: Tx)
    requires Writable(t)
    ensures |TxLines(t)| >= 1
  {
  }

  lemma DistinctWritable(txs: seq<Tx>)
    requires Distinct(txs)
    ensures AllWritable(txs) && (txs != [] ==> Writable(txs[0]) && AllWritable(txs[1..]))
  {
  }

  lemma DistinctRest(txs: seq<Tx>)
    requires Distinct(txs) && txs != []
    ensures Distinct(txs[1..]) && AllWritable(txs) && Writable(txs[0])
  {
    hide Writable;
    var r := txs[1..];
    assert forall i :: 0 <= i < |r| ==> r[i] == txs[i + 1];
  }

  lemma ApartAfter(s: Scanner, s': Scanner, txs: seq<Tx>)
    requires Distinct(txs) && txs != [] && Apart(s, txs)
    requires |s'.txs| == |s.txs| + 1 && s'.txs[|s.txs|].txId == txs[0].id
    requires forall i :: 0 <= i < |s.txs| ==> s'.txs[i].txId == s.txs[i].txId
    ensures Apart(s', txs[1..])
  {
    hide Writable;
    var r := txs[1..];
    forall j | 0 <= j < |r| ensures Fresh(s', r[j]) {
      assert r[j] == txs[j + 1] && Fresh(s, txs[j + 1]);
    }
  }

  // ------------------------------------------------------------------------------------------
  // Crash atomicity

  // What may be known of a transaction: a prefix of its op blocks, and its commit exactly when that is in the log, with all
  // of them.
  predicate Atomic(t: Tx, e: TxEntry, ended: bool)
    requires Writable(t)
  {
    && e.txId == t.id && e.opBlocks <= Blocks(t)
    && (e.committed <==> t.ending.Committed? && ended)
    && (e.committed ==> e.opBlocks == Blocks(t))
  }

  // After any cut, the scan knows a prefix of the transactions; each has a prefix of its op blocks; and it counts as
  // committed exactly when its commit line is in the part of the log that was written.
  lemma EntriesAtomic(txs: seq<Tx>, k: nat)
    requires AllWritable(txs)
    ensures |Entries(txs, k)| <= |txs|
    ensures forall i :: 0 <= i < |Entries(txs, k)| ==>
              var e := Entries(txs, k)[i];
              e.txId == txs[i].id && e.opBlocks <= Blocks(txs[i])
              && (e.committed <==> txs[i].ending.Committed? && CommitEnd(txs, i) <= k)
              && (e.committed ==> e.opBlocks == Blocks(txs[i]))
    ensures forall i :: |Entries(txs, k)| <= i < |txs| ==> k < CommitEnd(txs, i)
  {
    hide Entries, Blocks, Writable, CommitEnd;
    EntriesCount(txs, k);
    forall i | 0 <= i < |Entries(txs, k)| ensures Atomic(txs[i], Entries(txs, k)[i], CommitEnd(txs, i) <= k) {
      EntryAtomicAt(txs, k, i);
    }
    forall i | |Entries(txs, k)| <= i < |txs| ensures k < CommitEnd(txs, i) { NotReached(txs, k, i); }
  }

  lemma {:induction false} EntriesCount(txs: seq<Tx>, k: nat)
    requires AllWritable(txs)
    ensures |Entries(txs, k)| <= |txs|
    decreases |txs|
  {
    hide TxLines, EntryAt;
    if txs != [] && k >= |TxLines(txs[0])| { EntriesCount(txs[1..], k - |TxLines(txs[0])|); }
  }

  // The entries behind the first one
  lemma EntriesStep(txs: seq<Tx>, k: nat)
    requires AllWritable(txs) && txs != [] && k > 0
    ensures var n := |TxLines(txs[0])|;
            Entries(txs, k) == [EntryAt(txs[0], if k < n then k else n)] + Entries(txs[1..], if k < n then 0 else k - n)
  {
    hide TxLines, EntryAt;
  }

  lemma CommitEndStep(txs: seq<Tx>, i: nat)
    requires AllWritable(txs) && i < |txs|
    ensures if i == 0 then CommitEnd(txs, i) == 2 + |Body(txs[0])|
            else CommitEnd(txs, i) == |TxLines(txs[0])| + CommitEnd(txs[1..], i - 1)
  {
    hide TxLines, Body;
  }

  lemma {:induction false} EntryAtomicAt(txs: seq<Tx>, k: nat, i: nat)
    requires AllWritable(txs) && |Entries(txs, k)| <= |txs| && i < |Entries(txs, k)|
    ensures Atomic(txs[i], Entries(txs, k)[i], CommitEnd(txs, i) <= k)
    decreases i
  {
    hide Entries, EntryAt, Blocks, Body, TxLines, Writable, CommitEnd, Atomic;
    NoLines(txs);
    var t, rest := txs[0], txs[1..];
    var n := |TxLines(t)|;
    EntriesStep(txs, k);
    CommitEndStep(txs, i);
    EndWithin(t);
    if i == 0 {
      AtomicAt(t, if k < n then k else n, k);
    } else {
      var later := if k < n then 0 else k - n;
      EntriesCount(rest, later);
      EntryAtomicAt(rest, later, i - 1);
      CommitPositive(rest, i - 1);
      assert Entries(txs, k)[i] == Entries(rest, later)[i - 1];
    }
  }

  lemma NoLines(txs: seq<Tx>)
    requires AllWritable(txs)
    ensures Entries(txs, 0) == [] && (txs == [] ==> forall k :: Entries(txs, k) == [])
  {
  }

  lemma AtomicAt(t: Tx, m: nat, k: nat)
    requires Writable(t) && 1 <= m && (m == k || (m == |TxLines(t)| && m <= k))
    requires t.ending.Committed? ==> 2 + |Body(t)| <= |TxLines(t)|
    ensures Atomic(t, EntryAt(t, m), 2 + |Body(t)| <= k)
  {
    hide EntryAt, Blocks, Body, TxLines, Writable;
    EntryAtomic(t, m);
  }

  lemma {:induction false} NotReached(txs: seq<Tx>, k: nat, i: nat)
    requires AllWritable(txs) && |Entries(txs, k)| <= i < |txs|
    ensures k < CommitEnd(txs, i)
    decreases i
  {
    hide Entries, EntryAt, Body, TxLines, Writable, CommitEnd;
    CommitPositive(txs, i);
    if k > 0 {
      EntriesStep(txs, k);
      CommitEndStep(txs, i);
      var n := |TxLines(txs[0])|;
      if i > 0 {
        NotReached(txs[1..], if k < n then 0 else k - n, i - 1);
        CommitPositive(txs[1..], i - 1);
      }
    }
  }

  lemma {:induction false} CommitPositive(txs: seq<Tx>, i: nat)
    requires AllWritable(txs) && i < |txs|
    ensures CommitEnd(txs, i) >= 1
  {
    if i > 0 { CommitPositive(txs[1..], i - 1); }
  }

  lemma EndWithin(t: Tx)
    requires Writable(t)
    ensures 1 + |Body(t)| <= |TxLines(t)|
    ensures t.ending.Committed? ==> 2 + |Body(t)| <= |TxLines(t)|
  {
  }

  lemma EntryAtomic(t: Tx, k: nat)
    requires Writable(t) && 1 <= k
    ensures var e := EntryAt(t, k);
            e.txId == t.id && e.opBlocks <= Blocks(t)
            && (e.committed <==> t.ending.Committed? && 2 + |Body(t)| <= k)
            && (e.committed ==> e.opBlocks == Blocks(t))
  {
    hide Body, Blocks, Chop, Writable;
    var b := |Body(t)|;
    ChopBody(t);
    ChopPrefix(Body(t), if k - 1 < b then k - 1 else b);
    assert Body(t)[..b] == Body(t);
  }

  // The scan of a cut log
  lemma CrashAtomicity(txs: seq<Tx>, k: nat)
    requires Serial(txs) && k <= |Log(txs)|
    ensures WalScan.Scan(START, Log(txs)[..k]).txs == Entries(txs, k)
  {
    ScanLog(START, txs, k);
    assert [] + Entries(txs, k) == Entries(txs, k);
  }

  // When every commit has its CRC line and the ones that wait have smaller ids, no other one is left waiting.
  lemma {:induction false} NothingPending(s: Scanner, txs: seq<Tx>)
    requires Distinct(txs) && Apart(s, txs) && forall i :: 0 <= i < |txs| ==> !Unchecked(txs[i])
    requires forall i, p :: 0 <= i < |txs| && Checked(txs[i]) && p in s.pending ==> p < txs[i].id
    ensures WalScan.Scan(s, Log(txs)).pending == s.pending && CrcsFit(s.pending, txs)
    decreases |txs|
  {
    hide TxLines, Step, Writable, EntryAt, PendingAfter, Distinct, Apart, CrcFits, Verdict;
    if txs != [] {
      var t, rest := txs[0], txs[1..];
      ScanFirst(s, txs);
      ScanConcat(s, TxLines(t), Log(rest));
      var s' := WalScan.Scan(s, TxLines(t));
      PendingSame(s.pending, t);
      assert forall i :: 0 <= i < |rest| ==> rest[i] == txs[i + 1];
      NothingPending(s', rest);
    }
  }

  lemma PendingSame(pending: map<nat, string>, t: Tx)
    requires !Unchecked(t) && (Checked(t) ==> forall p <- pending :: p < t.id)
    ensures PendingAfter(pending, t) == pending && CrcFits(pending, t)
  {
    hide CommitLine, Crc, LineBytes;
    if Checked(t) {
      var keys := Waiting(pending, t).Keys;
      assert t.id in keys && Largest(keys, LastKey(keys));
      assert Suspect(pending, t) == t.id;
    }
  }

  // ------------------------------------------------------------------------------------------
  // The whole log

  function FullEntries(txs: seq<Tx>): (r: seq<TxEntry>)
    requires AllWritable(txs)
    ensures |r| == |txs| && forall i :: 0 <= i < |r| ==> r[i] == FullEntry(txs[i])
  {
    if txs == [] then [] else [FullEntry(txs[0])] + FullEntries(txs[1..])
  }

  // An undamaged log, scanned to its end
  lemma {:induction false} EntriesFull(txs: seq<Tx>)
    requires AllWritable(txs)
    ensures Entries(txs, |Log(txs)|) == FullEntries(txs)
    decreases |txs|
  {
    hide TxLines, EntryAt, Writable, Entries, FullEntry;
    if txs == [] {
      NoEntries(txs);
    } else {
      var t, rest := txs[0], txs[1..];
      var n := |TxLines(t)|;
      LinesNonEmpty(t);
      LogCut(txs, |Log(txs)|);
      EntriesFull(rest);
      FullAt(t);
      if Log(rest) == [] { NoLog(rest); }
    }
  }

  lemma NoEntries(txs: seq<Tx>)
    requires AllWritable(txs) && txs == []
    ensures Entries(txs, |Log(txs)|) == []
  {
  }

  lemma NoLog(txs: seq<Tx>)
    requires AllWritable(txs) && Log(txs) == []
    ensures txs == []
  {
    hide TxLines;
    if txs != [] { LinesNonEmpty(txs[0]); }
  }

  lemma FullAt(t: Tx)
    requires Writable(t)
    ensures EntryAt(t, |TxLines(t)|) == FullEntry(t)
  {
    hide Body, Chop, Print, CommitLine, CrcLine, StampText;
    assert Body(t)[..|Body(t)|] == Body(t);
  }

  lemma ScanToEnd(s: Scanner, txs: seq<Tx>)
    requires AllWritable(txs) && Distinct(txs) && Apart(s, txs) && CrcsFit(s.pending, txs)
    ensures WalScan.Scan(s, Log(txs)).txs == s.txs + FullEntries(txs)
  {
    hide WalScan.Scan, Log, FullEntries, CrcsFit, Writable, AllWritable, Distinct, Apart, Entries;
    ScanLog(s, txs, |Log(txs)|);
    EntriesFull(txs);
    assert Log(txs)[..|Log(txs)|] == Log(txs);
  }

  // ------------------------------------------------------------------------------------------
  // The log as a file

  lemma OneLineFree(lines: seq<string>)
    requires AllOneLine(lines)
    ensures AllFree(lines, '\n')
  {
    forall i | 0 <= i < |lines| ensures Free(lines[i], '\n') { assert OneLine(lines[i]); }
  }

  lemma FreeConcat(a: seq<string>, b: seq<string>)
    requires AllFree(a, '\n') && AllFree(b, '\n')
    ensures AllFree(a + b, '\n')
  {
  }

  lemma {:induction false} OpsLinesFree(ops: seq<Op>)
    requires AllPrintable(ops)
    ensures AllFree(OpsLines(ops), '\n')
  {
    hide Printable, OpLines, Free;
    if ops != [] {
      assert Printable(ops[0]);
      OpTypeFits(ops[0]);
      OpOneLine(ops[0]);
      OneLineFree(OpLines(ops[0]));
      SeparatorFree();
      FreeConcat(OpLines(ops[0]), ["---"]);
      OpsLinesFree(ops[1..]);
    }
  }

  lemma SeparatorFree()
    ensures AllFree(["---"], '\n')
  {
  }

  lemma TagFree(tag: string, n: nat)
    requires Free(tag, '\n')
    ensures Free(tag + Print(n), '\n')
  {
    hide Print;
  }

  lemma TxLinesFree(t: Tx)
    requires Writable(t)
    ensures AllFree(TxLines(t), '\n')
  {
    hide Print, Crc, OpsLines, AllFree, LineBytes;
    OpsLinesFree(t.ops);
    OneTag("TX_BEGIN:", t.id);
    StampFree(t.stamp);
    FreeConcat(StampLines(t), OpsLines(t.ops));
    FreeConcat(["TX_BEGIN:" + Print(t.id)], Body(t));
    match t.ending
    case Committed(crc, stamped) =>
      OneTag("TX_COMMIT:", t.id);
      OneTag("CRC:", Crc(LineBytes(CommitLine(t.id))));
      StampFree(stamped);
      NothingFree();
      FreeConcat([CommitLine(t.id)], StampText(stamped));
      FreeConcat([CommitLine(t.id)] + StampText(stamped), if crc then [CrcLine(CommitLine(t.id))] else []);
      FreeConcat(["TX_BEGIN:" + Print(t.id)] + Body(t), EndLines(t));
    case RolledBack =>
      OneTag("TX_ROLLBACK:", t.id);
      FreeConcat(["TX_BEGIN:" + Print(t.id)] + Body(t), EndLines(t));
    case Unfinished =>
      NothingFree();
      FreeConcat(["TX_BEGIN:" + Print(t.id)] + Body(t), EndLines(t));
  }

  lemma NothingFree()
    ensures AllFree([], '\n')
  {
  }

  lemma OneTag(tag: string, n: nat)
    requires Free(tag, '\n')
    ensures AllFree([tag + Print(n)], '\n')
  {
    hide Print;
    TagFree(tag, n);
  }

  lemma StampFree(stamp: Option<nat>)
    ensures AllFree(StampText(stamp), '\n')
  {
    hide Print;
    if stamp.Some? { OneTag("TS:", stamp.value); } else { NothingFree(); }
  }

  // The escaped log is as many lines as were written: reading the file line by line gives them back.
  lemma {:induction false} LogFile(txs: seq<Tx>)
    requires AllWritable(txs)
    ensures AllFree(Log(txs), '\n') && GetLines(Terminated(Log(txs), '\n'), '\n') == Log(txs)
  {
    hide Terminated, GetLines, Free, TxLines, Writable;
    if txs != [] {
      TxLinesFree(txs[0]);
      LogFile(txs[1..]);
      FreeConcat(TxLines(txs[0]), Log(txs[1..]));
    }
    LinesTerminated(Log(txs), '\n');
  }

  // ------------------------------------------------------------------------------------------
  // Exactly which logs are read right

  // Every commit that waits for its CRC line counts as committed.
  predicate Known(s: Scanner) {
    forall id :: id in s.pending ==> var n := FirstOf(s.txs, id); n < |s.txs| && s.txs[n].committed
  }

  lemma {:induction false} FirstAppend(txs: seq<TxEntry>, e: TxEntry, id: nat)
    ensures FirstOf(txs, id) < |txs| ==> FirstOf(txs + [e], id) == FirstOf(txs, id)
    ensures FirstOf(txs, id) == |txs| && e.txId == id ==> FirstOf(txs + [e], id) == |txs|
  {
    hide FirstOf;
    var x := txs + [e];
    assert forall k :: 0 <= k < |txs| ==> x[k] == txs[k];
    assert x[|txs|] == e;
  }

  lemma KnownAfter(s: Scanner, t: Tx, e: TxEntry, s': Scanner)
    requires Known(s) && Fresh(s, t) && e.txId == t.id && (t.ending.Committed? ==> e.committed)
    requires s'.txs == s.txs + [e] && s'.pending == PendingAfter(s.pending, t)
    ensures Known(s')
  {
    hide FirstOf, CommitLine;
    forall id | id in s'.pending ensures var n := FirstOf(s'.txs, id); n < |s'.txs| && s'.txs[n].committed {
      FirstAppend(s.txs, e, id);
    }
  }

  // A CRC line that meets another commit line with another CRC takes back a commit that was good.
  lemma WrongVerdict(s: Scanner, t: Tx, e: TxEntry)
    requires Known(s) && !CrcFits(s.pending, t)
    ensures var m := Suspect(s.pending, t);
            m in s.pending && m != t.id && var n := FirstOf(s.txs, m);
            n < |s.txs| && s.txs[n].committed
            && Verdict(s.pending, t, s.txs + [e]) == s.txs[n := s.txs[n].(committed := false)] + [e]
    ensures Verdict(s.pending, t, s.txs + [e]) != s.txs + [e]
  {
    hide FirstOf, CommitLine, Crc, LineBytes;
    var m := Suspect(s.pending, t);
    assert m in Waiting(s.pending, t);
    FirstAppend(s.txs, e, m);
    var n := FirstOf(s.txs, m);
    assert (s.txs + [e])[n] == s.txs[n];
    assert Verdict(s.pending, t, s.txs + [e])[n] != (s.txs + [e])[n];
  }

  lemma {:induction false} Misread(s: Scanner, txs: seq<Tx>) returns (k: nat)
    requires AllWritable(txs) && Distinct(txs) && Apart(s, txs) && Known(s) && !CrcsFit(s.pending, txs)
    ensures k <= |Log(txs)| && !Right(s, txs, k)
    decreases |txs|
  {
    hide Apart, Distinct, PendingAfter, Writable, AllWritable, CrcsFit, Right, Verdict, CrcFits, Known, Knows;
    hide Log, After, Entries, TxLines, EntryAt, WalScan.Scan;
    DistinctWritable(txs);
    NoneFit(s.pending, txs);
    var t, rest := txs[0], txs[1..];
    var n := |TxLines(t)|;
    LogLength(txs);
    FirstFits(s.pending, txs);
    ScanFirst(s, txs);
    if !CrcFits(s.pending, t) {
      k := n;
      CutFirst(s, txs, n);
      WrongVerdict(s, t, EntryAt(t, n));
      NotRight(s, txs, n);
    } else {
      var s' := WalScan.Scan(s, TxLines(t));
      VerdictFits(s.pending, t, s.txs + [EntryAt(t, n)]);
      CommittedAt(t);
      KnownAfter(s, t, EntryAt(t, n), s');
      var m := Misread(s', rest);
      if m == 0 { ScanNoLines(s', rest, 0); }
      k := n + m;
      RightLater(s, txs, k);
    }
  }

  lemma NoneFit(pending: map<nat, string>, txs: seq<Tx>)
    ensures txs == [] ==> CrcsFit(pending, txs)
  {
  }

  lemma NotRight(s: Scanner, txs: seq<Tx>, k: nat)
    requires AllWritable(txs) && k <= |Log(txs)| && After(s, txs, k) != s.txs + Entries(txs, k)
    ensures !Right(s, txs, k)
  {
  }

  lemma CommittedAt(t: Tx)
    requires Writable(t)
    ensures |TxLines(t)| >= 1
    ensures var e := EntryAt(t, |TxLines(t)|); e.txId == t.id && (t.ending.Committed? ==> e.committed)
  {
    hide Body, Chop;
  }

  // A log with distinct ids is read right at every cut exactly when each of its CRC lines meets a pending commit line
  // that has its CRC.
  lemma CrashAtomicityIff(txs: seq<Tx>)
    requires Distinct(txs)
    ensures (forall k: nat :: k <= |Log(txs)| ==> WalScan.Scan(START, Log(txs)[..k]).txs == Entries(txs, k)) <==> Serial(txs)
  {
    hide Distinct, CrcsFit, WalScan.Scan, Entries, Log;
    DistinctWritable(txs);
    if Serial(txs) {
      forall k: nat | k <= |Log(txs)| ensures WalScan.Scan(START, Log(txs)[..k]).txs == Entries(txs, k) {
        CrashAtomicity(txs, k);
      }
    } else {
      var k := Misread(START, txs);
      assert [] + Entries(txs, k) == Entries(txs, k);
      assert WalScan.Scan(START, Log(txs)[..k]).txs != Entries(txs, k);
    }
  }

  // ------------------------------------------------------------------------------------------
  // The same condition in terms of ids

  // A commit that has a CRC line has a larger id than the commits before it that have none.
  predicate Rising(txs: seq<Tx>) {
    forall i, j :: 0 <= i < j < |txs| && Unchecked(txs[i]) && Checked(txs[j]) ==> txs[i].id < txs[j].id
  }

  ghost predicate CrcsDiffer(ids: set<nat>) {
    forall i, j :: i in ids && j in ids && i != j ==> Crc(LineBytes(CommitLine(i))) != Crc(LineBytes(CommitLine(j)))
  }

  predicate OwnLines(pending: map<nat, string>) { forall p :: p in pending ==> pending[p] == CommitLine(p) }

  function Ids(txs: seq<Tx>): set<nat> { set i | 0 <= i < |txs| :: txs[i].id }

  predicate Below(pending: map<nat, string>, txs: seq<Tx>) {
    forall j, p :: 0 <= j < |txs| && Checked(txs[j]) && p in pending ==> p < txs[j].id
  }

  // Pending ids, and then the ids of unchecked commits, stay below the ids of the checked commits that follow.
  lemma {:induction false} FitBelow(pending: map<nat, string>, txs: seq<Tx>, ids: set<nat>)
    requires Distinct(txs) && OwnLines(pending) && pending.Keys + Ids(txs) <= ids && CrcsDiffer(ids)
    requires forall j :: 0 <= j < |txs| ==> txs[j].id !in pending
    ensures CrcsFit(pending, txs) <==> Below(pending, txs) && Rising(txs)
    decreases |txs|
  {
    hide CommitLine, Crc, LineBytes, Writable, CrcFits, PendingAfter;
    if txs != [] {
      var t, rest := txs[0], txs[1..];
      DistinctRest(txs);
      assert forall j :: 0 <= j < |rest| ==> rest[j] == txs[j + 1];
      assert t.id in Ids(txs) && Ids(rest) <= Ids(txs);
      FitFirst(pending, t, ids);
      if CrcFits(pending, t) {
        PendingFirst(pending, t);
        FitBelow(PendingAfter(pending, t), rest, ids);
        BelowNext(pending, txs);
      }
    }
  }

  lemma FitFirst(pending: map<nat, string>, t: Tx, ids: set<nat>)
    requires OwnLines(pending) && pending.Keys + {t.id} <= ids && CrcsDiffer(ids) && t.id !in pending
    ensures CrcFits(pending, t) <==> (Checked(t) ==> forall p <- pending :: p < t.id)
  {
    hide CommitLine, Crc, LineBytes;
    var w := Waiting(pending, t);
    var m := Suspect(pending, t);
    assert Largest(w.Keys, m) && t.id in w.Keys;
    assert w[m] == CommitLine(m);
    if m == t.id {
      forall p | p in pending ensures p < t.id { assert p in w.Keys; }
    }
  }

  lemma PendingFirst(pending: map<nat, string>, t: Tx)
    requires OwnLines(pending) && t.id !in pending && (Checked(t) ==> forall p <- pending :: p < t.id)
    ensures PendingAfter(pending, t) == if Unchecked(t) then Waiting(pending, t) else pending
    ensures OwnLines(PendingAfter(pending, t))
  {
    hide CommitLine;
    if Checked(t) { PendingSame(pending, t); }
  }

  lemma BelowNext(pending: map<nat, string>, txs: seq<Tx>)
    requires txs != [] && (Checked(txs[0]) ==> forall p <- pending :: p < txs[0].id)
    requires PendingAfter(pending, txs[0]) == if Unchecked(txs[0]) then Waiting(pending, txs[0]) else pending
    ensures Below(pending, txs) && Rising(txs) <==> Below(PendingAfter(pending, txs[0]), txs[1..]) && Rising(txs[1..])
  {
    hide PendingAfter, CommitLine;
    var t, rest := txs[0], txs[1..];
    assert forall j :: 0 <= j < |rest| ==> rest[j] == txs[j + 1];
    assert forall j :: 1 <= j < |txs| ==> txs[j] == rest[j - 1];
    if Below(pending, txs) && Rising(txs) {
      forall j, p | 0 <= j < |rest| && Checked(rest[j]) && p in PendingAfter(pending, t) ensures p < rest[j].id {
        assert rest[j] == txs[j + 1];
      }
      forall i, j | 0 <= i < j < |rest| && Unchecked(rest[i]) && Checked(rest[j]) ensures rest[i].id < rest[j].id {
        assert rest[i] == txs[i + 1] && rest[j] == txs[j + 1];
      }
    }
    if Below(PendingAfter(pending, t), rest) && Rising(rest) {
      forall j, p | 0 <= j < |txs| && Checked(txs[j]) && p in pending ensures p < txs[j].id {
        if j > 0 { assert p in PendingAfter(pending, t) && txs[j] == rest[j - 1]; }
      }
      forall i, j | 0 <= i < j < |txs| && Unchecked(txs[i]) && Checked(txs[j]) ensures txs[i].id < txs[j].id {
        assert txs[j] == rest[j - 1];
        if i > 0 { assert txs[i] == rest[i - 1]; } else { assert t.id in PendingAfter(pending, t); }
      }
    }
  }

  // Where commit lines have different CRCs, exactly the logs with rising ids are read right.
  lemma SerialIff(txs: seq<Tx>)
    requires Distinct(txs) && CrcsDiffer(Ids(txs))
    ensures Serial(txs) <==> Rising(txs)
  {
    hide CrcsFit, Distinct, CrcsDiffer, Rising;
    FitBelow(map[], txs, Ids(txs));
    assert Below(map[], txs);
  }

  // Rising ids suffice whatever the CRCs are.
  lemma {:induction false} RisingFits(pending: map<nat, string>, txs: seq<Tx>)
    requires Below(pending, txs) && Rising(txs)
    ensures CrcsFit(pending, txs)
    decreases |txs|
  {
    hide CommitLine, Crc, LineBytes, CrcFits, PendingAfter;
    if txs != [] {
      var t, rest := txs[0], txs[1..];
      assert forall j :: 0 <= j < |rest| ==> rest[j] == txs[j + 1];
      if !Unchecked(t) { PendingSame(pending, t); } else { UncheckedFits(pending, t); }
      BelowNext(pending, txs);
      RisingFits(PendingAfter(pending, t), rest);
    }
  }

  lemma UncheckedFits(pending: map<nat, string>, t: Tx)
    requires Unchecked(t)
    ensures CrcFits(pending, t) && PendingAfter(pending, t) == Waiting(pending, t)
  {
  }

  // The CRC line of commit 3 is held against commit line 5: transaction 5 loses its commit, with no damage anywhere.
  lemma WrongCommit()
    ensures var five := Tx(5, None, [], Committed(false, None));
            var three := Tx(3, None, [], Committed(true, None));
            Distinct([five, three])
            && WalScan.Scan(START, Log([five, three])).txs == [TxEntry(5, false, false, []), TxEntry(3, true, false, [])]
  {
    hide WalScan.Scan, Step, Crc, Print, Chop, CrcFits, Verdict;
    var five, three := Tx(5, None, [], Committed(false, None)), Tx(3, None, [], Committed(true, None));
    var s := WalScan.Scan(START, TxLines(five));
    LogOfTwo(five, three);
    ScanConcat(START, TxLines(five), TxLines(three));
    EmptyEntry(five);
    EmptyEntry(three);
    ScanTx(START, five, |TxLines(five)|);
    NoVerdict(START, five, START.txs + [TxEntry(5, true, false, [])]);
    assert START.txs + [TxEntry(5, true, false, [])] == [TxEntry(5, true, false, [])];
    ScanTx(s, three, |TxLines(three)|);
    assert s.pending == map[5 := CommitLine(5)];
    Misfit(s.pending, three);
    FirstFive(TxEntry(5, true, false, []));
    WrongVerdict(s, three, TxEntry(3, true, false, []));
  }

  lemma LogOfTwo(a: Tx, b: Tx)
    requires Writable(a) && Writable(b)
    ensures AllWritable([a, b]) && Log([a, b]) == TxLines(a) + TxLines(b)
  {
    hide TxLines, Writable;
    assert [a, b][1..] == [b] && [b][1..] == [];
    assert Log([b]) == TxLines(b) + Log([]);
  }

  lemma EmptyEntry(t: Tx)
    requires t.stamp.None? && t.ops == [] && t.id < TWO64 && t.ending.Committed?
    ensures Writable(t) && |TxLines(t)| >= 1 && EntryAt(t, |TxLines(t)|) == TxEntry(t.id, true, false, [])
  {
    hide Print, Crc;
    assert Body(t) == [];
  }

  lemma FirstFive(e: TxEntry)
    requires e.txId == 5
    ensures FirstOf([e], 5) == 0
  {
  }

  lemma CommitDigit(id: nat)
    requires id < 10
    ensures CommitLine(id) == "TX_COMMIT:" + [Digit(id)] && |CommitLine(id)| == 11
  {
  }

  // Commit lines of different one-digit ids differ in one byte, and so in their CRCs.
  lemma DigitsDiffer(a: nat, b: nat)
    requires a < 10 && b < 10 && a != b
    ensures Crc(LineBytes(CommitLine(a))) != Crc(LineBytes(CommitLine(b)))
  {
    hide Crc, CommitLine;
    CommitDigit(a);
    CommitDigit(b);
    var x, y := LineBytes(CommitLine(a)), LineBytes(CommitLine(b));
    assert x[10] == 48 + a && y[10] == 48 + b;
    FourBytes(x, y, 10);
  }

  lemma Misfit(pending: map<nat, string>, t: Tx)
    requires t.id == 3 && Checked(t) && pending == map[5 := CommitLine(5)]
    ensures !CrcFits(pending, t) && Suspect(pending, t) == 5
  {
    hide Crc, CommitLine, LineBytes;
    var w := Waiting(pending, t);
    assert w.Keys == {3, 5} && Largest(w.Keys, Suspect(pending, t));
    DigitsDiffer(5, 3);
  }
}
