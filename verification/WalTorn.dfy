/** A log file cut at any byte: its last line may be torn, and what is left of it can read as another line. */
module WalTorn {
  import opened Text
  import opened Fields
  import opened Decimal
  import opened Bytes
  import opened WalCrc
  import opened WalScan
  import opened WalOps
  import opened WalLog
  import opened WalRecovery
  import opened WalDamage

  // ------------------------------------------------------------------------------------------
  // Cutting a file

  // The number of whole lines among the first m characters; a line may lack its line break.
  function Whole(lines: seq<string>, m: nat): (n: nat)
    ensures n <= |lines|
    decreases |lines|
  {
    if lines == [] || m < |lines[0]| then 0
    else 1 + if m == |lines[0]| then 0 else Whole(lines[1..], m - |lines[0]| - 1)
  }

  // What there is of the line after them
  function Torn(lines: seq<string>, m: nat): string
    decreases |lines|
  {
    if lines == [] then ""
    else if m < |lines[0]| then lines[0][..m]
    else if m == |lines[0]| then ""
    else Torn(lines[1..], m - |lines[0]| - 1)
  }

  predicate AllFilled(lines: seq<string>) { forall i :: 0 <= i < |lines| ==> lines[i] != "" }

  function TornLine(torn: string): seq<string> { if torn == "" then [] else [torn] }

  lemma {:induction false} TornIsPart(lines: seq<string>, m: nat)
    requires Torn(lines, m) != ""
    ensures Whole(lines, m) < |lines| && Torn(lines, m) < lines[Whole(lines, m)]
    decreases |lines|
  {
    if m > |lines[0]| { TornIsPart(lines[1..], m - |lines[0]| - 1); }
  }

  lemma {:induction false} CutFile(lines: seq<string>, m: nat)
    requires AllFree(lines, '\n') && AllFilled(lines) && m <= |Terminated(lines, '\n')|
    ensures GetLines(Terminated(lines, '\n')[..m], '\n') == lines[..Whole(lines, m)] + TornLine(Torn(lines, m))
    decreases |lines|
  {
    hide GetLines, Terminated, Whole, Torn, Free;
    if lines == [] {
      CutNothing(m);
    } else {
      FileHead(lines, m);
      if m <= |lines[0]| {
        SplitOnly(lines[0][..m], '\n');
        CutShort(lines, m);
      } else {
        var rest, n := lines[1..], m - |lines[0]| - 1;
        SplitFirst(lines[0], '\n', Terminated(rest, '\n')[..n]);
        CutFile(rest, n);
        CutLong(lines, m);
      }
    }
  }

  lemma CutNothing(m: nat)
    requires m <= |Terminated([], '\n')|
    ensures GetLines(Terminated([], '\n')[..m], '\n') == [][..Whole([], m)] + TornLine(Torn([], m))
  {
  }

  lemma FileHead(lines: seq<string>, m: nat)
    requires lines != [] && AllFree(lines, '\n') && AllFilled(lines) && m <= |Terminated(lines, '\n')|
    ensures AllFree(lines[1..], '\n') && AllFilled(lines[1..]) && Free(lines[0], '\n') && lines[0] != ""
    ensures m <= |lines[0]| ==> Terminated(lines, '\n')[..m] == lines[0][..m] && Free(lines[0][..m], '\n')
    ensures m > |lines[0]| ==>
              var n := m - |lines[0]| - 1;
              n <= |Terminated(lines[1..], '\n')|
              && Terminated(lines, '\n')[..m] == lines[0] + ['\n'] + Terminated(lines[1..], '\n')[..n]
  {
    assert Terminated(lines, '\n') == lines[0] + ['\n'] + Terminated(lines[1..], '\n');
    hide Terminated;
  }

  lemma CutLong(lines: seq<string>, m: nat)
    requires lines != [] && m > |lines[0]|
    ensures var rest, n := lines[1..], m - |lines[0]| - 1;
            lines[..Whole(lines, m)] + TornLine(Torn(lines, m))
            == [lines[0]] + (rest[..Whole(rest, n)] + TornLine(Torn(rest, n)))
  {
    var rest, n := lines[1..], m - |lines[0]| - 1;
    assert Whole(lines, m) == 1 + Whole(rest, n) && Torn(lines, m) == Torn(rest, n);
    hide Whole, Torn;
    assert lines[..1 + Whole(rest, n)] == [lines[0]] + rest[..Whole(rest, n)];
    Regroup([lines[0]], rest[..Whole(rest, n)], TornLine(Torn(rest, n)));
  }

  lemma CutShort(lines: seq<string>, m: nat)
    requires lines != [] && lines[0] != "" && m <= |lines[0]|
    ensures lines[..Whole(lines, m)] + TornLine(Torn(lines, m)) == if m == 0 then [] else [lines[0][..m]]
  {
    if m == |lines[0]| { assert lines[0][..m] == lines[0] && lines[..1] == [lines[0]]; } else { assert lines[..0] == []; }
  }

  // ------------------------------------------------------------------------------------------
  // What a torn line changes

  // The committed transactions, as recovery sees them
  function View(txs: seq<TxEntry>): seq<(nat, seq<seq<string>>)> {
    if txs == [] then [] else (if txs[0].committed then [(txs[0].txId, txs[0].opBlocks)] else []) + View(txs[1..])
  }

  lemma {:induction false} ViewDecides(rd: Reader, a: seq<TxEntry>, b: seq<TxEntry>)
    requires View(a) == View(b)
    ensures CommittedOps(rd, a) == CommittedOps(rd, b)
    decreases |a| + |b|
  {
    hide BlockOps;
    if a != [] && !a[0].committed {
      assert [] + View(a[1..]) == View(a[1..]) && [] + CommittedOps(rd, a[1..]) == CommittedOps(rd, a[1..]);
      ViewDecides(rd, a[1..], b);
    } else if b != [] && !b[0].committed {
      assert [] + View(b[1..]) == View(b[1..]) && [] + CommittedOps(rd, b[1..]) == CommittedOps(rd, b[1..]);
      ViewDecides(rd, a, b[1..]);
    } else if a != [] && b != [] {
      assert View(a)[1..] == View(a[1..]) && View(b)[1..] == View(b[1..]);
      assert View(a)[0] == View(b)[0];
      ViewDecides(rd, a[1..], b[1..]);
    }
  }

  lemma {:induction false} ViewUpdate(txs: seq<TxEntry>, n: nat, e: TxEntry)
    requires n < |txs|
    ensures e.committed == txs[n].committed && e.txId == txs[n].txId && e.opBlocks == txs[n].opBlocks ==>
              View(txs[n := e]) == View(txs)
    ensures e.committed && !txs[n].committed ==> |View(txs[n := e])| == |View(txs)| + 1
    ensures !e.committed && txs[n].committed ==> |View(txs[n := e])| == |View(txs)| - 1
    decreases n
  {
    var r := txs[n := e];
    if n == 0 {
      assert r[1..] == txs[1..];
    } else {
      assert r[0] == txs[0] && r[1..] == txs[1..][n - 1 := e];
      ViewUpdate(txs[1..], n - 1, e);
    }
  }

  lemma {:induction false} ViewAppend(txs: seq<TxEntry>, e: TxEntry)
    requires !e.committed
    ensures View(txs + [e]) == View(txs)
  {
    if txs == [] {
      assert [] + [e] == [e] && [e][1..] == [];
    } else {
      assert (txs + [e])[1..] == txs[1..] + [e];
      ViewAppend(txs[1..], e);
    }
  }

  // The scanner has this id, and counts it as committed or not.
  predicate Has(txs: seq<TxEntry>, id: nat, committed: bool) {
    var n := FirstOf(txs, id); n < |txs| && txs[n].committed == committed
  }

  // The torn line is no commit line of a transaction without commit, and no CRC line that takes a commit back.
  ghost predicate Harmless(s: Scanner, torn: string) {
    match KindOf(Chomp(torn))
    case Commit(id) => !Has(s.txs, id, false)
    case Check(crc) =>
      s.pending == map[] || LineCrc(s.pending[LastKey(s.pending.Keys)]) == crc || !Has(s.txs, LastKey(s.pending.Keys), true)
    case _ => true
  }

  lemma MarkView(txs: seq<TxEntry>, id: nat, flag: bool)
    ensures View(MarkCommit(txs, id, flag)) == View(txs) <==> !Has(txs, id, !flag)
    ensures View(MarkRollback(txs, id)) == View(txs)
  {
    hide FirstOf, View;
    var n := FirstOf(txs, id);
    if n < |txs| {
      ViewUpdate(txs, n, txs[n].(committed := flag));
      ViewUpdate(txs, n, txs[n].(rolledBack := true));
    }
  }

  // One more line leaves the committed transactions as they are exactly when it is harmless.
  lemma TornStep(s: Scanner, torn: string)
    requires Chomp(torn) != "" && KindOf(Chomp(torn)) != Separator
    ensures View(Step(s, torn).txs) == View(s.txs) <==> Harmless(s, torn)
  {
    hide KindOf, Chomp, MarkCommit, MarkRollback, View, Has, Crc, LineBytes;
    match KindOf(Chomp(torn))
    case Begin(id) => ViewAppend(s.txs, TxEntry(id, false, false, []));
    case Commit(id) => MarkView(s.txs, id, true);
    case Check(crc) => if s.pending != map[] { MarkView(s.txs, LastKey(s.pending.Keys), false); }
    case Rollback(id) => MarkView(s.txs, id, true);
    case _ =>
  }

  // ------------------------------------------------------------------------------------------
  // The lines of a log

  // Not empty, no line break, and no separator with more behind it
  predicate Headed(line: string) { line != "" && Free(line, '\n') && (line[0] == '-' ==> line == "---") && '\r' != line[0] }

  predicate AllHeaded(lines: seq<string>) { forall i :: 0 <= i < |lines| ==> Headed(lines[i]) }

  lemma HeadedConcat(a: seq<string>, b: seq<string>)
    requires AllHeaded(a) && AllHeaded(b)
    ensures AllHeaded(a + b)
  {
    hide Headed;
  }

  predicate Lettered(line: string) { line != "" && 'A' <= line[0] <= 'Z' }

  predicate AllLettered(lines: seq<string>) { forall i :: 0 <= i < |lines| ==> Lettered(lines[i]) }

  lemma OpLettered(op: Op)
    requires Printable(op)
    ensures AllLettered(OpLines(op))
  {
    hide WalEscape, Print, AlterText;
    ValuesLettered(op.values);
    hide ValueLines;
  }

  lemma {:induction false} ValuesLettered(values: seq<string>)
    ensures AllLettered(ValueLines(values))
  {
    hide WalEscape;
    if values != [] { ValuesLettered(values[1..]); }
  }

  lemma {:induction false} OpsHeaded(ops: seq<Op>)
    requires AllPrintable(ops)
    ensures AllHeaded(OpsLines(ops))
  {
    hide Printable, OpLines, Lettered, Free;
    if ops != [] {
      assert Printable(ops[0]);
      OpTypeFits(ops[0]);
      OpOneLine(ops[0]);
      OneLineFree(OpLines(ops[0]));
      OpLettered(ops[0]);
      LetteredHeaded(OpLines(ops[0]));
      SeparatorHeaded();
      HeadedConcat(OpLines(ops[0]), ["---"]);
      OpsHeaded(ops[1..]);
      HeadedConcat(OpLines(ops[0]) + ["---"], OpsLines(ops[1..]));
    }
  }

  lemma LetteredHeaded(lines: seq<string>)
    requires AllFree(lines, '\n') && AllLettered(lines)
    ensures AllHeaded(lines)
  {
  }

  lemma SeparatorHeaded()
    ensures AllHeaded(["---"])
  {
  }

  lemma TxHeaded(t: Tx)
    requires Writable(t)
    ensures AllHeaded(TxLines(t))
  {
    hide Print, Crc, OpsLines, LineBytes, Free, AllHeaded, StampText;
    IdFits(t);
    OpsHeaded(t.ops);
    TxLinesFree(t);
    FrontLettered(t);
    EndLettered(t);
    var front, end := ["TX_BEGIN:" + Print(t.id)] + StampLines(t), EndLines(t);
    assert TxLines(t) == front + OpsLines(t.ops) + end;
    FreeParts(front, OpsLines(t.ops), end);
    LetteredHeaded(front);
    LetteredHeaded(end);
    HeadedConcat(front, OpsLines(t.ops));
    HeadedConcat(front + OpsLines(t.ops), end);
  }

  lemma FreeParts(a: seq<string>, b: seq<string>, c: seq<string>)
    requires AllFree(a + b + c, '\n')
    ensures AllFree(a, '\n') && AllFree(c, '\n')
  {
    hide Free;
    var x := a + b + c;
    assert forall i :: 0 <= i < |a| ==> x[i] == a[i];
    assert forall i :: 0 <= i < |c| ==> x[|a| + |b| + i] == c[i];
  }

  lemma StampLettered(stamp: Option<nat>)
    ensures AllLettered(StampText(stamp))
  {
    hide Print;
  }

  lemma FrontLettered(t: Tx)
    ensures AllLettered(["TX_BEGIN:" + Print(t.id)] + StampLines(t))
  {
    hide Print, StampText;
    StampLettered(t.stamp);
  }

  lemma EndLettered(t: Tx)
    ensures AllLettered(EndLines(t))
  {
    hide Print, StampText, Crc, LineBytes;
    if t.ending.Committed? { StampLettered(t.ending.stamped); }
  }

  lemma {:induction false} LogHeaded(txs: seq<Tx>)
    requires AllWritable(txs)
    ensures AllHeaded(Log(txs))
  {
    hide TxLines, Writable, AllHeaded;
    if txs != [] {
      TxHeaded(txs[0]);
      LogHeaded(txs[1..]);
      HeadedConcat(TxLines(txs[0]), Log(txs[1..]));
    } else {
      NothingHeaded();
    }
  }

  lemma NothingHeaded()
    ensures AllHeaded([])
  {
  }

  // A torn line is neither empty nor a separator.
  lemma TornHeaded(line: string, torn: string)
    requires Headed(line) && torn < line && torn != ""
    ensures Chomp(torn) != "" && KindOf(Chomp(torn)) != Separator
  {
    var t := Chomp(torn);
    assert |torn| < |line| && torn == line[..|torn|];
    assert t != "" && t[0] == line[0];
  }

  // ------------------------------------------------------------------------------------------
  // Crashes at any byte

  function File(txs: seq<Tx>): string
    requires AllWritable(txs)
  {
    Terminated(Log(txs), '\n')
  }

  ghost function Behind(txs: seq<Tx>, k: nat): Scanner
    requires AllWritable(txs) && k <= |Log(txs)|
  {
    WalScan.Scan(START, Log(txs)[..k])
  }

  // The file cut at byte m: the whole lines, and what is left of the next one
  lemma ByteCut(txs: seq<Tx>, m: nat)
    requires AllWritable(txs) && m <= |File(txs)|
    ensures var s, torn := Behind(txs, Whole(Log(txs), m)), Torn(Log(txs), m);
            WalScan.Scan(START, GetLines(File(txs)[..m], '\n')) == if torn == "" then s else Step(s, torn)
    ensures var torn := Torn(Log(txs), m); torn != "" ==> Chomp(torn) != "" && KindOf(Chomp(torn)) != Separator
  {
    hide WalScan.Scan, Step, Log, Terminated, GetLines, Whole, Torn, KindOf, Chomp, Free;
    LogHeaded(txs);
    HeadedFilled(Log(txs));
    CutFile(Log(txs), m);
    var k, torn := Whole(Log(txs), m), Torn(Log(txs), m);
    if torn == "" {
      assert Log(txs)[..k] + [] == Log(txs)[..k];
    } else {
      TornIsPart(Log(txs), m);
      assert Headed(Log(txs)[k]);
      TornHeaded(Log(txs)[k], torn);
      ScanConcat(START, Log(txs)[..k], [torn]);
      ScanOne(Behind(txs, k), torn);
    }
  }

  lemma HeadedFilled(lines: seq<string>)
    requires AllHeaded(lines)
    ensures AllFilled(lines) && AllFree(lines, '\n')
  {
    hide Free;
  }

  // The torn line, if there is one, changes nothing that counts.
  ghost predicate Clear(s: Scanner, torn: string) { torn == "" || Harmless(s, torn) }

  // A crash at any byte leaves the committed transactions of the whole lines exactly when the torn line is harmless.
  lemma ByteCrashIff(txs: seq<Tx>, m: nat)
    requires Serial(txs) && m <= |File(txs)|
    ensures var k := Whole(Log(txs), m);
            View(WalScan.Scan(START, GetLines(File(txs)[..m], '\n')).txs) == View(Entries(txs, k))
            <==> Clear(Behind(txs, k), Torn(Log(txs), m))
  {
    hide WalScan.Scan, Step, Log, File, GetLines, Whole, Torn, KindOf, Chomp, View, Entries, Harmless, Serial;
    SerialWritable(txs);
    ByteCut(txs, m);
    var k, torn := Whole(Log(txs), m), Torn(Log(txs), m);
    CrashAtomicity(txs, k);
    if torn != "" { TornStep(Behind(txs, k), torn); }
  }

  // Recovery then applies the operations of exactly the transactions whose commit line was written.
  lemma ByteCrashDurable(rd: Reader, txs: seq<Tx>, m: nat)
    requires Serial(txs) && m <= |File(txs)| && Clear(Behind(txs, Whole(Log(txs), m)), Torn(Log(txs), m))
    ensures CommittedOps(rd, WalScan.Scan(START, GetLines(File(txs)[..m], '\n')).txs)
         == BackOps(rd, DurableOps(txs, Whole(Log(txs), m)))
  {
    hide WalScan.Scan, Log, File, GetLines, Whole, Torn, View, Entries, Serial, Clear, CommittedOps, BackOps, DurableOps;
    SerialWritable(txs);
    ByteCrashIff(txs, m);
    ViewDecides(rd, WalScan.Scan(START, GetLines(File(txs)[..m], '\n')).txs, Entries(txs, Whole(Log(txs), m)));
    DurableEntries(rd, txs, Whole(Log(txs), m));
  }

  // ------------------------------------------------------------------------------------------
  // Torn lines that are not harmless

  // The number read from the front digits of a number is smaller.
  lemma {:induction false} FrontDigits(n: nat, j: nat) returns (v: nat)
    requires 0 < j < |Print(n)|
    ensures v < n && Print(n)[..j] == Print(v)
    decreases n
  {
    assert n >= 10;
    if j == |Print(n)| - 1 {
      v := n / 10;
      assert Print(n)[..j] == Print(v);
    } else {
      assert Print(n)[..j] == Print(n / 10)[..j];
      v := FrontDigits(n / 10, j);
    }
  }

  // A CRC line torn between its digits always takes its commit back.
  lemma TornCrc(s: Scanner, line: string, j: nat)
    requires s.pending != map[] && LineCrc(s.pending[LastKey(s.pending.Keys)]) == LineCrc(line)
    requires Has(s.txs, LastKey(s.pending.Keys), true) && 0 < j < |Print(LineCrc(line))|
    ensures var torn := CrcLine(line)[..4 + j];
            !Harmless(s, torn) && Step(s, torn).txs == MarkCommit(s.txs, LastKey(s.pending.Keys), false)
  {
    hide Crc, LineBytes, Print, Has, MarkCommit, KindOf, Chomp;
    var n := LineCrc(line);
    var v := FrontDigits(n, j);
    CrcWord(LineBytes(line));
    KindOfCheck(v);
    assert CrcLine(line)[..4 + j] == "CRC:" + Print(v);
    assert "CRC:" + Print(v) != "";
  }

  // The lines of a committed transaction up to its CRC line
  function Acknowledged(t: Tx): seq<string>
    requires Writable(t) && Checked(t)
  {
    ["TX_BEGIN:" + Print(t.id)] + Body(t) + ([CommitLine(t.id)] + StampText(t.ending.stamped))
  }

  lemma ScanAcknowledged(t: Tx)
    requires Writable(t) && Checked(t)
    ensures var s := WalScan.Scan(START, Acknowledged(t));
            s.txs == [] + [TxEntry(t.id, true, false, Blocks(t))] && s.pending == map[][t.id := CommitLine(t.id)]
  {
    hide WalScan.Scan, Step, Body, Blocks, CommitLine, Print, Chop, StampText, AllQuiet, Writable;
    var line, mid := CommitLine(t.id), StampText(t.ending.stamped);
    var begin := ["TX_BEGIN:" + Print(t.id)] + Body(t);
    assert Body(t)[..|Body(t)|] == Body(t);
    IdFits(t);
    ScanOpen(START, t, |Body(t)|);
    ChopBody(t);
    var s := WalScan.Scan(START, begin);
    ScanConcat(START, begin, [line] + mid);
    ScanConcat(s, [line], mid);
    ScanOne(s, line);
    ScanCommit(s, [], TxEntry(t.id, false, false, Blocks(t)), t.id);
    StampQuiet(t.ending.stamped);
    ScanQuiet(Step(s, line), mid);
  }

  // So a crash inside the CRC line loses a transaction whose commit line is whole.
  lemma TornCrcLoses(t: Tx, j: nat)
    requires Writable(t) && Checked(t) && 0 < j < |Print(LineCrc(CommitLine(t.id)))|
    ensures var line := CrcLine(CommitLine(t.id));
            4 + j < |line| && WalScan.Scan(START, Acknowledged(t) + [line]).txs == [TxEntry(t.id, true, false, Blocks(t))]
            && WalScan.Scan(START, Acknowledged(t) + [line[..4 + j]]).txs == [TxEntry(t.id, false, false, Blocks(t))]
  {
    hide WalScan.Scan, Step, Acknowledged, Blocks, CommitLine, Print, Crc, LineBytes, Harmless, Has, MarkCommit, FirstOf,
      Writable;
    var line := CommitLine(t.id);
    var e := TxEntry(t.id, true, false, Blocks(t));
    var s := WalScan.Scan(START, Acknowledged(t));
    var torn := CrcLine(line)[..4 + j];
    ScanAcknowledged(t);
    OnlyPending(s, e, line);
    ScanConcat(START, Acknowledged(t), [torn]);
    ScanConcat(START, Acknowledged(t), [CrcLine(line)]);
    ScanOne(s, torn);
    ScanOne(s, CrcLine(line));
    StepCheck(s, line);
    TornCrc(s, line, j);
    MarkOnly(e);
    assert [] + [e] == [e];
  }

  lemma OnlyPending(s: Scanner, e: TxEntry, line: string)
    requires s.txs == [] + [e.(committed := true)] && s.pending == map[][e.txId := line]
    ensures s.pending != map[] && LastKey(s.pending.Keys) == e.txId && s.pending[e.txId] == line && Has(s.txs, e.txId, true)
  {
    assert s.pending.Keys == {e.txId};
    assert FirstOf(s.txs, e.txId) == 0;
  }

  lemma MarkOnly(e: TxEntry)
    ensures MarkCommit([] + [e.(committed := true)], e.txId, false) == [e.(committed := false)]
  {
    assert FirstOf([] + [e.(committed := true)], e.txId) == 0;
  }

  // The commit line of an id with one more digit begins with the commit line of the id without it.
  lemma ShorterId(id: nat, d: nat)
    requires id > 0 && d < 10
    ensures CommitLine(id) < CommitLine(10 * id + d)
  {
    assert Print(10 * id + d) == Print(id) + [Digit(d)];
    assert CommitLine(10 * id + d) == CommitLine(id) + [Digit(d)];
  }

  // Torn behind that digit, the commit line of one transaction commits another one that never ended.
  lemma TornCommits(a: Tx, b: Tx, d: nat)
    requires Writable(a) && Writable(b) && a.ending.Unfinished? && a.id > 0 && d < 10 && b.id == 10 * a.id + d
    ensures CommitLine(a.id) < CommitLine(b.id)
    ensures WalScan.Scan(START, TxLines(a) + (["TX_BEGIN:" + Print(b.id)] + Body(b)) + [CommitLine(a.id)]).txs
         == [TxEntry(a.id, true, false, Blocks(a)), TxEntry(b.id, false, false, Blocks(b))]
  {
    hide WalScan.Scan, Step, TxLines, Body, Blocks, CommitLine, Print, Writable;
    ShorterId(a.id, d);
    IdFits(a);
    ScanOpenTwo(a, b);
    ThenCommit(TxLines(a) + (["TX_BEGIN:" + Print(b.id)] + Body(b)), TxEntry(a.id, false, false, Blocks(a)),
               TxEntry(b.id, false, false, Blocks(b)));
  }

  lemma ThenCommit(lines: seq<string>, e: TxEntry, f: TxEntry)
    requires e.txId < TWO64 && WalScan.Scan(START, lines).txs == [e, f]
    ensures WalScan.Scan(START, lines + [CommitLine(e.txId)]).txs == [e.(committed := true), f]
  {
    hide WalScan.Scan, Step, CommitLine, MarkCommit, Chomp, KindOf;
    var s := WalScan.Scan(START, lines);
    ScanConcat(START, lines, [CommitLine(e.txId)]);
    ScanOne(s, CommitLine(e.txId));
    KindOfCommit(e.txId);
    NonEmptyCommit(e.txId);
    StepCommit(s, CommitLine(e.txId));
    MarkFirst(e, f);
  }

  lemma ScanOpenTwo(a: Tx, b: Tx)
    requires Writable(a) && Writable(b) && a.ending.Unfinished?
    ensures WalScan.Scan(START, TxLines(a) + (["TX_BEGIN:" + Print(b.id)] + Body(b))).txs
         == [TxEntry(a.id, false, false, Blocks(a)), TxEntry(b.id, false, false, Blocks(b))]
  {
    hide WalScan.Scan, TxLines, Body, Blocks, Print, Chop, Writable;
    var begin := ["TX_BEGIN:" + Print(b.id)] + Body(b);
    ScanConcat(START, TxLines(a), begin);
    ScanUnfinished(a);
    ChopBody(b);
    assert Body(b)[..|Body(b)|] == Body(b);
    ScanOpen(WalScan.Scan(START, TxLines(a)), b, |Body(b)|);
  }

  lemma ScanUnfinished(a: Tx)
    requires Writable(a) && a.ending.Unfinished?
    ensures WalScan.Scan(START, TxLines(a)).txs == [TxEntry(a.id, false, false, Blocks(a))]
  {
    hide WalScan.Scan, TxLines, Body, Blocks, Chop, Writable, EntryAt;
    LinesNonEmpty(a);
    FullAt(a);
    ChopBody(a);
    ScanTx(START, a, |TxLines(a)|);
    NoVerdict(START, a, START.txs + [FullEntry(a)]);
    assert START.txs + [FullEntry(a)] == [FullEntry(a)];
  }

  lemma MarkFirst(e: TxEntry, f: TxEntry)
    ensures MarkCommit([e, f], e.txId, true) == [e.(committed := true), f]
  {
    assert FirstOf([e, f], e.txId) == 0;
  }
}
