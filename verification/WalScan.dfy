/** `scanWal`: reading the write-ahead log back into transactions, line by line. */
module WalScan {
  import opened Text
  import opened Decimal
  import opened Bytes
  import opened WalCrc

  datatype TxEntry = TxEntry(txId: nat, committed: bool, rolledBack: bool, opBlocks: seq<seq<string>>)

  // One carriage return at the end of a line is dropped.
  function Chomp(line: string): string {
    if line != "" && line[|line| - 1] == '\r' then line[..|line| - 1] else line
  }

  function LineBytes(line: string): seq<byte> {
    seq(|line|, i requires 0 <= i < |line| => (line[i] as int % 256) as byte)
  }

  datatype Kind = Begin(id: nat) | Commit(id: nat) | Check(crc: nat) | Rollback(id: nat) | Separator | Data

  // The line starts with the tag and goes on after it.
  predicate Tagged(line: string, tag: string) {
    |line| > |tag| && forall i :: 0 <= i < |tag| ==> line[i] == tag[i]
  }

  // A number that cannot be read counts as 0.
  function NumberIn(s: string): nat {
    match StoULL(s) case Some(n) => n case None => 0
  }

  function KindOf(line: string): Kind {
    if Tagged(line, "TX_BEGIN:") then Begin(NumberIn(line[9..]))
    else if Tagged(line, "TX_COMMIT:") then Commit(NumberIn(line[10..]))
    else if Tagged(line, "CRC:") then Check(NumberIn(line[4..]) % TWO32)
    else if Tagged(line, "TX_ROLLBACK:") then Rollback(NumberIn(line[12..]))
    else if line == "---" then Separator
    else Data
  }

  // Position of the first transaction with an id, or the length
  function FirstOf(txs: seq<TxEntry>, id: nat): (n: nat)
    ensures n <= |txs| && (n < |txs| ==> txs[n].txId == id)
    ensures forall k :: 0 <= k < n ==> txs[k].txId != id
  {
    if txs == [] || txs[0].txId == id then 0 else 1 + FirstOf(txs[1..], id)
  }

  function MarkCommit(txs: seq<TxEntry>, id: nat, flag: bool): seq<TxEntry> {
    var n := FirstOf(txs, id);
    if n < |txs| then txs[n := txs[n].(committed := flag)] else txs
  }

  function MarkRollback(txs: seq<TxEntry>, id: nat): seq<TxEntry> {
    var n := FirstOf(txs, id);
    if n < |txs| then txs[n := txs[n].(rolledBack := true)] else txs
  }

  // `open`: the last transaction still takes op lines, which gather in `block`.
  // `pending`: commit lines whose CRC line has not come yet.
  datatype Scanner = Scanner(txs: seq<TxEntry>, open: bool, block: seq<string>, pending: map<nat, string>)

  const START := Scanner([], false, [], map[])

  ghost predicate Largest(keys: set<nat>, k: nat) { k in keys && forall j <- keys :: j <= k }

  // The entry at the end of the ordered map
  ghost function LastKey(keys: set<nat>): (k: nat)
    requires keys != {}
    ensures Largest(keys, k)
  {
    ExtremeExists(keys, true);
    var k :| Extreme(keys, k, true);
    k
  }

  ghost function CheckCrc(s: Scanner, crc: nat): Scanner {
    if s.pending == map[] then s
    else
      var k := LastKey(s.pending.Keys);
      var txs := if Crc(LineBytes(s.pending[k])) != crc then MarkCommit(s.txs, k, false) else s.txs;
      s.(txs := txs, pending := s.pending - {k})
  }

  ghost function Take(s: Scanner, line: string): Scanner {
    match KindOf(line)
    case Begin(id) => s.(txs := s.txs + [TxEntry(id, false, false, [])], open := true, block := [])
    case Commit(id) =>
      Scanner(MarkCommit(s.txs, id, true), false, [], s.pending[id := line])
    case Check(crc) => CheckCrc(s, crc)
    case Rollback(id) => Scanner(MarkRollback(s.txs, id), false, [], s.pending)
    case Separator =>
      if !s.open || s.block == [] || s.txs == [] then s
      else
        var n := |s.txs| - 1;
        s.(txs := s.txs[n := s.txs[n].(opBlocks := s.txs[n].opBlocks + [s.block])], block := [])
    case Data => if s.open then s.(block := s.block + [line]) else s
  }

  ghost function Step(s: Scanner, raw: string): Scanner {
    var line := Chomp(raw);
    if line == "" then s else Take(s, line)
  }

  ghost function Scan(s: Scanner, lines: seq<string>): Scanner
    decreases |lines|
  {
    if lines == [] then s else Scan(Step(s, lines[0]), lines[1..])
  }

  lemma {:induction false} ScanConcat(s: Scanner, a: seq<string>, b: seq<string>)
    ensures Scan(s, a + b) == Scan(Scan(s, a), b)
    decreases |a|
  {
    if a == [] {
      assert a + b == b;
    } else {
      assert (a + b)[1..] == a[1..] + b;
      ScanConcat(Step(s, a[0]), a[1..], b);
    }
  }

  // Lines of operations in front of the first TX_BEGIN belong to no transaction.
  lemma {:induction false} BeforeBegin(lines: seq<string>)
    requires forall k :: 0 <= k < |lines| ==> KindOf(Chomp(lines[k])) == Data || KindOf(Chomp(lines[k])) == Separator
    ensures Scan(START, lines) == START && START.txs == []
  {
    hide KindOf, Chomp;
    if lines != [] { BeforeBegin(lines[1..]); }
  }

  // A number that cannot be read counts as 0.
  lemma UnreadableIsZero(t: string)
    requires StoULL(t) == None && t != ""
    ensures KindOf("TX_BEGIN:" + t) == Begin(0) && KindOf("TX_COMMIT:" + t) == Commit(0)
    ensures KindOf("CRC:" + t) == Check(0) && KindOf("TX_ROLLBACK:" + t) == Rollback(0)
  {
    hide StoULL;
    assert ("TX_BEGIN:" + t)[9..] == t && ("TX_COMMIT:" + t)[10..] == t && ("CRC:" + t)[4..] == t;
    assert ("TX_ROLLBACK:" + t)[12..] == t;
    assert ("TX_COMMIT:" + t)[3] == 'C' && ("TX_ROLLBACK:" + t)[3] == 'R' && ("CRC:" + t)[0] == 'C';
  }

  // ------------------------------------------------------------------------------------------
  // The loops of scanWal

  method SetCommitted(txs: seq<TxEntry>, id: nat, flag: bool) returns (r: seq<TxEntry>)
    ensures r == MarkCommit(txs, id, flag)
  {
    hide FirstOf;
    var i: nat := 0;
    while i < |txs|
      invariant i <= |txs| && forall k :: 0 <= k < i ==> txs[k].txId != id
    {
      if txs[i].txId == id {
        return txs[i := txs[i].(committed := flag)];
      }
      i := i + 1;
    }
    return txs;
  }

  method SetRolledBack(txs: seq<TxEntry>, id: nat) returns (r: seq<TxEntry>)
    ensures r == MarkRollback(txs, id)
  {
    hide FirstOf;
    var i: nat := 0;
    while i < |txs|
      invariant i <= |txs| && forall k :: 0 <= k < i ==> txs[k].txId != id
    {
      if txs[i].txId == id {
        return txs[i := txs[i].(rolledBack := true)];
      }
      i := i + 1;
    }
    return txs;
  }

  method LastPending(pending: map<nat, string>) returns (k: nat)
    requires pending != map[]
    ensures k == LastKey(pending.Keys)
  {
    ExtremeExists(pending.Keys, true);
    assert exists k :: Largest(pending.Keys, k) by { var k :| Extreme(pending.Keys, k, true); assert Largest(pending.Keys, k); }
    k :| k in pending.Keys && forall j <- pending.Keys :: j <= k;
  }

  method ScanWal(lines: seq<string>) returns (txList: seq<TxEntry>)
    ensures txList == Scan(START, lines).txs
  {
    hide Scan, Crc, LineBytes;
    txList := [];
    var current := false;
    var block: seq<string> := [];
    var pendingCommitLines: map<nat, string> := map[];
    var i: nat := 0;
    assert lines[0..] == lines;
    while i < |lines|
      invariant i <= |lines|
      invariant Scan(Scanner(txList, current, block, pendingCommitLines), lines[i..]) == Scan(START, lines)
      invariant current ==> txList != []
    {
      ScanNext(Scanner(txList, current, block, pendingCommitLines), lines, i);
      var line := Chomp(lines[i]);
      i := i + 1;
      if line == "" { continue; }
      if Tagged(line, "TX_BEGIN:") {
        txList := txList + [TxEntry(NumberIn(line[9..]), false, false, [])];
        current, block := true, [];
      } else if Tagged(line, "TX_COMMIT:") {
        var id := NumberIn(line[10..]);
        pendingCommitLines := pendingCommitLines[id := line];
        txList := SetCommitted(txList, id, true);
        current, block := false, [];
      } else if Tagged(line, "CRC:") {
        var expectedCrc := NumberIn(line[4..]) % TWO32;
        if pendingCommitLines != map[] {
          var last := LastPending(pendingCommitLines);
          var actualCrc := WalCrc32(LineBytes(pendingCommitLines[last]));
          if actualCrc != expectedCrc { txList := SetCommitted(txList, last, false); }
          pendingCommitLines := pendingCommitLines - {last};
        }
      } else if Tagged(line, "TX_ROLLBACK:") {
        txList := SetRolledBack(txList, NumberIn(line[12..]));
        current, block := false, [];
      } else if current {
        if line == "---" {
          if block != [] {
            var n := |txList| - 1;
            txList := txList[n := txList[n].(opBlocks := txList[n].opBlocks + [block])];
            block := [];
          }
        } else {
          block := block + [line];
        }
      }
    }
    ScanDone(Scanner(txList, current, block, pendingCommitLines));
    assert lines[i..] == [];
  }

  lemma ScanNext(s: Scanner, lines: seq<string>, i: nat)
    requires i < |lines|
    ensures Scan(s, lines[i..]) == Scan(Step(s, lines[i]), lines[i + 1..])
  {
    hide Step;
    assert lines[i..][1..] == lines[i + 1..];
  }

  lemma ScanDone(s: Scanner)
    ensures Scan(s, []) == s
  {
  }

  // ------------------------------------------------------------------------------------------
  // A damaged commit line

  // The two lines differ inside one burst of at most 32 bits.
  ghost predicate Damaged(line: string, bad: string) {
    exists lo: nat, hi: nat :: hi <= lo + 32 && Burst(LineBytes(line), LineBytes(bad), lo, hi)
  }

  lemma MarkOff(txs: seq<TxEntry>, id: nat)
    ensures var r := MarkCommit(MarkCommit(txs, id, true), id, false);
            |r| == |txs| && forall i :: 0 <= i < |txs| && r[i].committed ==> txs[i].committed
  {
    hide FirstOf;
    var t := MarkCommit(txs, id, true);
    assert forall k :: 0 <= k < |txs| ==> t[k].txId == txs[k].txId;
    assert FirstOf(t, id) == FirstOf(txs, id);
  }

  lemma CrcWord(s: seq<byte>)
    ensures Crc(s) < TWO32
  {
    Powers();
    FeedWord(ONES, Bits(s));
    XorWord(Feed(ONES, Bits(s)), ONES);
  }

  function CrcLine(line: string): string { "CRC:" + Print(Crc(LineBytes(line))) }

  lemma KindOfCrcLine(line: string)
    ensures KindOf(CrcLine(line)) == Check(Crc(LineBytes(line))) && Chomp(CrcLine(line)) == CrcLine(line)
  {
    hide Crc, LineBytes, StoULL, Print;
    CrcWord(LineBytes(line));
    KindOfCheck(Crc(LineBytes(line)));
  }

  lemma KindOfCheck(n: nat)
    requires n < TWO32
    ensures KindOf("CRC:" + Print(n)) == Check(n) && Chomp("CRC:" + Print(n)) == "CRC:" + Print(n)
  {
    hide StoULL, Print;
    StoULLPrint(n);
    var t := "CRC:" + Print(n);
    assert t[4..] == Print(n) && t[0] == 'C' && IsDigit(t[|t| - 1]);
  }

  function LineCrc(line: string): nat { Crc(LineBytes(line)) }

  // Unless it ends in a carriage return, which the scanner drops, a damaged line has another CRC.
  lemma DamageDetected(line: string, bad: string)
    requires Damaged(line, bad) && Chomp(bad) == bad
    ensures LineCrc(Chomp(bad)) != LineCrc(line)
  {
    hide Burst, Crc, LineBytes;
    var lo: nat, hi: nat :| hi <= lo + 32 && Burst(LineBytes(line), LineBytes(bad), lo, hi);
    BurstDetected(LineBytes(line), LineBytes(bad), lo, hi);
  }

  // With no other commit waiting for its CRC line, a line with another CRC in the place of a commit line commits nothing:
  // when the CRC line has been read, with or without other lines between, whatever counts as committed did so before.
  lemma DamageCommitsNothing(s: Scanner, line: string, bad: string, mid: seq<string>)
    requires s.pending == map[] && LineCrc(Chomp(bad)) != LineCrc(line) && AllQuiet(mid)
    ensures var txs := Scan(s, [bad] + mid + [CrcLine(line)]).txs;
            |s.txs| <= |txs| && forall i :: 0 <= i < |txs| && txs[i].committed ==> i < |s.txs| && s.txs[i].committed
  {
    hide Crc, LineBytes, Scan, MarkCommit, MarkRollback, Step, Chomp, KindOf, CrcLine;
    var s1 := Step(s, bad);
    var s2 := Scan(s1, mid);
    ScanThree(s, bad, mid, CrcLine(line));
    ScanQuiet(s1, mid);
    StepCheck(s2, line);
    if Chomp(bad) != "" && KindOf(Chomp(bad)).Commit? {
      StepCommit(s, bad);
      CheckOff(s, KindOf(Chomp(bad)).id, Chomp(bad), LineCrc(line), s2);
    } else {
      NoCommitStep(s, bad);
      CheckNone(s2, LineCrc(line));
    }
  }

  lemma CheckNone(s: Scanner, crc: nat)
    ensures s.pending == map[] ==> CheckCrc(s, crc) == s
  {
  }

  // Lines that belong to no transaction, or to the open one
  predicate AllQuiet(lines: seq<string>) {
    forall i :: 0 <= i < |lines| ==> Chomp(lines[i]) != "" ==> KindOf(Chomp(lines[i])).Data?
  }

  lemma {:induction false} ScanQuiet(s: Scanner, lines: seq<string>)
    requires AllQuiet(lines)
    ensures Scan(s, lines).txs == s.txs && Scan(s, lines).pending == s.pending
    ensures !s.open ==> !Scan(s, lines).open
    decreases |lines|
  {
    hide KindOf, Chomp;
    if lines != [] { ScanQuiet(Step(s, lines[0]), lines[1..]); }
  }

  lemma StepCommit(s: Scanner, raw: string)
    requires Chomp(raw) != "" && KindOf(Chomp(raw)).Commit?
    ensures var id := KindOf(Chomp(raw)).id;
            Step(s, raw) == Scanner(MarkCommit(s.txs, id, true), false, [], s.pending[id := Chomp(raw)])
  {
    hide KindOf, Chomp, MarkCommit;
  }

  lemma StepCheck(s: Scanner, line: string)
    ensures Step(s, CrcLine(line)) == CheckCrc(s, Crc(LineBytes(line)))
  {
    hide Crc, LineBytes;
    KindOfCrcLine(line);
    assert CrcLine(line) != "";
    hide CrcLine;
  }

  lemma ScanThree(s: Scanner, a: string, mid: seq<string>, c: string)
    ensures Scan(s, [a] + mid + [c]) == Step(Scan(Step(s, a), mid), c)
  {
    hide Step;
    assert [a] + mid + [c] == [a] + (mid + [c]);
    ScanConcat(s, [a], mid + [c]);
    ScanConcat(Step(s, a), mid, [c]);
    ScanOne(s, a);
    ScanOne(Scan(Step(s, a), mid), c);
  }

  lemma ScanOne(s: Scanner, line: string)
    ensures Scan(s, [line]) == Step(s, line)
  {
    hide Step;
    assert [line][1..] == [];
    assert Scan(Step(s, line), []) == Step(s, line);
  }

  // A commit line whose CRC line does not fit is taken back.
  lemma CheckOff(s: Scanner, id: nat, bad: string, crc: nat, s2: Scanner)
    requires s.pending == map[] && Crc(LineBytes(bad)) != crc
    requires s2.txs == MarkCommit(s.txs, id, true) && s2.pending == s.pending[id := bad]
    ensures CheckCrc(s2, crc).txs == MarkCommit(s2.txs, id, false)
    ensures var txs := CheckCrc(s2, crc).txs;
            |s.txs| <= |txs| && forall i :: 0 <= i < |txs| && txs[i].committed ==> i < |s.txs| && s.txs[i].committed
  {
    hide Crc, LineBytes, MarkCommit;
    assert s2.pending.Keys == {id};
    MarkOff(s.txs, id);
  }

  // Any other line commits nothing and leaves no commit waiting.
  lemma NoCommitStep(s: Scanner, raw: string)
    requires s.pending == map[] && (Chomp(raw) != "" ==> !KindOf(Chomp(raw)).Commit?)
    ensures var s' := Step(s, raw);
            s'.pending == map[] && |s.txs| <= |s'.txs|
            && forall i :: 0 <= i < |s'.txs| && s'.txs[i].committed ==> i < |s.txs| && s.txs[i].committed
  {
    hide KindOf, FirstOf, Chomp;
  }
}
