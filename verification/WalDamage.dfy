/** A log whose commits all have their CRC lines, with one damaged commit line anywhere in it: what the scan still
    takes for committed. */
module WalDamage {
  import opened Text
  import opened Decimal
  import opened Bytes
  import opened WalCrc
  import opened WalScan
  import opened WalOps
  import opened WalLog

  // The lines of a transaction with another line in the place of its commit line
  function DamagedLines(t: Tx, bad: string): seq<string>
    requires Writable(t) && Checked(t)
  {
    ["TX_BEGIN:" + Print(t.id)] + Body(t) + ([bad] + StampText(t.ending.stamped) + [CrcLine(CommitLine(t.id))])
  }

  // The damaged line reads as a commit line of this id.
  predicate ReadsAs(bad: string, id: nat) { Chomp(bad) != "" && KindOf(Chomp(bad)) == Commit(id) }

  // What the damaged line and the CRC line behind it make of the transactions known so far: the one that the line reads as
  // is taken for committed or not as the CRC decides.
  function Reread(txs: seq<TxEntry>, bad: string, id: nat): seq<TxEntry> {
    if Chomp(bad) != "" && KindOf(Chomp(bad)).Commit? then
      MarkCommit(txs, KindOf(Chomp(bad)).id, LineCrc(Chomp(bad)) == LineCrc(CommitLine(id)))
    else txs
  }

  function OpenEntry(t: Tx): TxEntry
    requires Writable(t)
  {
    TxEntry(t.id, false, false, Blocks(t))
  }

  // ------------------------------------------------------------------------------------------
  // What the damaged line can read as

  lemma CommitBytes(id: nat)
    ensures var c := LineBytes(CommitLine(id)); |c| >= 11 && c[3] == 67 && c[8] == 84 && c[9] == 58
  {
    hide Print;
  }

  // One burst of at most 32 bits cannot turn a commit line into a begin or a rollback line.
  lemma NotMarker(id: nat, bad: string)
    requires Damaged(CommitLine(id), bad)
    ensures |Chomp(bad)| >= 10 && !Tagged(Chomp(bad), "TX_BEGIN:") && !Tagged(Chomp(bad), "TX_ROLLBACK:")
  {
    hide CommitLine, Burst;
    var c, d := LineBytes(CommitLine(id)), LineBytes(bad);
    var lo: nat, hi: nat :| hi <= lo + 32 && Burst(c, d, lo, hi);
    CommitBytes(id);
    SameLength(c, d, lo, hi);
    assert (bad[3] == 'B' ==> d[3] == 66) && (bad[3] == 'R' ==> d[3] == 82);
    assert (bad[8] == ':' ==> d[8] == 58) && (bad[9] == 'C' ==> d[9] == 67);
    if d[3] != 67 && d[8] != 84 {
      BurstSpan(c, d, lo, hi, 3);
      BurstSpan(c, d, lo, hi, 8);
      assert false;
    }
    if d[3] != 67 && d[9] != 58 {
      BurstSpan(c, d, lo, hi, 3);
      BurstSpan(c, d, lo, hi, 9);
      assert false;
    }
  }

  lemma SameLength(c: seq<byte>, d: seq<byte>, lo: nat, hi: nat)
    requires Burst(c, d, lo, hi)
    ensures |c| == |d|
  {
  }

  // ------------------------------------------------------------------------------------------
  // Scanning the damaged transaction

  lemma MarkTwice(txs: seq<TxEntry>, id: nat, a: bool, b: bool)
    ensures MarkCommit(MarkCommit(txs, id, a), id, b) == MarkCommit(txs, id, b)
  {
    hide FirstOf;
    var t := MarkCommit(txs, id, a);
    assert forall k :: 0 <= k < |txs| ==> t[k].txId == txs[k].txId;
    assert FirstOf(t, id) == FirstOf(txs, id);
  }

  // The damaged line, when it is no commit line
  lemma StepOther(s: Scanner, id: nat, bad: string)
    requires s.pending == map[] && Damaged(CommitLine(id), bad) && !KindOf(Chomp(bad)).Commit?
    ensures Step(s, bad).txs == s.txs && Step(s, bad).pending == map[]
  {
    hide Damaged, CommitLine, Chomp;
    NotMarker(id, bad);
  }

  lemma StampQuiet(stamp: Option<nat>)
    ensures AllQuiet(StampText(stamp))
  {
    hide StampText, KindOf;
    StampData(stamp);
  }

  // The damaged line, the time stamp and the CRC line
  lemma ScanDamagedEnd(s: Scanner, t: Tx, bad: string)
    requires s.pending == map[] && Checked(t) && Damaged(CommitLine(t.id), bad)
    ensures var r := Scan(s, [bad] + StampText(t.ending.stamped) + [CrcLine(CommitLine(t.id))]);
            r.txs == Reread(s.txs, bad, t.id) && r.pending == map[]
  {
    hide Scan, Step, StampText, CommitLine, CrcLine, Damaged, KindOf, MarkCommit, Crc, LineBytes, AllQuiet;
    var mid := StampText(t.ending.stamped);
    var s1 := Step(s, bad);
    var s2 := Scan(s1, mid);
    ScanThree(s, bad, mid, CrcLine(CommitLine(t.id)));
    StampQuiet(t.ending.stamped);
    ScanQuiet(s1, mid);
    StepCheck(s2, CommitLine(t.id));
    NotMarker(t.id, bad);
    if KindOf(Chomp(bad)).Commit? {
      StepCommit(s, bad);
      var id := KindOf(Chomp(bad)).id;
      CheckOnly(s2, id, Chomp(bad), LineCrc(CommitLine(t.id)));
      MarkTwice(s.txs, id, true, false);
    } else {
      StepOther(s, t.id, bad);
    }
  }

  lemma CheckOnly(s: Scanner, id: nat, line: string, crc: nat)
    requires s.pending == map[id := line]
    ensures var r := CheckCrc(s, crc);
            r.txs == (if LineCrc(line) == crc then s.txs else MarkCommit(s.txs, id, false)) && r.pending == map[]
  {
    hide Crc, LineBytes, MarkCommit;
    assert s.pending.Keys == {id};
    assert s.pending - {id} == map[];
  }

  lemma ScanDamaged(s: Scanner, t: Tx, bad: string)
    requires Writable(t) && Checked(t) && s.pending == map[] && Damaged(CommitLine(t.id), bad)
    ensures var r := Scan(s, DamagedLines(t, bad));
            r.txs == Reread(s.txs + [OpenEntry(t)], bad, t.id) && r.pending == map[]
  {
    hide Scan, Body, Blocks, Print, CommitLine, CrcLine, Damaged, Reread, Writable, StampText, Chop;
    var begin := ["TX_BEGIN:" + Print(t.id)] + Body(t);
    var end := [bad] + StampText(t.ending.stamped) + [CrcLine(CommitLine(t.id))];
    assert Body(t)[..|Body(t)|] == Body(t);
    ScanOpen(s, t, |Body(t)|);
    ChopBody(t);
    ScanConcat(s, begin, end);
    ScanDamagedEnd(Scan(s, begin), t, bad);
  }

  // ------------------------------------------------------------------------------------------
  // The whole log

  // Damage in one commit line of a log whose commits up to there have CRC lines: the scan gives what it gives without the
  // damage, except that the damaged transaction has no commit, and that the id which the damaged line reads as, if it reads
  // as a commit at all, is committed or not as the CRC of that line decides.
  lemma DamagedLog(a: seq<Tx>, t: Tx, b: seq<Tx>, bad: string)
    requires Distinct(a + [t] + b) && CrcsFit(map[], b) && forall i :: 0 <= i < |a| ==> !Unchecked(a[i])
    requires Checked(t) && Damaged(CommitLine(t.id), bad)
    ensures AllWritable(a) && AllWritable(b) && Writable(t)
    ensures WalScan.Scan(START, Log(a) + DamagedLines(t, bad) + Log(b)).txs
         == Reread(FullEntries(a) + [OpenEntry(t)], bad, t.id) + FullEntries(b)
  {
    hide WalScan.Scan, Log, DamagedLines, Damaged, Reread, FullEntries, OpenEntry, CrcsFit, Entries, Writable, AllWritable,
      CommitLine, Distinct, Apart, Fresh, Right, After;
    DistinctParts(a, t, b);
    ScanConcat(START, Log(a) + DamagedLines(t, bad), Log(b));
    ScanConcat(START, Log(a), DamagedLines(t, bad));
    var s := WalScan.Scan(START, Log(a));
    UndamagedPart(a);
    ScanDamaged(s, t, bad);
    var s2 := WalScan.Scan(s, DamagedLines(t, bad));
    RereadIds(FullEntries(a) + [OpenEntry(t)], bad, t.id);
    KnownOf(a, t);
    ApartFrom(s2, a, t, b);
    ScanToEnd(s2, b);
  }

  lemma DistinctParts(a: seq<Tx>, t: Tx, b: seq<Tx>)
    requires Distinct(a + [t] + b)
    ensures Distinct(a) && Distinct(b) && AllWritable(a) && AllWritable(b) && Writable(t)
  {
    hide Writable;
    var x := a + [t] + b;
    assert forall i :: 0 <= i < |a| ==> x[i] == a[i];
    assert x[|a|] == t;
    assert forall i :: 0 <= i < |b| ==> x[|a| + 1 + i] == b[i];
  }

  lemma UndamagedPart(a: seq<Tx>)
    requires AllWritable(a) && Distinct(a) && forall i :: 0 <= i < |a| ==> !Unchecked(a[i])
    ensures var s := WalScan.Scan(START, Log(a)); s.txs == FullEntries(a) && s.pending == map[]
  {
    hide WalScan.Scan, Log, FullEntries, CrcsFit, Writable, AllWritable, Distinct;
    NothingPending(START, a);
    ScanToEnd(START, a);
    assert [] + FullEntries(a) == FullEntries(a);
  }

  lemma RereadIds(txs: seq<TxEntry>, bad: string, id: nat)
    ensures var r := Reread(txs, bad, id); |r| == |txs| && forall i :: 0 <= i < |r| ==> r[i].txId == txs[i].txId
  {
    hide FirstOf, KindOf, Chomp, Crc, LineBytes, CommitLine;
  }

  lemma KnownOf(a: seq<Tx>, t: Tx)
    requires AllWritable(a) && Writable(t)
    ensures var known := FullEntries(a) + [OpenEntry(t)];
            known[|a|].txId == t.id && forall i :: 0 <= i < |a| ==> known[i].txId == a[i].id
  {
    hide FullEntries, Writable, Blocks, Body, Chop;
  }

  lemma ApartFrom(s: Scanner, a: seq<Tx>, t: Tx, b: seq<Tx>)
    requires Distinct(a + [t] + b) && |s.txs| == |a| + 1
    requires s.txs[|a|].txId == t.id && forall i :: 0 <= i < |a| ==> s.txs[i].txId == a[i].id
    ensures Apart(s, b)
  {
    hide Writable, AllWritable;
    forall j | 0 <= j < |b| ensures Fresh(s, b[j]) {
      forall i | 0 <= i < |s.txs| ensures s.txs[i].txId != b[j].id { IdsApart(a, t, b, i, |a| + 1 + j); }
    }
  }

  lemma IdsApart(a: seq<Tx>, t: Tx, b: seq<Tx>, i: nat, j: nat)
    requires Distinct(a + [t] + b) && i < j < |a| + 1 + |b| && i <= |a|
    ensures (if i < |a| then a[i].id else t.id)
         != (if j < |a| then a[j].id else if j == |a| then t.id else b[j - |a| - 1].id)
  {
    hide Writable, AllWritable;
    var x := a + [t] + b;
    assert x[i].id != x[j].id;
  }

  // Which transactions are committed, when the damage is detected
  lemma DamageOutcome(a: seq<Tx>, t: Tx, b: seq<Tx>, bad: string)
    requires Distinct(a + [t] + b) && CrcsFit(map[], b) && forall i :: 0 <= i < |a| ==> !Unchecked(a[i])
    requires Checked(t) && Damaged(CommitLine(t.id), bad) && LineCrc(Chomp(bad)) != LineCrc(CommitLine(t.id))
    ensures AllWritable(a) && AllWritable(b) && Writable(t)
    ensures var r := WalScan.Scan(START, Log(a) + DamagedLines(t, bad) + Log(b)).txs;
            |r| == |a| + 1 + |b| && r[|a|] == OpenEntry(t)
            && (forall i :: 0 <= i < |a| ==>
                  r[i] == FullEntry(a[i]).(committed := a[i].ending.Committed? && !ReadsAs(bad, a[i].id)))
            && (forall j :: 0 <= j < |b| ==> r[|a| + 1 + j] == FullEntry(b[j]))
  {
    hide WalScan.Scan, Log, DamagedLines, Damaged, FullEntry, CrcsFit, Writable, Blocks, Chop, Body,
      CommitLine, LineCrc, Chomp, KindOf, Reread;
    DamagedLog(a, t, b, bad);
    var known := FullEntries(a) + [OpenEntry(t)];
    forall i, j | 0 <= i < j < |known| ensures known[i].txId != known[j].txId { KnownIds(a, t, b, i, j); }
    RereadOff(known, bad, t.id);
    forall i | 0 <= i < |a| ensures FullEntry(a[i]).txId == a[i].id && FullEntry(a[i]).committed == a[i].ending.Committed? {
      FullFlags(a[i]);
    }
  }

  lemma FullFlags(t: Tx)
    requires Writable(t)
    ensures FullEntry(t).txId == t.id && FullEntry(t).committed == t.ending.Committed?
  {
  }

  lemma KnownIds(a: seq<Tx>, t: Tx, b: seq<Tx>, i: nat, j: nat)
    requires Distinct(a + [t] + b) && AllWritable(a) && Writable(t) && i < j <= |a|
    ensures var known := FullEntries(a) + [OpenEntry(t)]; known[i].txId != known[j].txId
  {
    hide FullEntries, OpenEntry, Writable, AllWritable, Distinct;
    KnownOf(a, t);
    IdsApart(a, t, b, i, j);
  }

  // A detected damage only takes commits away, from the id that the line reads as.
  lemma RereadOff(txs: seq<TxEntry>, bad: string, id: nat)
    requires LineCrc(Chomp(bad)) != LineCrc(CommitLine(id))
    requires forall i, j :: 0 <= i < j < |txs| ==> txs[i].txId != txs[j].txId
    ensures var r := Reread(txs, bad, id);
            |r| == |txs| && forall i :: 0 <= i < |txs| ==>
              r[i] == txs[i].(committed := txs[i].committed && !ReadsAs(bad, txs[i].txId))
  {
    hide FirstOf, KindOf, Chomp, LineCrc, CommitLine;
  }

  // One damaged byte in the commit line of transaction 5 takes back transaction 3, whose own commit had been verified.
  lemma DamageRevokes(three: Tx, five: Tx)
    requires Writable(three) && Writable(five) && three.id == 3 && five.id == 5 && Checked(three) && Checked(five)
    ensures AllWritable([three]) && AllWritable([three, five]) && Damaged(CommitLine(5), CommitLine(3))
    ensures WalScan.Scan(START, Log([three, five])).txs == [FullEntry(three), FullEntry(five)] && FullEntry(three).committed
    ensures WalScan.Scan(START, Log([three]) + DamagedLines(five, CommitLine(3))).txs
         == [FullEntry(three).(committed := false), OpenEntry(five)]
  {
    hide WalScan.Scan, Log, DamagedLines, CommitLine, Damaged, FullEntry, Writable, OpenEntry, AllWritable;
    TwoDistinct(three, five);
    DigitDamage();
    FullFlags(three);
    TwoUndamaged(three, five);
    TwoDamaged(three, five);
  }

  lemma TwoDistinct(a: Tx, b: Tx)
    requires Writable(a) && Writable(b) && a.id != b.id
    ensures AllWritable([a]) && AllWritable([a, b]) && Distinct([a] + [b] + []) && Distinct([a, b])
  {
    hide Writable;
    assert [a] + [b] + [] == [a, b];
  }

  lemma TwoUndamaged(a: Tx, b: Tx)
    requires Writable(a) && Writable(b) && a.id != b.id && Checked(a) && Checked(b) && AllWritable([a, b])
    ensures WalScan.Scan(START, Log([a, b])).txs == [FullEntry(a), FullEntry(b)]
  {
    hide WalScan.Scan, Log, FullEntry, Writable, FullEntries, Distinct;
    TwoDistinct(a, b);
    UndamagedPart([a, b]);
    var r := FullEntries([a, b]);
    assert r[0] == FullEntry([a, b][0]) && r[1] == FullEntry([a, b][1]);
  }

  lemma TwoDamaged(three: Tx, five: Tx)
    requires Writable(three) && Writable(five) && three.id == 3 && five.id == 5 && Checked(three) && Checked(five)
    requires AllWritable([three])
    ensures WalScan.Scan(START, Log([three]) + DamagedLines(five, CommitLine(3))).txs
         == [FullEntry(three).(committed := false), OpenEntry(five)]
  {
    hide WalScan.Scan, Log, DamagedLines, CommitLine, LineCrc, Damaged, CrcsFit, FullEntry, ReadsAs, Chomp, Writable, OpenEntry,
      Distinct, AllWritable;
    TwoDistinct(three, five);
    DigitDamage();
    ReadsThree();
    NoneFit(map[], []);
    DamageDetected(CommitLine(5), CommitLine(3));
    DamageOutcome([three], five, [], CommitLine(3));
    EmptyLog();
    var lines := Log([three]) + DamagedLines(five, CommitLine(3));
    assert lines + [] == lines;
  }

  lemma ReadsThree()
    ensures ReadsAs(CommitLine(3), 3) && Chomp(CommitLine(3)) == CommitLine(3)
  {
    hide CommitLine, KindOf, Chomp;
    KindOfCommit(3);
    NonEmptyCommit(3);
  }

  lemma EmptyLog()
    ensures Log([]) == []
  {
  }

  lemma DigitDamage()
    ensures Damaged(CommitLine(5), CommitLine(3))
  {
    hide CommitLine, Crc, Burst;
    CommitDigit(5);
    CommitDigit(3);
    var x, y := LineBytes(CommitLine(5)), LineBytes(CommitLine(3));
    assert x[10] == 53 && y[10] == 51;
    FourBytes(x, y, 10);
  }
}
