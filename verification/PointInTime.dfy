/** Point-in-time restore: replaying archived log segments up to a target time or transaction. */
module PointInTime {
  import opened Text
  import opened Decimal
  import opened Bytes
  import opened WalCrc
  import opened WalScan
  import opened WalOps
  import opened WalLog
  import opened WalRecovery

  datatype Segment = Segment(timestamp: int, lines: seq<string>)

  // ------------------------------------------------------------------------------------------
  // parseTxTimestamp

  // The scan for the time stamp of one transaction; inTx says that its BEGIN line was the last one.
  function StampFrom(lines: seq<string>, txId: nat, inTx: bool): int
    decreases |lines|
  {
    if lines == [] then 0
    else
      var line := Chomp(lines[0]);
      var inTx' := if Tagged(line, "TX_BEGIN:") then NumberIn(line[9..]) == txId else inTx;
      if inTx' && Tagged(line, "TS:") && StoLL(line[3..]).Some? then StoLL(line[3..]).value
      else StampFrom(lines[1..], txId, inTx' && !Tagged(line, "TX_COMMIT:"))
  }

  method ParseTxTimestamp(lines: seq<string>, txId: nat) returns (epoch: int)
    ensures epoch == StampFrom(lines, txId, false)
  {
    var inTx, i := false, 0;
    assert lines[0..] == lines;
    while i < |lines|
      invariant 0 <= i <= |lines| && StampFrom(lines[i..], txId, inTx) == StampFrom(lines, txId, false)
    {
      assert lines[i..][1..] == lines[i + 1..];
      var line := Chomp(lines[i]);
      if Tagged(line, "TX_BEGIN:") { inTx := NumberIn(line[9..]) == txId; }
      if inTx && Tagged(line, "TS:") {
        var v := StoLL(line[3..]);
        if v.Some? { return v.value; }
      }
      if Tagged(line, "TX_COMMIT:") { inTx := false; }
      i := i + 1;
    }
    return 0;
  }

  // ------------------------------------------------------------------------------------------
  // The committed history of the relevant segments

  datatype Item = Item(tx: TxEntry, epoch: int)

  // A transaction without a time stamp counts as committed when its segment was archived.
  function EpochOf(seg: Segment, txId: nat): int {
    var e := StampFrom(seg.lines, txId, false);
    if e == 0 then seg.timestamp else e
  }

  function Items(seg: Segment, txs: seq<TxEntry>): seq<Item> {
    if txs == [] then []
    else (if txs[0].committed then [Item(txs[0], EpochOf(seg, txs[0].txId))] else []) + Items(seg, txs[1..])
  }

  ghost function History(segs: seq<Segment>, backupEpoch: int): seq<Item> {
    if segs == [] then []
    else (if segs[0].timestamp >= backupEpoch then Items(segs[0], WalScan.Scan(START, segs[0].lines).txs) else [])
         + History(segs[1..], backupEpoch)
  }

  // The targets; 0 stands for none.
  predicate Wanted(item: Item, targetEpoch: int, targetTxId: nat) {
    !(targetEpoch > 0 && item.epoch > targetEpoch) && !(targetTxId > 0 && item.tx.txId > targetTxId)
  }

  function Applied(h: seq<Item>, targetEpoch: int, targetTxId: nat): (r: seq<Item>)
    ensures |r| <= |h| && forall k :: 0 <= k < |r| ==> Wanted(r[k], targetEpoch, targetTxId)
  {
    if h == [] then []
    else (if Wanted(h[0], targetEpoch, targetTxId) then [h[0]] else []) + Applied(h[1..], targetEpoch, targetTxId)
  }

  function ItemOps(items: seq<Item>): seq<Op> {
    if items == [] then [] else BlockOps(Unescaping, items[0].tx.opBlocks) + ItemOps(items[1..])
  }

  datatype Restore = Restore(replayedTx: nat, replayedOps: nat, skippedTx: nat, restoredTo: int)

  // The restore up to some point: the state and the counters
  ghost predicate Restored<E>(engine: Engine<E>, base: E, e: E, result: Restore, h: seq<Item>, targetEpoch: int,
                              targetTxId: nat)
  {
    var a := Applied(h, targetEpoch, targetTxId);
    && (e, result.replayedOps) == ReplayOps(engine, base, 0, ItemOps(a))
    && result.replayedTx == |a| && result.skippedTx == |h| - |a|
    && result.restoredTo == if a == [] then 0 else a[|a| - 1].epoch
  }

  lemma {:induction false} AppliedConcat(a: seq<Item>, b: seq<Item>, te: int, ti: nat)
    ensures Applied(a + b, te, ti) == Applied(a, te, ti) + Applied(b, te, ti)
    decreases |a|
  {
    if a == [] {
      assert a + b == b;
    } else {
      assert (a + b)[1..] == a[1..] + b;
      AppliedConcat(a[1..], b, te, ti);
    }
  }

  lemma {:induction false} ItemOpsConcat(a: seq<Item>, b: seq<Item>)
    ensures ItemOps(a + b) == ItemOps(a) + ItemOps(b)
    decreases |a|
  {
    hide BlockOps;
    if a == [] {
      assert a + b == b;
    } else {
      assert (a + b)[1..] == a[1..] + b;
      ItemOpsConcat(a[1..], b);
    }
  }

  lemma AppliedOne(item: Item, te: int, ti: nat)
    ensures Applied([item], te, ti) == if Wanted(item, te, ti) then [item] else []
  {
    assert [item][1..] == [];
    assert Applied([], te, ti) == [];
  }

  lemma ItemOpsOne(item: Item)
    ensures ItemOps([item]) == BlockOps(Unescaping, item.tx.opBlocks)
  {
    assert [item][1..] == [];
    assert ItemOps([]) == [];
  }

  // One more transaction
  lemma RestoredStep<E>(engine: Engine<E>, base: E, e: E, r: Restore, h: seq<Item>, item: Item, te: int, ti: nat)
    requires Restored(engine, base, e, r, h, te, ti)
    ensures !Wanted(item, te, ti) ==> Restored(engine, base, e, r.(skippedTx := r.skippedTx + 1), h + [item], te, ti)
    ensures Wanted(item, te, ti) ==>
              var (e', n) := ReplayOps(engine, e, r.replayedOps, BlockOps(Unescaping, item.tx.opBlocks));
              Restored(engine, base, e', Restore(r.replayedTx + 1, n, r.skippedTx, item.epoch), h + [item], te, ti)
  {
    hide Applied, ItemOps, ReplayOps, BlockOps;
    var a := Applied(h, te, ti);
    AppliedConcat(h, [item], te, ti);
    AppliedOne(item, te, ti);
    if Wanted(item, te, ti) {
      ItemOpsConcat(a, [item]);
      ItemOpsOne(item);
      ReplayConcat(engine, base, 0, ItemOps(a), BlockOps(Unescaping, item.tx.opBlocks));
    } else {
      assert a + [] == a;
    }
  }

  method RestoreSegment<E>(engine: Engine<E>, ghost base: E, e: E, r: Restore, ghost h: seq<Item>, seg: Segment, te: int,
                           ti: nat)
    returns (e': E, r': Restore)
    requires Restored(engine, base, e, r, h, te, ti)
    ensures Restored(engine, base, e', r', h + Items(seg, WalScan.Scan(START, seg.lines).txs), te, ti)
  {
    var txList := ScanWal(seg.lines);
    hide WalScan.Scan, Restored, Applied, StampFrom;
    e', r' := e, r;
    var i: nat := 0;
    ghost var done := h;
    ghost var goal := h + Items(seg, txList);
    assert txList[0..] == txList;
    while i < |txList|
      invariant i <= |txList| && goal == done + Items(seg, txList[i..])
      invariant Restored(engine, base, e', r', done, te, ti)
    {
      assert txList[i..][0] == txList[i] && txList[i..][1..] == txList[i + 1..];
      var tx := txList[i];
      i := i + 1;
      if !tx.committed {
        assert [] + Items(seg, txList[i..]) == Items(seg, txList[i..]);
        continue;
      }
      var txEpoch := ParseTxTimestamp(seg.lines, tx.txId);
      if txEpoch == 0 { txEpoch := seg.timestamp; }
      ghost var item := Item(tx, EpochOf(seg, tx.txId));
      RestoredStep(engine, base, e', r', done, item, te, ti);
      assert goal == (done + [item]) + Items(seg, txList[i..]);
      done := done + [item];
      if te > 0 && txEpoch > te {
        r' := r'.(skippedTx := r'.skippedTx + 1);
        continue;
      }
      if ti > 0 && tx.txId > ti {
        r' := r'.(skippedTx := r'.skippedTx + 1);
        continue;
      }
      var n: nat;
      e', n := ReplayBlocks(Unescaping, engine, e', r'.replayedOps, tx.opBlocks);
      r' := Restore(r'.replayedTx + 1, n, r'.skippedTx, txEpoch);
    }
    assert txList[i..] == [];
    assert done + [] == done;
  }

  method RestoreToPoint<E>(engine: Engine<E>, base: E, backupEpoch: int, segments: seq<Segment>, targetEpoch: int,
                           targetTxId: nat)
    returns (e: E, result: Restore)
    ensures Restored(engine, base, e, result, History(segments, backupEpoch), targetEpoch, targetTxId)
  {
    hide Restored, Items, WalScan.Scan;
    e, result := base, Restore(0, 0, 0, 0);
    RestoredStart(engine, base, targetEpoch, targetTxId);
    var i: nat := 0;
    ghost var done: seq<Item> := [];
    assert segments[0..] == segments;
    assert [] + History(segments, backupEpoch) == History(segments, backupEpoch);
    while i < |segments|
      invariant i <= |segments| && History(segments, backupEpoch) == done + History(segments[i..], backupEpoch)
      invariant Restored(engine, base, e, result, done, targetEpoch, targetTxId)
    {
      var seg := segments[i];
      assert segments[i..][0] == seg && segments[i..][1..] == segments[i + 1..];
      i := i + 1;
      if seg.timestamp >= backupEpoch {
        ghost var items := Items(seg, WalScan.Scan(START, seg.lines).txs);
        assert done + (items + History(segments[i..], backupEpoch)) == (done + items) + History(segments[i..], backupEpoch);
        e, result := RestoreSegment(engine, base, e, result, done, seg, targetEpoch, targetTxId);
        done := done + items;
      } else {
        assert [] + History(segments[i..], backupEpoch) == History(segments[i..], backupEpoch);
      }
    }
    assert segments[i..] == [];
    assert done + [] == done;
  }

  lemma RestoredStart<E>(engine: Engine<E>, base: E, te: int, ti: nat)
    ensures Restored(engine, base, base, Restore(0, 0, 0, 0), [], te, ti)
  {
  }

  // ------------------------------------------------------------------------------------------
  // When a restore is a point in time

  // The applied transactions are the first ones of the history.
  predicate AppliesPrefix(h: seq<Item>, te: int, ti: nat) {
    Applied(h, te, ti) == h[..|Applied(h, te, ti)|]
  }

  lemma {:induction false} AllApplied(h: seq<Item>, te: int, ti: nat)
    requires forall k :: 0 <= k < |h| ==> Wanted(h[k], te, ti)
    ensures Applied(h, te, ti) == h
    decreases |h|
  {
    if h != [] { AllApplied(h[1..], te, ti); }
  }

  lemma {:induction false} NoneApplied(h: seq<Item>, te: int, ti: nat)
    requires forall k :: 0 <= k < |h| ==> !Wanted(h[k], te, ti)
    ensures Applied(h, te, ti) == []
    decreases |h|
  {
    if h != [] { NoneApplied(h[1..], te, ti); }
  }

  // Skipping instead of stopping still gives a prefix exactly when nothing wanted comes after something skipped.
  lemma PrefixIff(h: seq<Item>, te: int, ti: nat)
    ensures AppliesPrefix(h, te, ti)
       <==> forall i, j :: 0 <= i < j < |h| && Wanted(h[j], te, ti) ==> Wanted(h[i], te, ti)
  {
    hide Wanted, Applied;
    var n := FirstSkipped(h, te, ti);
    AppliedFrom(h, n, te, ti);
    if forall i, j :: 0 <= i < j < |h| && Wanted(h[j], te, ti) ==> Wanted(h[i], te, ti) {
      forall k | 0 <= k < |h[n..]| ensures !Wanted(h[n..][k], te, ti) { assert h[n..][k] == h[n + k]; }
      NoneApplied(h[n..], te, ti);
      assert h[..n] + [] == h[..n];
    } else {
      var i, j :| 0 <= i < j < |h| && Wanted(h[j], te, ti) && !Wanted(h[i], te, ti);
      assert n < j && h[n..][j - n] == h[j];
      SomeApplied(h[n..], j - n, te, ti);
      NoPrefix(h, n, te, ti);
    }
  }

  // Everything before the first skipped transaction is applied.
  lemma AppliedFrom(h: seq<Item>, n: nat, te: int, ti: nat)
    requires n <= |h| && forall k :: 0 <= k < n ==> Wanted(h[k], te, ti)
    ensures Applied(h, te, ti) == h[..n] + Applied(h[n..], te, ti)
  {
    hide Wanted, Applied;
    assert h == h[..n] + h[n..];
    AppliedConcat(h[..n], h[n..], te, ti);
    AllApplied(h[..n], te, ti);
  }

  lemma NoPrefix(h: seq<Item>, n: nat, te: int, ti: nat)
    requires n < |h| && !Wanted(h[n], te, ti) && Applied(h[n..], te, ti) != []
    requires Applied(h, te, ti) == h[..n] + Applied(h[n..], te, ti)
    ensures !AppliesPrefix(h, te, ti)
  {
    hide Wanted;
    var a := Applied(h, te, ti);
    assert Wanted(a[n], te, ti) && |a| <= |h|;
    hide Applied;
    assert h[..|a|][n] == h[n];
  }

  lemma {:induction false} SomeApplied(h: seq<Item>, k: nat, te: int, ti: nat)
    requires k < |h| && Wanted(h[k], te, ti)
    ensures Applied(h, te, ti) != []
    decreases |h|
  {
    if k > 0 { SomeApplied(h[1..], k - 1, te, ti); }
  }

  lemma {:induction false} FirstSkipped(h: seq<Item>, te: int, ti: nat) returns (n: nat)
    ensures n <= |h| && (n < |h| ==> !Wanted(h[n], te, ti))
    ensures forall k :: 0 <= k < n ==> Wanted(h[k], te, ti)
  {
    n := 0;
    while n < |h| && Wanted(h[n], te, ti)
      invariant n <= |h| && forall k :: 0 <= k < n ==> Wanted(h[k], te, ti)
    {
      n := n + 1;
    }
  }

  // No transaction after the first second of the epoch is followed by an earlier one.
  predicate InTimeOrder(h: seq<Item>) {
    forall i, j :: 0 <= i < j < |h| ==> h[i].epoch <= h[j].epoch || h[i].epoch <= 1
  }

  // Every time target gives the state after a prefix of the committed history exactly when the history is in time order.
  lemma TimeTargets(h: seq<Item>)
    ensures (forall te: int :: te > 0 ==> AppliesPrefix(h, te, 0)) <==> InTimeOrder(h)
  {
    hide Applied;
    if InTimeOrder(h) {
      forall te: int | te > 0 ensures AppliesPrefix(h, te, 0) { PrefixIff(h, te, 0); }
    } else {
      var i, j :| 0 <= i < j < |h| && h[i].epoch > h[j].epoch && h[i].epoch > 1;
      var te := if h[j].epoch > 0 then h[j].epoch else 1;
      assert Wanted(h[j], te, 0) && !Wanted(h[i], te, 0);
      PrefixIff(h, te, 0);
      assert !AppliesPrefix(h, te, 0);
    }
  }

  // The same for transaction targets and increasing ids
  lemma TxTargets(h: seq<Item>)
    ensures (forall ti: nat :: ti > 0 ==> AppliesPrefix(h, 0, ti))
       <==> forall i, j :: 0 <= i < j < |h| ==> h[i].tx.txId <= h[j].tx.txId || h[i].tx.txId <= 1
  {
    hide Applied;
    if forall i, j :: 0 <= i < j < |h| ==> h[i].tx.txId <= h[j].tx.txId || h[i].tx.txId <= 1 {
      forall ti: nat | ti > 0 ensures AppliesPrefix(h, 0, ti) { PrefixIff(h, 0, ti); }
    } else {
      var i, j :| 0 <= i < j < |h| && h[i].tx.txId > h[j].tx.txId && h[i].tx.txId > 1;
      var ti := if h[j].tx.txId > 0 then h[j].tx.txId else 1;
      assert Wanted(h[j], 0, ti) && !Wanted(h[i], 0, ti);
      PrefixIff(h, 0, ti);
      assert !AppliesPrefix(h, 0, ti);
    }
  }

  // A time-targeted restore of a history in time order: some prefix of the committed transactions, fully replayed
  lemma PointReached<E>(engine: Engine<E>, base: E, e: E, result: Restore, h: seq<Item>, targetEpoch: int)
    requires Restored(engine, base, e, result, h, targetEpoch, 0) && targetEpoch > 0 && InTimeOrder(h)
    ensures result.replayedTx <= |h| && result.replayedTx + result.skippedTx == |h|
    ensures e == ReplayOps(engine, base, 0, ItemOps(h[..result.replayedTx])).0
    ensures forall k :: 0 <= k < |h| ==> (k < result.replayedTx <==> h[k].epoch <= targetEpoch)
  {
    hide Applied, ReplayOps, ItemOps;
    TimeTargets(h);
    assert AppliesPrefix(h, targetEpoch, 0);
    PrefixCut(h, targetEpoch);
  }

  lemma PrefixCut(h: seq<Item>, te: int)
    requires AppliesPrefix(h, te, 0) && te > 0
    ensures forall k :: 0 <= k < |h| ==> (k < |Applied(h, te, 0)| <==> h[k].epoch <= te)
  {
    var n := |Applied(h, te, 0)|;
    forall k | 0 <= k < |h| ensures k < n <==> h[k].epoch <= te {
      if k < n {
        assert Applied(h, te, 0)[k] == h[k];
      } else if h[k].epoch <= te {
        assert h == h[..n] + h[n..];
        AppliedConcat(h[..n], h[n..], te, 0);
        forall j | 0 <= j < n ensures Wanted(h[..n][j], te, 0) { assert Applied(h, te, 0)[j] == h[j]; }
        AllApplied(h[..n], te, 0);
        SomeApplied(h[n..], k - n, te, 0);
      }
    }
  }

  // ------------------------------------------------------------------------------------------
  // Time stamps in a written log

  // A line that neither begins a transaction nor stamps one
  predicate Stampless(line: string) {
    var l := Chomp(line);
    !Tagged(l, "TX_BEGIN:") && !Tagged(l, "TS:")
  }

  lemma {:induction false} SkipStampless(lines: seq<string>, rest: seq<string>, id: nat, inTx: bool)
    requires forall k :: 0 <= k < |lines| ==> Stampless(lines[k])
    ensures exists b :: (b ==> inTx) && StampFrom(lines + rest, id, inTx) == StampFrom(rest, id, b)
    decreases |lines|
  {
    if lines == [] {
      assert lines + rest == rest;
      assert StampFrom(lines + rest, id, inTx) == StampFrom(rest, id, inTx);
    } else {
      hide Tagged, Chomp;
      assert (lines + rest)[1..] == lines[1..] + rest;
      SkipStampless(lines[1..], rest, id, inTx && !Tagged(Chomp(lines[0]), "TX_COMMIT:"));
    }
  }

  lemma SkipBegin(id': nat, rest: seq<string>, id: nat, inTx: bool)
    requires id' < TWO64
    ensures StampFrom(["TX_BEGIN:" + Print(id')] + rest, id, inTx) == StampFrom(rest, id, id' == id)
  {
    hide Print, StoULL;
    var line := "TX_BEGIN:" + Print(id');
    KindOfBegin(id');
    StoULLPrint(id');
    assert line[9..] == Print(id') && line[1] == 'X';
    assert ([line] + rest)[1..] == rest;
    assert !Tagged(line, "TX_COMMIT:") by { assert line[3] == 'B'; }
  }

  lemma StampRead(v: nat, rest: seq<string>, id: nat, inTx: bool)
    requires v < TWO63
    ensures StampFrom(["TS:" + Print(v)] + rest, id, inTx) == if inTx then v else StampFrom(rest, id, false)
  {
    hide Print;
    var line := "TS:" + Print(v);
    ScanPrint(v);
    ValuePrint(v);
    assert line[3..] == Print(v) && line[1] == 'S' && IsDigit(line[|line| - 1]);
    assert ([line] + rest)[1..] == rest;
  }

  lemma StamplessByStart(line: string)
    requires line != "" && line[0] != 'T'
    ensures Stampless(line)
  {
  }

  lemma {:induction false} ValuesStampless(values: seq<string>)
    ensures forall k :: 0 <= k < |ValueLines(values)| ==> Stampless(ValueLines(values)[k])
  {
    if values != [] {
      StamplessByStart("VAL " + WalEscape(values[0]));
      ValuesStampless(values[1..]);
    }
  }

  lemma OpStampless(op: Op)
    requires Printable(op)
    ensures forall k :: 0 <= k < |OpLines(op)| ==> Stampless(OpLines(op)[k])
  {
    hide Stampless, Print, WalEscape, AlterText, ValueLines;
    StamplessByStart(OpLine(op));
    ValuesStampless(op.values);
    StamplessByStart("SET " + op.setCol + " " + WalEscape(op.setVal));
    StamplessByStart("WHERE " + op.whereCol + " " + WalEscape(op.whereVal));
    StamplessByStart(AlterLine(op.alter));
  }

  lemma {:induction false} OpsStampless(ops: seq<Op>)
    requires AllPrintable(ops)
    ensures forall k :: 0 <= k < |OpsLines(ops)| ==> Stampless(OpsLines(ops)[k])
  {
    if ops != [] {
      hide Stampless, OpLines, Printable;
      OpStampless(ops[0]);
      StamplessByStart("---");
      OpsStampless(ops[1..]);
    }
  }

  // A commit line closes its transaction for the search, so the time stamp behind it is never taken.
  lemma SkipEnd(t: Tx, rest: seq<string>, id: nat, inTx: bool)
    requires Writable(t)
    ensures exists b :: (b ==> inTx) && (b ==> !t.ending.Committed?)
                        && StampFrom(EndLines(t) + rest, id, inTx) == StampFrom(rest, id, b)
  {
    hide Print, CrcLine, CommitLine, Crc, StampFrom, Stampless;
    match t.ending
    case Committed(crc, stamped) =>
      var last := if crc then [CrcLine(CommitLine(t.id))] else [];
      SkipCommit(t.id, StampText(stamped) + (last + rest), id, inTx);
      SkipStamp(stamped, last + rest, id);
      CrcStampless(CommitLine(t.id));
      SkipStampless(last, rest, id, false);
      assert EndLines(t) + rest == [CommitLine(t.id)] + (StampText(stamped) + (last + rest));
    case RolledBack =>
      RollbackStampless(t.id);
      SkipStampless(EndLines(t), rest, id, inTx);
    case Unfinished =>
      SkipStampless(EndLines(t), rest, id, inTx);
  }

  lemma SkipCommit(id': nat, rest: seq<string>, id: nat, inTx: bool)
    requires id' < TWO64
    ensures StampFrom([CommitLine(id')] + rest, id, inTx) == StampFrom(rest, id, false)
  {
    hide Print;
    KindOfCommit(id');
    var line := CommitLine(id');
    assert line[1] == 'X' && line[3] == 'C';
    assert ([line] + rest)[1..] == rest;
  }

  lemma SkipStamp(stamp: Option<nat>, rest: seq<string>, id: nat)
    ensures StampFrom(StampText(stamp) + rest, id, false) == StampFrom(rest, id, false)
  {
    hide Print, StoLL;
    if stamp.Some? {
      var line := "TS:" + Print(stamp.value);
      assert line[1] == 'S' && IsDigit(line[|line| - 1]);
      assert ([line] + rest)[1..] == rest;
    } else {
      assert [] + rest == rest;
    }
  }

  lemma RollbackStampless(id: nat)
    requires id < TWO64
    ensures Stampless("TX_ROLLBACK:" + Print(id))
  {
    hide Print;
    KindOfRollback(id);
    assert ("TX_ROLLBACK:" + Print(id))[1] == 'X' && ("TX_ROLLBACK:" + Print(id))[3] == 'R';
  }

  lemma CrcStampless(line: string)
    ensures Stampless(CrcLine(line))
  {
    assert CrcLine(line)[0] == 'C';
  }

  // One transaction's lines, for its own id and for another
  lemma StampOfTx(t: Tx, rest: seq<string>, id: nat, inTx: bool)
    requires Writable(t) && (t.stamp.Some? ==> t.stamp.value < TWO63)
    ensures t.id == id && t.stamp.Some? ==> StampFrom(TxLines(t) + rest, id, inTx) == t.stamp.value
    ensures t.id == id && t.stamp.None? ==> exists b :: StampFrom(TxLines(t) + rest, id, inTx) == StampFrom(rest, id, b)
    ensures t.id != id ==> StampFrom(TxLines(t) + rest, id, inTx) == StampFrom(rest, id, false)
  {
    hide StampFrom, OpsLines, EndLines, Print, Stampless, Writable;
    IdFits(t);
    var tail := EndLines(t) + rest;
    var more := StampLines(t) + (OpsLines(t.ops) + tail);
    assert TxLines(t) + rest == ["TX_BEGIN:" + Print(t.id)] + more;
    SkipBegin(t.id, more, id, inTx);
    OpsStampless(t.ops);
    SkipStampless(OpsLines(t.ops), tail, id, t.id == id);
    var b :| (b ==> t.id == id) && StampFrom(OpsLines(t.ops) + tail, id, t.id == id) == StampFrom(tail, id, b);
    SkipEnd(t, rest, id, b);
    if t.stamp.Some? {
      StampRead(t.stamp.value, OpsLines(t.ops) + tail, id, t.id == id);
    } else {
      assert more == OpsLines(t.ops) + tail;
    }
  }

  lemma {:induction false} StampNone(txs: seq<Tx>, id: nat, inTx: bool)
    requires AllWritable(txs) && forall j :: 0 <= j < |txs| ==> txs[j].id != id && (txs[j].stamp.Some? ==> txs[j].stamp.value < TWO63)
    ensures StampFrom(Log(txs), id, inTx) == 0
    decreases |txs|
  {
    if txs != [] {
      hide StampFrom, TxLines;
      StampOfTx(txs[0], Log(txs[1..]), id, inTx);
      StampNone(txs[1..], id, false);
    }
  }

  // In a serial log, parseTxTimestamp finds each transaction's own time stamp, or 0 when it has none.
  lemma {:induction false} StampFound(txs: seq<Tx>, i: nat, inTx: bool)
    requires AllWritable(txs) && i < |txs| && forall j :: 0 <= j < |txs| && j != i ==> txs[j].id != txs[i].id
    requires forall j :: 0 <= j < |txs| && txs[j].stamp.Some? ==> txs[j].stamp.value < TWO63
    ensures StampFrom(Log(txs), txs[i].id, inTx) == if txs[i].stamp.Some? then txs[i].stamp.value else 0
    decreases |txs|
  {
    hide StampFrom, TxLines, Writable;
    var id := txs[i].id;
    var rest := txs[1..];
    assert Writable(txs[0]);
    assert forall j :: 0 <= j < |rest| ==> rest[j] == txs[j + 1];
    StampOfTx(txs[0], Log(rest), id, inTx);
    if i > 0 {
      StampFound(rest, i - 1, false);
    } else if txs[0].stamp.None? {
      forall b: bool ensures StampFrom(Log(rest), id, b) == 0 { StampNone(rest, id, b); }
    }
  }

  // ------------------------------------------------------------------------------------------
  // Restoring from segments that transactions wrote

  datatype Archive = Archive(timestamp: int, txs: seq<Tx>)

  predicate Stamped(t: Tx) { t.stamp.Some? && 0 < t.stamp.value < TWO63 }

  predicate AllStamped(txs: seq<Tx>) { forall i :: 0 <= i < |txs| ==> Stamped(txs[i]) }

  // The scan reads the log right, and every transaction has its time stamp.
  ghost predicate Proper(a: Archive) { Serial(a.txs) && AllStamped(a.txs) }

  ghost predicate AllProper(archives: seq<Archive>) { forall i :: 0 <= i < |archives| ==> Proper(archives[i]) }

  lemma ProperWritable(a: Archive)
    requires Proper(a)
    ensures AllWritable(a.txs) && Distinct(a.txs) && AllStamped(a.txs)
    ensures CrcsFit(map[], a.txs)
  {
  }

  ghost function Segments(archives: seq<Archive>): seq<Segment>
    requires AllProper(archives)
  {
    if archives == [] then []
    else
      assert Proper(archives[0]);
      [Segment(archives[0].timestamp, Log(archives[0].txs))] + Segments(archives[1..])
  }

  function CommittedTxs(txs: seq<Tx>): seq<Tx> {
    if txs == [] then [] else (if txs[0].ending.Committed? then [txs[0]] else []) + CommittedTxs(txs[1..])
  }

  // The committed transactions of the segments since the backup
  function Done(archives: seq<Archive>, backupEpoch: int): seq<Tx> {
    if archives == [] then []
    else (if archives[0].timestamp >= backupEpoch then CommittedTxs(archives[0].txs) else [])
         + Done(archives[1..], backupEpoch)
  }

  function TxOps(txs: seq<Tx>): seq<Op> { if txs == [] then [] else txs[0].ops + TxOps(txs[1..]) }

  // The restored item is the transaction: its id, its time stamp, and its operations as the log gives them back.
  predicate IsOf(item: Item, t: Tx) {
    t.stamp.Some? && item.epoch == t.stamp.value && item.tx.txId == t.id && BlockOps(Unescaping, item.tx.opBlocks) == BackOps(Unescaping, t.ops)
  }

  predicate AreOf(items: seq<Item>, txs: seq<Tx>) {
    |items| == |txs| && forall k :: 0 <= k < |items| ==> IsOf(items[k], txs[k])
  }

  predicate EpochsFound(seg: Segment, txs: seq<Tx>) {
    forall i :: 0 <= i < |txs| ==> txs[i].stamp.Some? && EpochOf(seg, txs[i].id) == txs[i].stamp.value
  }

  lemma {:induction false} ItemsOf(seg: Segment, txs: seq<Tx>)
    requires AllWritable(txs) && EpochsFound(seg, txs)
    ensures AreOf(Items(seg, FullEntries(txs)), CommittedTxs(txs))
    decreases |txs|
  {
    hide Writable, EpochOf, FullEntry, BlockOps, BackOps;
    if txs != [] {
      var t, rest := txs[0], txs[1..];
      assert forall i :: 0 <= i < |rest| ==> rest[i] == txs[i + 1];
      FullItem(t);
      ItemsOf(seg, rest);
      assert FullEntries(txs)[0] == FullEntry(t) && FullEntries(txs)[1..] == FullEntries(rest);
    }
  }

  lemma FullItem(t: Tx)
    requires Writable(t)
    ensures var e := FullEntry(t);
            e.txId == t.id && e.committed == t.ending.Committed? && BlockOps(Unescaping, e.opBlocks) == BackOps(Unescaping, t.ops)
  {
    hide Blocks, Body, Chop, BlockOps, BackOps;
    ChopBody(t);
    BlockOpsOfTx(Unescaping, t);
  }

  lemma EpochsOf(a: Archive)
    requires Distinct(a.txs) && AllStamped(a.txs)
    ensures AllWritable(a.txs) && EpochsFound(Segment(a.timestamp, Log(a.txs)), a.txs)
  {
    hide StampFrom, Writable;
    forall i | 0 <= i < |a.txs|
      ensures a.txs[i].stamp.Some? && EpochOf(Segment(a.timestamp, Log(a.txs)), a.txs[i].id) == a.txs[i].stamp.value
    {
      assert Stamped(a.txs[i]);
      StampFound(a.txs, i, false);
    }
  }

  lemma ArchiveItems(a: Archive)
    requires Proper(a)
    ensures AllWritable(a.txs)
    ensures AreOf(Items(Segment(a.timestamp, Log(a.txs)), WalScan.Scan(START, Log(a.txs)).txs), CommittedTxs(a.txs))
  {
    hide Items, WalScan.Scan, Proper, CommittedTxs, AreOf, Log, FullEntries, CrcsFit, Distinct, EpochsFound,
      AllStamped, Apart, AllWritable;
    ProperWritable(a);
    EpochsOf(a);
    ItemsOf(Segment(a.timestamp, Log(a.txs)), a.txs);
    ApartStart(a.txs);
    ScanToEnd(START, a.txs);
    assert [] + FullEntries(a.txs) == FullEntries(a.txs);
  }

  lemma AreConcat(a: seq<Item>, b: seq<Item>, u: seq<Tx>, v: seq<Tx>)
    requires AreOf(a, u) && AreOf(b, v)
    ensures AreOf(a + b, u + v)
  {
    hide IsOf;
  }

  // The history that the restore reads from the segments is the list of the committed transactions.
  lemma {:induction false} HistoryWritten(archives: seq<Archive>, backupEpoch: int)
    requires AllProper(archives)
    ensures AreOf(History(Segments(archives), backupEpoch), Done(archives, backupEpoch))
    decreases |archives|
  {
    hide Items, WalScan.Scan, Proper, CommittedTxs, IsOf, Log;
    if archives != [] {
      var a, rest := archives[0], archives[1..];
      assert Proper(a);
      assert forall i :: 0 <= i < |rest| ==> rest[i] == archives[i + 1];
      HistoryWritten(rest, backupEpoch);
      ArchiveItems(a);
      var seg := Segment(a.timestamp, Log(a.txs));
      assert Segments(archives)[0] == seg && Segments(archives)[1..] == Segments(rest);
      hide AreOf;
      if a.timestamp >= backupEpoch {
        AreConcat(Items(seg, WalScan.Scan(START, Log(a.txs)).txs), History(Segments(rest), backupEpoch),
                  CommittedTxs(a.txs), Done(rest, backupEpoch));
      } else {
        assert [] + History(Segments(rest), backupEpoch) == History(Segments(rest), backupEpoch);
        assert [] + Done(rest, backupEpoch) == Done(rest, backupEpoch);
      }
    }
  }

  lemma ApartStart(txs: seq<Tx>)
    ensures Apart(START, txs)
  {
  }

  lemma {:induction false} OpsOf(items: seq<Item>, txs: seq<Tx>)
    requires AreOf(items, txs)
    ensures ItemOps(items) == BackOps(Unescaping, TxOps(txs))
    decreases |items|
  {
    hide BlockOps, BackOps;
    BackNone(Unescaping);
    if items != [] {
      assert IsOf(items[0], txs[0]);
      BackConcat(Unescaping, txs[0].ops, TxOps(txs[1..]));
      OpsOf(items[1..], txs[1..]);
    }
  }

  predicate TimesRise(txs: seq<Tx>) {
    forall i, j :: 0 <= i < j < |txs| && txs[i].stamp.Some? && txs[j].stamp.Some? ==>
      txs[i].stamp.value <= txs[j].stamp.value || txs[i].stamp.value <= 1
  }

  lemma TimesOf(items: seq<Item>, txs: seq<Tx>)
    requires AreOf(items, txs)
    ensures InTimeOrder(items) <==> TimesRise(txs)
  {
    hide BlockOps, BackOps;
    forall k | 0 <= k < |txs| ensures txs[k].stamp.Some? && items[k].epoch == txs[k].stamp.value { assert IsOf(items[k], txs[k]); }
  }

  // Over written segments, every time target reaches a prefix of the committed transactions exactly when their time stamps
  // do not go down.
  lemma WrittenTargets(archives: seq<Archive>, backupEpoch: int)
    requires AllProper(archives)
    ensures (forall te: int :: te > 0 ==> AppliesPrefix(History(Segments(archives), backupEpoch), te, 0))
       <==> TimesRise(Done(archives, backupEpoch))
  {
    hide AppliesPrefix, History, Segments, Done, InTimeOrder, TimesRise, AreOf;
    HistoryWritten(archives, backupEpoch);
    TimeTargets(History(Segments(archives), backupEpoch));
    TimesOf(History(Segments(archives), backupEpoch), Done(archives, backupEpoch));
  }

  // A restore to a point in time replays exactly the operations of the first committed transactions, namely the ones that
  // began up to that time, as the log gives them back: as they were exactly when no value in them is empty.
  lemma PointWritten<E>(engine: Engine<E>, base: E, e: E, result: Restore, archives: seq<Archive>, backupEpoch: int, te: int)
    requires AllProper(archives) && te > 0 && TimesRise(Done(archives, backupEpoch))
    requires Restored(engine, base, e, result, History(Segments(archives), backupEpoch), te, 0)
    ensures var done := Done(archives, backupEpoch);
            result.replayedTx <= |done| && result.replayedTx + result.skippedTx == |done|
            && e == ReplayOps(engine, base, 0, BackOps(Unescaping, TxOps(done[..result.replayedTx]))).0
            && (BackOps(Unescaping, TxOps(done[..result.replayedTx])) == TxOps(done[..result.replayedTx])
                <==> AllCarried(Unescaping, TxOps(done[..result.replayedTx])))
            && (forall k :: 0 <= k < |done| ==>
                  done[k].stamp.Some? && (k < result.replayedTx <==> done[k].stamp.value <= te))
  {
    hide Restored, ReplayOps, History, Segments, Done, InTimeOrder, TimesRise, ItemOps, TxOps, BlockOps, BackOps,
      AllCarried;
    var h, done := History(Segments(archives), backupEpoch), Done(archives, backupEpoch);
    HistoryWritten(archives, backupEpoch);
    TimesOf(h, done);
    PointReached(engine, base, e, result, h, te);
    var n := result.replayedTx;
    assert AreOf(h[..n], done[..n]);
    OpsOf(h[..n], done[..n]);
    BackSame(Unescaping, TxOps(done[..n]));
    forall k | 0 <= k < |done| ensures done[k].stamp.Some? && h[k].epoch == done[k].stamp.value { assert IsOf(h[k], done[k]); }
  }

  function CommitTime(t: Tx): Option<nat> { if t.ending.Committed? then t.ending.stamped else None }

  // Every target restores the transaction exactly when it was committed by then.
  ghost predicate CommitDecides(item: Item, t: Tx) {
    CommitTime(t).Some? && forall te: int :: te > 0 ==> (Wanted(item, te, 0) <==> CommitTime(t).value <= te)
  }

  predicate SameSecond(t: Tx) {
    CommitTime(t).Some? && t.stamp.Some?
    && (CommitTime(t).value == t.stamp.value || (CommitTime(t).value <= 1 && t.stamp.value <= 1))
  }

  lemma SecondDecides(item: Item, t: Tx)
    requires IsOf(item, t) && CommitTime(t).Some?
    ensures CommitDecides(item, t) <==> SameSecond(t)
  {
    hide BlockOps, BackOps;
    var began, done := t.stamp.value, CommitTime(t).value;
    if !SameSecond(t) {
      var te: int := if began < done then if began > 0 then began else 1 else if done > 0 then done else 1;
      assert te > 0 && !(Wanted(item, te, 0) <==> done <= te);
    }
  }

  // The time that counts is when a transaction began; the stamp behind its commit line is never read. So a restore to any
  // time gives what was committed by then exactly when every transaction was committed in the second it began.
  lemma CommittedByTarget(archives: seq<Archive>, backupEpoch: int)
    requires AllProper(archives)
    requires forall k :: 0 <= k < |Done(archives, backupEpoch)| ==> CommitTime(Done(archives, backupEpoch)[k]).Some?
    ensures var h, done := History(Segments(archives), backupEpoch), Done(archives, backupEpoch);
            |h| == |done|
            && ((forall k :: 0 <= k < |done| ==> CommitDecides(h[k], done[k]))
                <==> forall k :: 0 <= k < |done| ==> SameSecond(done[k]))
  {
    hide History, Segments, Done, IsOf, CommitDecides, SameSecond, CommitTime;
    HistoryWritten(archives, backupEpoch);
    var h, done := History(Segments(archives), backupEpoch), Done(archives, backupEpoch);
    forall k | 0 <= k < |done| ensures CommitDecides(h[k], done[k]) <==> SameSecond(done[k]) { SecondDecides(h[k], done[k]); }
  }

  // ------------------------------------------------------------------------------------------
  // The log that is not archived yet

  lemma {:induction false} HistoryConcat(a: seq<Segment>, b: seq<Segment>, backupEpoch: int)
    ensures History(a + b, backupEpoch) == History(a, backupEpoch) + History(b, backupEpoch)
    decreases |a|
  {
    hide Items, WalScan.Scan;
    if a == [] {
      assert a + b == b && [] + History(b, backupEpoch) == History(b, backupEpoch);
    } else {
      assert (a + b)[1..] == a[1..] + b;
      HistoryConcat(a[1..], b, backupEpoch);
      var own := if a[0].timestamp >= backupEpoch then Items(a[0], WalScan.Scan(START, a[0].lines).txs) else [];
      Regroup(own, History(a[1..], backupEpoch), History(b, backupEpoch));
    }
  }

  // Reading the current log too would apply the same transactions exactly when it has no committed transaction that
  // passes both targets.
  lemma CurrentLogMissed(segs: seq<Segment>, cur: Segment, backupEpoch: int, te: int, ti: nat)
    ensures Applied(History(segs + [cur], backupEpoch), te, ti) == Applied(History(segs, backupEpoch), te, ti)
       <==> forall k :: 0 <= k < |History([cur], backupEpoch)| ==> !Wanted(History([cur], backupEpoch)[k], te, ti)
  {
    hide History, Applied, Wanted;
    var h, more := History(segs, backupEpoch), History([cur], backupEpoch);
    HistoryConcat(segs, [cur], backupEpoch);
    AppliedConcat(h, more, te, ti);
    if forall k :: 0 <= k < |more| ==> !Wanted(more[k], te, ti) {
      NoneApplied(more, te, ti);
      assert Applied(h, te, ti) + [] == Applied(h, te, ti);
    } else {
      var k :| 0 <= k < |more| && Wanted(more[k], te, ti);
      SomeApplied(more, k, te, ti);
      assert |Applied(h, te, ti) + Applied(more, te, ti)| > |Applied(h, te, ti)|;
    }
  }

  predicate WantedTx(t: Tx, te: int, ti: nat) {
    !(te > 0 && t.stamp.Some? && t.stamp.value > te) && !(ti > 0 && t.id > ti)
  }

  // The same told of the transactions that wrote the current log
  lemma CurrentWritten(segs: seq<Segment>, cur: Archive, backupEpoch: int, te: int, ti: nat)
    requires Proper(cur)
    ensures AllWritable(cur.txs)
    ensures Applied(History(segs + [Segment(cur.timestamp, Log(cur.txs))], backupEpoch), te, ti)
              == Applied(History(segs, backupEpoch), te, ti)
       <==> forall k :: 0 <= k < |Done([cur], backupEpoch)| ==> !WantedTx(Done([cur], backupEpoch)[k], te, ti)
  {
    hide History, Applied, Wanted, Done, Proper, Log, IsOf, WantedTx;
    ProperWritable(cur);
    var seg := Segment(cur.timestamp, Log(cur.txs));
    CurrentLogMissed(segs, seg, backupEpoch, te, ti);
    OneSegment(cur);
    HistoryWritten([cur], backupEpoch);
    var h, done := History([seg], backupEpoch), Done([cur], backupEpoch);
    forall k | 0 <= k < |done| ensures Wanted(h[k], te, ti) <==> WantedTx(done[k], te, ti) {
      WantedSame(h[k], done[k], te, ti);
    }
  }

  lemma WantedSame(item: Item, t: Tx, te: int, ti: nat)
    requires IsOf(item, t)
    ensures Wanted(item, te, ti) <==> WantedTx(t, te, ti)
  {
    hide BlockOps, BackOps;
  }

  lemma OneSegment(a: Archive)
    requires Proper(a)
    ensures AllProper([a]) && AllWritable(a.txs) && Segments([a]) == [Segment(a.timestamp, Log(a.txs))]
  {
    hide Proper, Log;
    ProperWritable(a);
    assert [a][1..] == [];
    assert Segments([]) == [];
  }

  // ------------------------------------------------------------------------------------------
  // Small logs at which the conditions fail

  // A committed transaction without operations
  function Plain(id: nat, began: nat, ended: nat): Tx { Tx(id, Some(began), [], Committed(true, Some(ended))) }

  predicate AllPlain(txs: seq<Tx>) {
    forall i :: 0 <= i < |txs| ==> txs[i].ops == [] && Checked(txs[i]) && Stamped(txs[i]) && txs[i].id < TWO64
  }

  lemma PlainProper(txs: seq<Tx>, timestamp: int)
    requires AllPlain(txs) && forall i, j :: 0 <= i < j < |txs| ==> txs[i].id != txs[j].id
    ensures Proper(Archive(timestamp, txs))
  {
    hide CrcsFit;
    RisingFits(map[], txs);
  }

  lemma DoneOne(a: Archive, backupEpoch: int)
    requires a.timestamp >= backupEpoch && AllPlain(a.txs)
    ensures Done([a], backupEpoch) == a.txs
  {
    hide CommittedTxs;
    assert [a][1..] == [] && Done([], backupEpoch) == [];
    AllCommitted(a.txs);
    assert a.txs + [] == a.txs;
  }

  lemma {:induction false} AllCommitted(txs: seq<Tx>)
    requires AllPlain(txs)
    ensures CommittedTxs(txs) == txs
  {
    if txs != [] {
      var rest := txs[1..];
      assert forall i :: 0 <= i < |rest| ==> rest[i] == txs[i + 1];
      AllCommitted(rest);
      assert txs == [txs[0]] + rest;
    }
  }

  // Committed at second 7 and not archived: a restore to second 9 leaves it out, whatever the archive holds.
  lemma CurrentLogLost(segs: seq<Segment>)
    ensures var cur := Archive(8, [Plain(1, 7, 7)]);
            Proper(cur) && AllWritable(cur.txs)
            && Applied(History(segs + [Segment(8, Log(cur.txs))], 5), 9, 0) != Applied(History(segs, 5), 9, 0)
  {
    hide Applied, History, Log, Proper, Done;
    var cur := Archive(8, [Plain(1, 7, 7)]);
    PlainProper(cur.txs, 8);
    CurrentWritten(segs, cur, 5, 9, 0);
    DoneOne(cur, 5);
    assert WantedTx(cur.txs[0], 9, 0);
  }

  // A stamp goes down from 9 to 5: a restore to second 7 skips the first transaction and replays the second.
  lemma OutOfOrder()
    ensures var a := Archive(9, [Plain(1, 9, 9), Plain(2, 5, 9)]);
            AllProper([a]) && !AppliesPrefix(History(Segments([a]), 0), 7, 0)
  {
    hide AppliesPrefix, History, Segments, Proper, Done, Wanted;
    var a := Archive(9, [Plain(1, 9, 9), Plain(2, 5, 9)]);
    PlainProper(a.txs, 9);
    OneSegment(a);
    HistoryWritten([a], 0);
    DoneOne(a, 0);
    var h := History(Segments([a]), 0);
    WantedSame(h[0], a.txs[0], 7, 0);
    WantedSame(h[1], a.txs[1], 7, 0);
    PrefixIff(h, 7, 0);
  }

  // Begun at 5 and committed at 9: a restore to second 7 has it.
  lemma BegunCounts()
    ensures var a := Archive(9, [Plain(1, 5, 9)]);
            AllProper([a]) && |History(Segments([a]), 0)| == 1 && Wanted(History(Segments([a]), 0)[0], 7, 0)
            && CommitTime(a.txs[0]) == Some(9)
  {
    hide History, Segments, Proper, Done, Wanted;
    var a := Archive(9, [Plain(1, 5, 9)]);
    PlainProper(a.txs, 9);
    OneSegment(a);
    HistoryWritten([a], 0);
    DoneOne(a, 0);
    WantedSame(History(Segments([a]), 0)[0], a.txs[0], 7, 0);
  }
}
