/** `recover`: replaying the committed transactions of the log, and what that leaves after a crash. */
module WalRecovery {
  import opened Text
  import opened Decimal
  import opened WalScan
  import opened WalOps
  import opened WalLog

  // ------------------------------------------------------------------------------------------
  // Recovery

  // The engine is a parameter: applying an operation gives a new state, or throws.
  datatype Engine<!E> = Engine(apply: (E, Op) -> Option<E>)

  // State and number of applied operations
  function ReplayOps<E>(engine: Engine<E>, e: E, n: nat, ops: seq<Op>): (E, nat)
    decreases |ops|
  {
    if ops == [] then (e, n)
    else match engine.apply(e, ops[0])
         case Some(e') => ReplayOps(engine, e', n + 1, ops[1..])
         case None => ReplayOps(engine, e, n, ops[1..])
  }

  // The operations that a list of blocks holds
  function BlockOps(rd: Reader, blocks: seq<seq<string>>): seq<Op> {
    if blocks == [] then []
    else (match ParseOpBlock(rd, blocks[0]) case Some(op) => [op] case None => []) + BlockOps(rd, blocks[1..])
  }

  // The operations of the committed transactions, in log order
  function CommittedOps(rd: Reader, txs: seq<TxEntry>): seq<Op> {
    if txs == [] then [] else (if txs[0].committed then BlockOps(rd, txs[0].opBlocks) else []) + CommittedOps(rd, txs[1..])
  }

  predicate Recovers(tx: TxEntry) { tx.committed }

  // Rolled back, or without any complete operation
  predicate Remains(tx: TxEntry) { !tx.committed && (tx.rolledBack || tx.opBlocks == []) }

  predicate Discards(tx: TxEntry) { !tx.committed && !tx.rolledBack && tx.opBlocks != [] }

  function Count(txs: seq<TxEntry>, p: TxEntry -> bool): nat {
    if txs == [] then 0 else (if p(txs[0]) then 1 else 0) + Count(txs[1..], p)
  }

  datatype Result = Result(hadWal: bool, recoveredTxCount: nat, discardedTxCount: nat, replayedOpCount: nat)

  lemma {:induction false} ReplayConcat<E>(engine: Engine<E>, e: E, n: nat, a: seq<Op>, b: seq<Op>)
    ensures ReplayOps(engine, e, n, a + b)
         == var (e', n') := ReplayOps(engine, e, n, a); ReplayOps(engine, e', n', b)
    decreases |a|
  {
    if a == [] {
      assert a + b == b;
    } else {
      assert (a + b)[1..] == a[1..] + b;
      match engine.apply(e, a[0])
      case Some(e') => ReplayConcat(engine, e', n + 1, a[1..], b);
      case None => ReplayConcat(engine, e, n, a[1..], b);
    }
  }

  method ReplayBlocks<E>(rd: Reader, engine: Engine<E>, e: E, n: nat, blocks: seq<seq<string>>) returns (r: E, m: nat)
    ensures (r, m) == ReplayOps(engine, e, n, BlockOps(rd, blocks))
  {
    r, m := e, n;
    var i: nat := 0;
    assert blocks[0..] == blocks;
    while i < |blocks|
      invariant i <= |blocks|
      invariant ReplayOps(engine, r, m, BlockOps(rd, blocks[i..])) == ReplayOps(engine, e, n, BlockOps(rd, blocks))
    {
      hide ParseOpBlock, BlockOps, ReplayOps;
      assert blocks[i..][0] == blocks[i] && blocks[i..][1..] == blocks[i + 1..];
      ReplayFirst(rd, engine, r, m, blocks[i..]);
      var op, hasOp := ReadOpBlock(rd, blocks[i]);
      if hasOp {
        match engine.apply(r, op) {
          case Some(r') => r, m := r', m + 1;
          case None =>
        }
      }
      i := i + 1;
    }
    assert blocks[i..] == [];
  }

  // One block: an operation that the engine takes or refuses, or nothing
  lemma ReplayFirst<E>(rd: Reader, engine: Engine<E>, e: E, n: nat, blocks: seq<seq<string>>)
    requires blocks != []
    ensures var rest := BlockOps(rd, blocks[1..]);
            ReplayOps(engine, e, n, BlockOps(rd, blocks)) ==
            match ParseOpBlock(rd, blocks[0])
            case None => ReplayOps(engine, e, n, rest)
            case Some(op) =>
              match engine.apply(e, op)
              case Some(e') => ReplayOps(engine, e', n + 1, rest)
              case None => ReplayOps(engine, e, n, rest)
  {
    hide ParseOpBlock;
    var rest := BlockOps(rd, blocks[1..]);
    assert [] + rest == rest;
    if ParseOpBlock(rd, blocks[0]).Some? {
      var op := ParseOpBlock(rd, blocks[0]).value;
      assert ([op] + rest)[0] == op && ([op] + rest)[1..] == rest;
    }
  }

  method Recover<E>(rd: Reader, engine: Engine<E>, e: E, file: Option<seq<string>>) returns (r: E, result: Result)
    ensures file.None? ==> r == e && result == Result(false, 0, 0, 0)
    ensures file.Some? ==>
              var txs := WalScan.Scan(START, file.value).txs;
              (r, result.replayedOpCount) == ReplayOps(engine, e, 0, CommittedOps(rd, txs)) && result.hadWal
              && result.recoveredTxCount == Count(txs, Recovers)
              && result.discardedTxCount == Count(txs, Discards)
              && result.recoveredTxCount + result.discardedTxCount + Count(txs, Remains) == |txs|
  {
    hide WalScan.Scan, Count, CommittedOps, BlockOps, ReplayOps;
    if file.None? { return e, Result(false, 0, 0, 0); }
    var txList := ScanWal(file.value);
    var recovered: nat, discarded: nat := 0, 0;
    var i: nat := 0;
    assert txList[0..] == txList;
    while i < |txList|
      invariant i <= |txList|
      invariant recovered + Count(txList[i..], Recovers) == Count(txList, Recovers)
      invariant discarded + Count(txList[i..], Discards) == Count(txList, Discards)
    {
      CountNext(txList, i, Recovers);
      CountNext(txList, i, Discards);
      if txList[i].committed {
        recovered := recovered + 1;
      } else if !txList[i].rolledBack && txList[i].opBlocks != [] {
        discarded := discarded + 1;
      }
      i := i + 1;
    }
    var replayed: nat := 0;
    r, i := e, 0;
    while i < |txList|
      invariant i <= |txList|
      invariant ReplayOps(engine, r, replayed, CommittedOps(rd, txList[i..])) == ReplayOps(engine, e, 0, CommittedOps(rd, txList))
    {
      OpsNext(rd, txList, i);
      if txList[i].committed {
        ReplayConcat(engine, r, replayed, BlockOps(rd, txList[i].opBlocks), CommittedOps(rd, txList[i + 1..]));
        r, replayed := ReplayBlocks(rd, engine, r, replayed, txList[i].opBlocks);
      } else {
        assert [] + CommittedOps(rd, txList[i + 1..]) == CommittedOps(rd, txList[i + 1..]);
      }
      i := i + 1;
    }
    CountParts(txList);
    assert txList[i..] == [];
    ReplayNothing(rd, engine, r, replayed);
    result := Result(true, recovered, discarded, replayed);
  }

  lemma CountNext(txs: seq<TxEntry>, i: nat, p: TxEntry -> bool)
    requires i < |txs|
    ensures Count(txs[i..], p) == (if p(txs[i]) then 1 else 0) + Count(txs[i + 1..], p)
    ensures Count(txs[|txs|..], p) == 0
  {
    assert txs[i..][1..] == txs[i + 1..];
  }

  lemma OpsNext(rd: Reader, txs: seq<TxEntry>, i: nat)
    requires i < |txs|
    ensures CommittedOps(rd, txs[i..])
         == (if txs[i].committed then BlockOps(rd, txs[i].opBlocks) else []) + CommittedOps(rd, txs[i + 1..])
  {
    assert txs[i..][1..] == txs[i + 1..];
  }

  lemma ReplayNothing<E>(rd: Reader, engine: Engine<E>, e: E, n: nat)
    ensures ReplayOps(engine, e, n, CommittedOps(rd, [])) == (e, n)
    ensures forall p :: Count([], p) == 0
  {
  }

  lemma {:induction false} CountParts(txs: seq<TxEntry>)
    ensures Count(txs, Recovers) + Count(txs, Discards) + Count(txs, Remains) == |txs|
  {
    if txs != [] { CountParts(txs[1..]); }
  }

  // The state after the first k operations: each is applied, or changes nothing when the engine refuses it.
  function After<E>(engine: Engine<E>, e: E, ops: seq<Op>, k: nat): E
    requires k <= |ops|
  {
    if k == 0 then e
    else match engine.apply(After(engine, e, ops, k - 1), ops[k - 1])
         case Some(e') => e'
         case None => After(engine, e, ops, k - 1)
  }

  // The operations that the engine takes
  function Taken<E>(engine: Engine<E>, e: E, ops: seq<Op>): set<nat> {
    set i: nat | i < |ops| && engine.apply(After(engine, e, ops, i), ops[i]).Some?
  }

  // Replaying leaves the state after all operations, and counts those that were taken.
  lemma {:induction false} ReplayMeans<E>(engine: Engine<E>, e: E, n: nat, ops: seq<Op>)
    ensures ReplayOps(engine, e, n, ops) == (After(engine, e, ops, |ops|), n + |Taken(engine, e, ops)|)
    decreases |ops|
  {
    if ops == [] {
      assert Taken(engine, e, ops) == {};
    } else {
      var k := |ops| - 1;
      var init, last := ops[..k], ops[k];
      assert ops == init + [last];
      ReplayMeans(engine, e, n, init);
      ReplayConcat(engine, e, n, init, [last]);
      forall i: nat | i <= k ensures After(engine, e, ops, i) == After(engine, e, init, i) { AfterInit(engine, e, ops, i); }
      var taken := engine.apply(After(engine, e, ops, k), last).Some?;
      assert Taken(engine, e, ops) == Taken(engine, e, init) + if taken then {k} else {};
      assert k !in Taken(engine, e, init);
      ReplayOne(engine, After(engine, e, init, k), ReplayOps(engine, e, n, init).1, last);
    }
  }

  lemma ReplayOne<E>(engine: Engine<E>, e: E, n: nat, op: Op)
    ensures ReplayOps(engine, e, n, [op])
         == match engine.apply(e, op) case Some(e') => (e', n + 1) case None => (e, n)
  {
    assert [op][1..] == [];
  }

  lemma {:induction false} AfterInit<E>(engine: Engine<E>, e: E, ops: seq<Op>, i: nat)
    requires ops != [] && i <= |ops| - 1
    ensures After(engine, e, ops, i) == After(engine, e, ops[..|ops| - 1], i)
  {
    if i > 0 { AfterInit(engine, e, ops, i - 1); }
  }

  // The places from k on with this property
  function Places(txs: seq<TxEntry>, p: TxEntry -> bool, k: nat): set<nat> { set i: nat | k <= i < |txs| && p(txs[i]) }

  lemma {:induction false} CountPlaces(txs: seq<TxEntry>, p: TxEntry -> bool, k: nat)
    requires k <= |txs|
    ensures Count(txs[k..], p) == |Places(txs, p, k)|
    decreases |txs| - k
  {
    if k == |txs| {
      assert Places(txs, p, k) == {};
    } else {
      CountPlaces(txs, p, k + 1);
      CountNext(txs, k, p);
      assert Places(txs, p, k) == Places(txs, p, k + 1) + if p(txs[k]) then {k} else {};
      assert k !in Places(txs, p, k + 1);
    }
  }

  function Committed(txs: seq<TxEntry>): set<nat> { set i: nat | i < |txs| && txs[i].committed }

  function Unfinished(txs: seq<TxEntry>): set<nat> {
    set i: nat | i < |txs| && !txs[i].committed && !txs[i].rolledBack && |txs[i].opBlocks| > 0
  }

  // A transaction counts as recovered when it is committed, and as discarded when it is neither committed nor rolled back
  // and has at least one complete operation.
  lemma CountsAre(txs: seq<TxEntry>)
    ensures Count(txs, Recovers) == |Committed(txs)| && Count(txs, Discards) == |Unfinished(txs)|
  {
    hide Count;
    CountPlaces(txs, Recovers, 0);
    CountPlaces(txs, Discards, 0);
    assert txs[0..] == txs;
    assert Places(txs, Recovers, 0) == Committed(txs) && Places(txs, Discards, 0) == Unfinished(txs);
  }

  // ------------------------------------------------------------------------------------------
  // What recovery applies

  // The operations of the transactions whose commit line is among the first k lines, in log order
  function DurableOps(txs: seq<Tx>, k: nat): seq<Op>
    requires AllWritable(txs)
    decreases |txs|
  {
    if txs == [] then []
    else (if txs[0].ending.Committed? && CommitEnd(txs, 0) <= k then txs[0].ops else [])
         + DurableOps(txs[1..], if k < |TxLines(txs[0])| then 0 else k - |TxLines(txs[0])|)
  }

  predicate AllCarried(rd: Reader, ops: seq<Op>) { forall j :: 0 <= j < |ops| ==> Carried(rd, ops[j]) }

  // What comes back of a list of operations
  function BackOps(rd: Reader, ops: seq<Op>): (r: seq<Op>)
    ensures |r| == |ops| && forall j :: 0 <= j < |ops| ==> r[j] == BackOp(rd, ops[j])
  {
    if ops == [] then [] else [BackOp(rd, ops[0])] + BackOps(rd, ops[1..])
  }

  lemma {:induction false} BackConcat(rd: Reader, a: seq<Op>, b: seq<Op>)
    ensures BackOps(rd, a + b) == BackOps(rd, a) + BackOps(rd, b)
    decreases |a|
  {
    hide BackOp;
    if a == [] {
      assert a + b == b && [] + BackOps(rd, b) == BackOps(rd, b);
    } else {
      assert (a + b)[1..] == a[1..] + b;
      BackConcat(rd, a[1..], b);
    }
  }

  // The operations come back as they were exactly when the log carries each of them.
  lemma BackSame(rd: Reader, ops: seq<Op>)
    ensures BackOps(rd, ops) == ops <==> AllCarried(rd, ops)
  {
    hide BackOp, BackOps, Carried;
    var r := BackOps(rd, ops);
    forall j | 0 <= j < |ops| ensures BackOp(rd, ops[j]) == ops[j] <==> Carried(rd, ops[j]) { BackOpSame(rd, ops[j]); }
    if r == ops {
      forall j | 0 <= j < |ops| ensures Carried(rd, ops[j]) { assert r[j] == ops[j]; }
    }
  }

  lemma {:induction false} BlockOpsOf(rd: Reader, front: seq<string>, ops: seq<Op>)
    requires AllPrintable(ops) && StampLine(front)
    ensures BlockOps(rd, BlocksOf(front, ops)) == BackOps(rd, ops)
    decreases |ops|
  {
    hide ParseOpBlock, Printable, OpLines, BackOp;
    if ops != [] {
      assert Printable(ops[0]);
      ParsePrinted(rd, ops[0], front);
      BlockOpsOf(rd, [], ops[1..]);
      assert BlocksOf(front, ops)[1..] == BlocksOf([], ops[1..]);
    }
  }

  lemma BlockOpsOfTx(rd: Reader, t: Tx)
    requires Writable(t)
    ensures BlockOps(rd, Blocks(t)) == BackOps(rd, t.ops)
  {
    if t.stamp.Some? { assert StampLines(t)[0] == "TS:" + Print(t.stamp.value); }
    BlockOpsOf(rd, StampLines(t), t.ops);
  }

  lemma {:induction false} DurableEntries(rd: Reader, txs: seq<Tx>, k: nat)
    requires AllWritable(txs)
    ensures CommittedOps(rd, Entries(txs, k)) == BackOps(rd, DurableOps(txs, k))
    decreases |txs|
  {
    hide TxLines, EntryAt, Blocks, Body, Writable, BlockOps, BackOp, BackOps;
    BackNone(rd);
    if txs != [] {
      var t := txs[0];
      var n := |TxLines(t)|;
      EndWithin(t);
      BlockOpsOfTx(rd, t);
      var later := if k < n then 0 else k - n;
      DurableEntries(rd, txs[1..], later);
      var own := if t.ending.Committed? && CommitEnd(txs, 0) <= k then t.ops else [];
      BackConcat(rd, own, DurableOps(txs[1..], later));
      if k > 0 {
        var e := EntryAt(t, if k < n then k else n);
        EntryAtomic(t, if k < n then k else n);
        assert Entries(txs, k)[0] == e && Entries(txs, k)[1..] == Entries(txs[1..], later);
      } else {
        assert [] + DurableOps(txs[1..], 0) == DurableOps(txs[1..], 0);
      }
    }
  }

  lemma BackNone(rd: Reader)
    ensures BackOps(rd, []) == []
  {
  }

  // Durability and atomicity together: whatever line the crash cut the log at, recovery leaves the engine in the state
  // reached by the operations of exactly the transactions whose commit line was written, in order, each as the log gives it
  // back: complete but for its empty values.
  lemma RecoverDurable<E>(rd: Reader, engine: Engine<E>, e: E, txs: seq<Tx>, k: nat)
    requires Serial(txs) && k <= |Log(txs)|
    ensures ReplayOps(engine, e, 0, CommittedOps(rd, WalScan.Scan(START, Log(txs)[..k]).txs))
         == ReplayOps(engine, e, 0, BackOps(rd, DurableOps(txs, k)))
  {
    CrashAtomicity(txs, k);
    DurableEntries(rd, txs, k);
  }

  // These are the operations as they were written exactly when the log carries each of them.
  lemma RecoverWritten(rd: Reader, txs: seq<Tx>, k: nat)
    requires Serial(txs) && k <= |Log(txs)|
    ensures CommittedOps(rd, WalScan.Scan(START, Log(txs)[..k]).txs) == DurableOps(txs, k)
       <==> AllCarried(rd, DurableOps(txs, k))
  {
    hide CommittedOps, WalScan.Scan, Log, DurableOps, BackOps, Serial, Entries;
    CrashAtomicity(txs, k);
    SerialWritable(txs);
    DurableEntries(rd, txs, k);
    BackSame(rd, DurableOps(txs, k));
  }

  lemma SerialWritable(txs: seq<Tx>)
    requires Serial(txs)
    ensures AllWritable(txs)
  {
  }
}
