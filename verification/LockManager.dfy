/** Row and table locks shared by many threads. Every method runs under one mutex, so a run is a sequence of atomic steps. */
module LockManager {

  type Thread = nat

  datatype LockType = Read | Write

  datatype TableLock = TableLock(holders: set<Thread>, kind: LockType)

  function RowKey(table: string, row: string): string { table + ":" + row }

  // ------------------------------------------------------------------------------------------
  // The two maps of the lock manager as a value, and each method as a step

  datatype Locks = Locks(rows: map<string, Thread>, tables: map<string, TableLock>)

  const UNLOCKED := Locks(map[], map[])

  datatype Op =
    | AcquireRow(table: string, row: string)
    | AcquireTable(name: string, kind: LockType)
    | ReleaseRows
    | ReleaseTables
    | ReleaseAll

  datatype Event = Event(thread: Thread, op: Op)

  function TakeRow(l: Locks, t: Thread, key: string): (Locks, bool) {
    if key !in l.rows then (l.(rows := l.rows[key := t]), true) else (l, l.rows[key] == t)
  }

  function TakeTable(l: Locks, t: Thread, name: string, kind: LockType): (Locks, bool) {
    if name !in l.tables then (l.(tables := l.tables[name := TableLock({t}, kind)]), true)
    else
      var held := l.tables[name];
      if |held.holders| == 1 && t in held.holders then (l.(tables := l.tables[name := held.(kind := kind)]), true)
      else if t in held.holders then (l, kind == Write ==> |held.holders| == 1)
      else if kind == Read && held.kind == Read then
        (l.(tables := l.tables[name := held.(holders := held.holders + {t})]), true)
      else (l, false)
  }

  function FreeRows(l: Locks, t: Thread): Locks {
    l.(rows := map key | key in l.rows && l.rows[key] != t :: l.rows[key])
  }

  function FreeTables(l: Locks, t: Thread): Locks {
    l.(tables := map name | name in l.tables && l.tables[name].holders - {t} != {}
        :: TableLock(l.tables[name].holders - {t}, l.tables[name].kind))
  }

  function Step(l: Locks, e: Event): (Locks, bool) {
    match e.op
    case AcquireRow(table, row) => TakeRow(l, e.thread, RowKey(table, row))
    case AcquireTable(name, kind) => TakeTable(l, e.thread, name, kind)
    case ReleaseRows => (FreeRows(l, e.thread), true)
    case ReleaseTables => (FreeTables(l, e.thread), true)
    case ReleaseAll => (FreeTables(FreeRows(l, e.thread), e.thread), true)
  }

  predicate WriteAllowed(l: Locks, t: Thread, name: string) {
    name in l.tables ==> |l.tables[name].holders| == 1 && t in l.tables[name].holders
  }

  predicate ReadAllowed(l: Locks, t: Thread, name: string) {
    name in l.tables && l.tables[name].kind != Read ==> t in l.tables[name].holders
  }

  // The table map while t's holdings of the tables in `done` have been erased
  ghost function Freed(m: map<string, TableLock>, t: Thread, done: set<string>): map<string, TableLock> {
    map name | name in m && (name in done ==> m[name].holders - {t} != {})
      :: if name in done then m[name].(holders := m[name].holders - {t}) else m[name]
  }

  function Erased(m: map<string, TableLock>, name: string, t: Thread): map<string, TableLock>
    requires name in m
  {
    var rest := m[name].holders - {t};
    if rest == {} then m - {name} else m[name := m[name].(holders := rest)]
  }

  lemma FreedStep(m: map<string, TableLock>, t: Thread, done: set<string>, name: string)
    requires name in m && name !in done
    ensures name in Freed(m, t, done)
    ensures Freed(m, t, done + {name}) == Erased(Freed(m, t, done), name, t)
  {
  }

  lemma FreedAtEnds(l: Locks, t: Thread)
    ensures Freed(l.tables, t, {}) == l.tables && l.tables.Keys - l.tables.Keys == {}
    ensures FreeTables(l, t) == Locks(l.rows, Freed(l.tables, t, l.tables.Keys))
  {
  }

  // ------------------------------------------------------------------------------------------
  // The lock manager itself

  class LockManager {
    var rowLocks: map<string, Thread>
    var tableLocks: map<string, TableLock>

    ghost function State(): Locks
      reads this
    {
      Locks(rowLocks, tableLocks)
    }

    constructor ()
      ensures State() == UNLOCKED
    {
      rowLocks := map[];
      tableLocks := map[];
    }

    method AcquireRowLock(tid: Thread, table: string, rowKey: string) returns (ok: bool)
      modifies this
      ensures (State(), ok) == Step(old(State()), Event(tid, AcquireRow(table, rowKey)))
    {
      var key := table + ":" + rowKey;
      if key !in rowLocks {
        rowLocks := rowLocks[key := tid];
        return true;
      }
      return rowLocks[key] == tid;
    }

    method AcquireTableLock(tid: Thread, table: string, kind: LockType) returns (ok: bool)
      modifies this
      ensures (State(), ok) == Step(old(State()), Event(tid, AcquireTable(table, kind)))
    {
      if table !in tableLocks {
        tableLocks := tableLocks[table := TableLock({tid}, kind)];
        return true;
      }
      var held := tableLocks[table];
      if |held.holders| == 1 && tid in held.holders {
        tableLocks := tableLocks[table := held.(kind := kind)];
        return true;
      }
      if tid in held.holders {
        if kind == Write {
          return |held.holders| == 1;
        }
        return true;
      }
      if kind == Read && held.kind == Read {
        tableLocks := tableLocks[table := held.(holders := held.holders + {tid})];
        return true;
      }
      return false;
    }

    method ReleaseRowLocks(tid: Thread)
      modifies this
      ensures State() == Step(old(State()), Event(tid, ReleaseRows)).0
    {
      var todo := rowLocks.Keys;
      while todo != {}
        invariant todo <= rowLocks.Keys && tableLocks == old(tableLocks)
        invariant forall key :: key in rowLocks ==> key in old(rowLocks) && rowLocks[key] == old(rowLocks)[key]
        invariant forall key :: key in rowLocks && key !in todo ==> rowLocks[key] != tid
        invariant forall key :: key in old(rowLocks) && key !in rowLocks ==> old(rowLocks)[key] == tid
        decreases |todo|
      {
        var it :| it in todo;
        todo := todo - {it};
        if rowLocks[it] == tid {
          rowLocks := rowLocks - {it};
        }
      }
      assert rowLocks == map key | key in old(rowLocks) && old(rowLocks)[key] != tid :: old(rowLocks)[key];
    }

    // One round of the release loop: drops tid from the entry and then the entry if nobody is left.
    method EraseHolder(it: string, tid: Thread)
      requires it in tableLocks
      modifies this`tableLocks
      ensures tableLocks == Erased(old(tableLocks), it, tid)
    {
      tableLocks := tableLocks[it := tableLocks[it].(holders := tableLocks[it].holders - {tid})];
      if tableLocks[it].holders == {} {
        tableLocks := tableLocks - {it};
      }
    }

    method ReleaseTableLocks(tid: Thread)
      modifies this
      ensures State() == Step(old(State()), Event(tid, ReleaseTables)).0
    {
      hide Freed, FreeTables, Erased;
      var todo := tableLocks.Keys;
      FreedAtEnds(State(), tid);
      while todo != {}
        invariant todo <= old(tableLocks).Keys && rowLocks == old(rowLocks)
        invariant tableLocks == Freed(old(tableLocks), tid, old(tableLocks).Keys - todo)
        decreases |todo|
      {
        var it :| it in todo;
        FreedStep(old(tableLocks), tid, old(tableLocks).Keys - todo, it);
        assert old(tableLocks).Keys - (todo - {it}) == old(tableLocks).Keys - todo + {it};
        todo := todo - {it};
        EraseHolder(it, tid);
      }
      assert old(tableLocks).Keys - {} == old(tableLocks).Keys;
    }

    method ReleaseAllLocks(tid: Thread)
      modifies this
      ensures State() == Step(old(State()), Event(tid, ReleaseAll)).0
    {
      ReleaseRowLocks(tid);
      ReleaseTableLocks(tid);
    }

    method CheckWriteAllowed(tid: Thread, table: string) returns (ok: bool)
      ensures ok == WriteAllowed(State(), tid, table)
    {
      if table !in tableLocks { return true; }
      return |tableLocks[table].holders| == 1 && tid in tableLocks[table].holders;
    }

    method CheckReadAllowed(tid: Thread, table: string) returns (ok: bool)
      ensures ok == ReadAllowed(State(), tid, table)
    {
      if table !in tableLocks { return true; }
      if tableLocks[table].kind == Read { return true; }
      return tid in tableLocks[table].holders;
    }
  }

  // ------------------------------------------------------------------------------------------
  // A textbook lock table: a set of grants, where two threads may share a resource only for reading

  datatype Resource = Row(key: string) | Table(name: string)

  datatype Grant = Grant(thread: Thread, on: Resource, kind: LockType)

  predicate Compatible(g: Grant, h: Grant) {
    g.on == h.on ==> if g.thread == h.thread then g.kind == h.kind else g.kind == Read && h.kind == Read
  }

  predicate Exclusive(book: set<Grant>) { forall g <- book, h <- book :: Compatible(g, h) }

  predicate Grantable(book: set<Grant>, want: Grant) {
    forall g <- book :: g.thread != want.thread ==> Compatible(g, want)
  }

  // A grant replaces what the thread had on that resource.
  function Granted(book: set<Grant>, want: Grant): set<Grant> {
    (set g | g in book && (g.thread != want.thread || g.on != want.on)) + {want}
  }

  function Requested(e: Event): (want: Grant)
    requires e.op.AcquireRow? || e.op.AcquireTable?
  {
    match e.op
    case AcquireRow(table, row) => Grant(e.thread, Row(RowKey(table, row)), Write)
    case AcquireTable(name, kind) => Grant(e.thread, Table(name), kind)
  }

  // The grants a release of thread t drops
  predicate Released(e: Event, g: Grant) {
    && g.thread == e.thread
    && match e.op
       case ReleaseRows => g.on.Row?
       case ReleaseTables => g.on.Table?
       case ReleaseAll => true
       case _ => false
  }

  function Textbook(book: set<Grant>, e: Event): (set<Grant>, bool) {
    if e.op.AcquireRow? || e.op.AcquireTable? then
      var want := Requested(e);
      if Grantable(book, want) then (Granted(book, want), true) else (book, false)
    else (set g | g in book && !Released(e, g), true)
  }

  // ------------------------------------------------------------------------------------------
  // The manager refines the textbook table

  // No entry has an empty holder set, and a WRITE entry has exactly one holder.
  predicate Valid(l: Locks) {
    forall name <- l.tables ::
      l.tables[name].holders != {} && (l.tables[name].kind == Write ==> |l.tables[name].holders| == 1)
  }

  predicate Holds(l: Locks, g: Grant) {
    match g.on
    case Row(key) => g.kind == Write && key in l.rows && l.rows[key] == g.thread
    case Table(name) => name in l.tables && g.thread in l.tables[name].holders && g.kind == l.tables[name].kind
  }

  ghost predicate Represents(l: Locks, book: set<Grant>) { forall g: Grant :: Holds(l, g) <==> g in book }

  lemma OnlyElement<T>(s: set<T>, x: T)
    requires x in s
    ensures |s| == 1 <==> s == {x}
  {
    assert |s - {x}| == |s| - 1;
    if |s| == 1 { assert s - {x} == {}; assert s == (s - {x}) + {x}; }
  }

  lemma TableAlone(l: Locks, name: string, x: Thread)
    requires Valid(l) && name in l.tables && l.tables[name].kind == Write && x in l.tables[name].holders
    ensures l.tables[name].holders == {x}
  {
    OnlyElement(l.tables[name].holders, x);
  }

  lemma TakeRowRefines(l: Locks, book: set<Grant>, t: Thread, key: string)
    requires Valid(l) && Represents(l, book)
    ensures var want := Grant(t, Row(key), Write);
            var (l', ok) := TakeRow(l, t, key);
            && ok == Grantable(book, want)
            && (ok ==> Represents(l', Granted(book, want))) && (!ok ==> l' == l)
  {
    var want := Grant(t, Row(key), Write);
    if key in l.rows {
      var owner := Grant(l.rows[key], Row(key), Write);
      assert Holds(l, owner);
    } else {
      forall g | g in book ensures g.on != Row(key) { assert Holds(l, g); }
    }
    var l' := TakeRow(l, t, key).0;
    forall g: Grant ensures Grantable(book, want) ==> (Holds(l', g) <==> g in Granted(book, want)) {
      assert Holds(l, g) <==> g in book;
    }
  }

  lemma TakeTableAnswer(l: Locks, book: set<Grant>, t: Thread, name: string, kind: LockType)
    requires Valid(l) && Represents(l, book)
    ensures TakeTable(l, t, name, kind).1 == Grantable(book, Grant(t, Table(name), kind))
  {
    var want := Grant(t, Table(name), kind);
    if name !in l.tables {
      forall g | g in book ensures g.on != Table(name) { assert Holds(l, g); }
    } else {
      var held := l.tables[name];
      forall g | g in book && g.on == Table(name) ensures g.thread in held.holders && g.kind == held.kind {
        assert Holds(l, g);
      }
      if t in held.holders {
        OnlyElement(held.holders, t);
        if held.holders != {t} {
          assert exists u :: u in held.holders && u != t;
          var u :| u in held.holders && u != t;
          assert Holds(l, Grant(u, Table(name), held.kind));
          if held.kind == Write { TableAlone(l, name, t); }
        }
      } else {
        var u :| u in held.holders;
        assert Holds(l, Grant(u, Table(name), held.kind));
      }
    }
  }

  lemma TakeTableState(l: Locks, book: set<Grant>, t: Thread, name: string, kind: LockType)
    requires Valid(l) && Represents(l, book)
    ensures var (l', ok) := TakeTable(l, t, name, kind);
            && Valid(l') && (!ok ==> l' == l)
            && (ok ==> Represents(l', Granted(book, Grant(t, Table(name), kind))))
  {
    var want := Grant(t, Table(name), kind);
    var (l', ok) := TakeTable(l, t, name, kind);
    if name in l.tables && t in l.tables[name].holders {
      OnlyElement(l.tables[name].holders, t);
      if l.tables[name].kind == Write { TableAlone(l, name, t); }
    }
    forall g: Grant ensures ok ==> (Holds(l', g) <==> g in Granted(book, want)) {
      assert Holds(l, g) <==> g in book;
    }
  }

  lemma FreeTablesExactly(l: Locks, t: Thread, g: Grant)
    ensures Holds(FreeTables(l, t), g) <==> Holds(l, g) && !(g.on.Table? && g.thread == t)
  {
    if g.on.Table? && Holds(l, g) && g.thread != t {
      assert g.thread in l.tables[g.on.name].holders - {t};
    }
  }

  // A release drops all locks of its kind of the calling thread and no lock of any other thread.
  lemma ReleaseExactly(l: Locks, e: Event, g: Grant)
    requires e.op.ReleaseRows? || e.op.ReleaseTables? || e.op.ReleaseAll?
    ensures Holds(Step(l, e).0, g) <==> Holds(l, g) && !Released(e, g)
  {
    hide FreeTables;
    match e.op {
      case ReleaseRows =>
      case ReleaseTables => FreeTablesExactly(l, e.thread, g);
      case ReleaseAll => FreeTablesExactly(FreeRows(l, e.thread), e.thread, g);
    }
  }

  lemma FreeTablesKeeps(l: Locks, t: Thread)
    requires Valid(l)
    ensures Valid(FreeTables(l, t))
  {
    var l' := FreeTables(l, t);
    forall name | name in l'.tables
      ensures l'.tables[name].holders != {} && (l'.tables[name].kind == Write ==> |l'.tables[name].holders| == 1)
    {
      if l'.tables[name].kind == Write {
        var x :| x in l'.tables[name].holders;
        TableAlone(l, name, x);
        OnlyElement(l'.tables[name].holders, x);
      }
    }
  }

  lemma FreeRefines(l: Locks, book: set<Grant>, e: Event)
    requires Valid(l) && Represents(l, book) && !(e.op.AcquireRow? || e.op.AcquireTable?)
    ensures var l' := Step(l, e).0; Valid(l') && Represents(l', Textbook(book, e).0)
  {
    assert Valid(FreeRows(l, e.thread));
    FreeTablesKeeps(l, e.thread);
    FreeTablesKeeps(FreeRows(l, e.thread), e.thread);
    hide FreeTables, FreeRows, Holds, Released;
    var l' := Step(l, e).0;
    forall g: Grant ensures Holds(l', g) <==> g in Textbook(book, e).0 {
      ReleaseExactly(l, e, g);
      assert Holds(l, g) <==> g in book;
    }
  }

  lemma StepRefines(l: Locks, book: set<Grant>, e: Event)
    requires Valid(l) && Represents(l, book)
    ensures var (l', ok) := Step(l, e); Valid(l') && ok == Textbook(book, e).1 && Represents(l', Textbook(book, e).0)
  {
    hide Represents, Grantable, Granted, TakeRow, TakeTable, FreeRows, FreeTables, Valid;
    match e.op {
      case AcquireRow(table, row) =>
        TakeRowRefines(l, book, e.thread, RowKey(table, row));
        TakeRowKeeps(l, e.thread, RowKey(table, row));
      case AcquireTable(name, kind) =>
        TakeTableAnswer(l, book, e.thread, name, kind);
        TakeTableState(l, book, e.thread, name, kind);
      case _ => FreeRefines(l, book, e);
    }
  }

  lemma TakeRowKeeps(l: Locks, t: Thread, key: string)
    requires Valid(l)
    ensures Valid(TakeRow(l, t, key).0)
  {
  }

  // ------------------------------------------------------------------------------------------
  // Runs: any interleaving of the threads' calls

  function Run(es: seq<Event>): Locks
    decreases |es|
  {
    if es == [] then UNLOCKED else Step(Run(es[..|es| - 1]), es[|es| - 1]).0
  }

  function Book(es: seq<Event>): set<Grant>
    decreases |es|
  {
    if es == [] then {} else Textbook(Book(es[..|es| - 1]), es[|es| - 1]).0
  }

  // Over every interleaving the manager holds exactly the textbook's grants, and no entry is empty.
  lemma {:induction false} RunRefines(es: seq<Event>)
    ensures Valid(Run(es)) && Represents(Run(es), Book(es))
    decreases |es|
  {
    if es != [] {
      hide Valid, Represents, Step, Textbook;
      RunRefines(es[..|es| - 1]);
      StepRefines(Run(es[..|es| - 1]), Book(es[..|es| - 1]), es[|es| - 1]);
    }
  }

  // Every answer the manager gives is the textbook's answer.
  lemma AnswersRefine(es: seq<Event>, e: Event)
    ensures Step(Run(es), e).1 == Textbook(Book(es), e).1
  {
    hide Valid, Represents, Step, Textbook;
    RunRefines(es);
    StepRefines(Run(es), Book(es), e);
  }

  lemma TextbookExclusive(book: set<Grant>, e: Event)
    requires Exclusive(book)
    ensures Exclusive(Textbook(book, e).0)
  {
  }

  lemma {:induction false} BookExclusive(es: seq<Event>)
    ensures Exclusive(Book(es))
    decreases |es|
  {
    if es != [] {
      hide Exclusive, Textbook;
      BookExclusive(es[..|es| - 1]);
      TextbookExclusive(Book(es[..|es| - 1]), es[|es| - 1]);
    } else {
      assert Exclusive({});
    }
  }

  // Lock safety: whatever two threads hold on one row or table at the same time, both hold it for reading, and no
  // thread holds two kinds of lock on one resource.
  lemma LockSafety(es: seq<Event>, g: Grant, h: Grant)
    requires Holds(Run(es), g) && Holds(Run(es), h)
    ensures Compatible(g, h)
  {
    hide Run, Book, Holds, Compatible;
    RunRefines(es);
    BookExclusive(es);
  }

  // A write to a table is allowed exactly when no other thread holds any lock on it.
  lemma WriteAllowedExactly(es: seq<Event>, t: Thread, name: string)
    ensures WriteAllowed(Run(es), t, name)
            <==> forall u, kind :: Holds(Run(es), Grant(u, Table(name), kind)) ==> u == t
  {
    hide Run;
    var l := Run(es);
    RunRefines(es);
    if name in l.tables {
      var held := l.tables[name];
      forall u | u in held.holders ensures Holds(l, Grant(u, Table(name), held.kind)) {}
      if t in held.holders { OnlyElement(held.holders, t); }
    }
  }

  // A read is allowed exactly when no other thread holds a WRITE lock.
  lemma ReadAllowedExactly(es: seq<Event>, t: Thread, name: string)
    ensures ReadAllowed(Run(es), t, name)
            <==> forall u :: Holds(Run(es), Grant(u, Table(name), Write)) ==> u == t
  {
    hide Run;
    var l := Run(es);
    RunRefines(es);
    if name in l.tables && l.tables[name].kind == Write {
      var u :| u in l.tables[name].holders;
      TableAlone(l, name, u);
      assert Holds(l, Grant(u, Table(name), Write));
    }
  }

  // A refused request leaves both maps as they were.
  lemma RefusalChangesNothing(l: Locks, e: Event)
    requires !Step(l, e).1
    ensures Step(l, e).0 == l
  {
  }

  // ------------------------------------------------------------------------------------------
  // Who holds what, from the history alone

  // e is a request for `on` by t that the manager answered with true
  predicate Grants(es: seq<Event>, i: nat, t: Thread, on: Resource)
    requires i < |es|
  {
    && es[i].thread == t && (es[i].op.AcquireRow? || es[i].op.AcquireTable?)
    && Requested(es[i]).on == on && Step(Run(es[..i]), es[i]).1
  }

  predicate DroppedAt(es: seq<Event>, j: nat, t: Thread, on: Resource)
    requires j < |es|
  {
    Released(es[j], Grant(t, on, Write))
  }

  ghost predicate Kept(es: seq<Event>, i: nat, t: Thread, on: Resource)
    requires i < |es|
  {
    Grants(es, i, t, on) && forall j :: i < j < |es| ==> !DroppedAt(es, j, t, on)
  }

  // t holds `on`, for reading or writing
  predicate HoldsSome(l: Locks, t: Thread, on: Resource) { Holds(l, Grant(t, on, Read)) || Holds(l, Grant(t, on, Write)) }

  predicate Listed(book: set<Grant>, t: Thread, on: Resource) { Grant(t, on, Read) in book || Grant(t, on, Write) in book }

  lemma ListedAfter(book: set<Grant>, e: Event, t: Thread, on: Resource)
    ensures var (book', ok) := Textbook(book, e);
            var asked := (e.op.AcquireRow? || e.op.AcquireTable?) && e.thread == t && Requested(e).on == on && ok;
            Listed(book', t, on) <==> asked || (Listed(book, t, on) && !Released(e, Grant(t, on, Write)))
  {
    hide Grantable;
    var (book', ok) := Textbook(book, e);
    if (e.op.AcquireRow? || e.op.AcquireTable?) && ok {
      var want := Requested(e);
      assert want in book';
      assert want.kind == Read || want.kind == Write;
      if want.thread == t && want.on == on {
        assert want == Grant(t, on, Read) || want == Grant(t, on, Write);
      }
    }
  }

  lemma HeldIsListed(es: seq<Event>, t: Thread, on: Resource)
    ensures HoldsSome(Run(es), t, on) <==> Listed(Book(es), t, on)
  {
    hide Run, Book, Holds;
    RunRefines(es);
    assert Holds(Run(es), Grant(t, on, Read)) <==> Grant(t, on, Read) in Book(es);
    assert Holds(Run(es), Grant(t, on, Write)) <==> Grant(t, on, Write) in Book(es);
  }

  lemma HeldAfter(es: seq<Event>, t: Thread, on: Resource)
    requires es != []
    ensures var n := |es| - 1;
            HoldsSome(Run(es), t, on)
            <==> Grants(es, n, t, on) || (HoldsSome(Run(es[..n]), t, on) && !DroppedAt(es, n, t, on))
  {
    var n := |es| - 1;
    HeldIsListed(es[..n], t, on);
    HeldIsListed(es, t, on);
    AnswersRefine(es[..n], es[n]);
    ListedAfter(Book(es[..n]), es[n], t, on);
    hide Run, Step, HoldsSome, Listed, Textbook, Released;
  }

  lemma KeptLonger(es: seq<Event>, i: nat, t: Thread, on: Resource)
    requires i < |es| - 1
    ensures Kept(es, i, t, on) <==> Kept(es[..|es| - 1], i, t, on) && !DroppedAt(es, |es| - 1, t, on)
  {
    hide Run, Step, Released;
    var before := es[..|es| - 1];
    assert before[..i] == es[..i];
    assert forall j :: i < j < |es| - 1 ==> before[j] == es[j];
    assert forall j :: i < j < |es| - 1 ==> DroppedAt(es, j, t, on) == DroppedAt(before, j, t, on);
  }

  // A thread holds a row or table after a run exactly when one of its requests was granted and not released since.
  lemma {:induction false} HeldSinceGranted(es: seq<Event>, t: Thread, on: Resource)
    ensures HoldsSome(Run(es), t, on) <==> exists i :: 0 <= i < |es| && Kept(es, i, t, on)
    decreases |es|
  {
    if es == [] { return; }
    var n := |es| - 1;
    assert Kept(es, n, t, on) == Grants(es, n, t, on);
    hide Run, Step, HoldsSome, Released, Kept, DroppedAt, Grants;
    HeldSinceGranted(es[..n], t, on);
    HeldAfter(es, t, on);
    forall i | 0 <= i < n ensures Kept(es, i, t, on) <==> Kept(es[..n], i, t, on) && !DroppedAt(es, n, t, on) {
      KeptLonger(es, i, t, on);
    }
  }

  // ------------------------------------------------------------------------------------------
  // Once every thread has released, nothing is locked

  function Releases(ts: seq<Thread>): seq<Event> { seq(|ts|, i requires 0 <= i < |ts| => Event(ts[i], ReleaseAll)) }

  lemma EveryLockHasAThread(l: Locks)
    requires Valid(l)
    ensures l == UNLOCKED || exists t, on :: HoldsSome(l, t, on)
  {
    if l.rows != map[] {
      var key :| key in l.rows;
      assert HoldsSome(l, l.rows[key], Row(key));
    } else if l.tables != map[] {
      var name :| name in l.tables;
      var t :| t in l.tables[name].holders;
      assert Holds(l, Grant(t, Table(name), l.tables[name].kind));
      assert HoldsSome(l, t, Table(name));
    }
  }

  lemma ReleasedAtEnd(es: seq<Event>, ts: seq<Thread>, i: nat, t: Thread, on: Resource)
    requires forall i :: 0 <= i < |es| ==> es[i].thread in ts
    requires i < |es + Releases(ts)|
    ensures !Kept(es + Releases(ts), i, t, on)
  {
    hide Run, Step;
    var all := es + Releases(ts);
    if i < |es| && es[i].thread == t {
      var k :| 0 <= k < |ts| && ts[k] == t;
      assert all[|es| + k] == Event(t, ReleaseAll);
      assert DroppedAt(all, |es| + k, t, on);
    }
  }

  lemma AllReleased(es: seq<Event>, ts: seq<Thread>)
    requires forall i :: 0 <= i < |es| ==> es[i].thread in ts
    ensures Run(es + Releases(ts)) == UNLOCKED
  {
    hide Run, Step, HoldsSome, Kept, Releases;
    var all := es + Releases(ts);
    RunRefines(all);
    forall t, on ensures !HoldsSome(Run(all), t, on) {
      HeldSinceGranted(all, t, on);
      forall i | 0 <= i < |all| ensures !Kept(all, i, t, on) { ReleasedAtEnd(es, ts, i, t, on); }
    }
    EveryLockHasAThread(Run(all));
  }

  // ------------------------------------------------------------------------------------------
  // Row keys

  predicate ColonFree(s: string) { forall i :: 0 <= i < |s| ==> s[i] != ':' }

  lemma ColonPlace(a: string, r: string, b: string, s: string)
    requires ColonFree(b) && |a| < |b|
    ensures RowKey(a, r) != RowKey(b, s)
  {
    assert RowKey(a, r)[|a|] == ':';
    assert RowKey(b, s)[|a|] == b[|a|];
  }

  // Rows of different tables have different keys as long as table names hold no colon.
  lemma RowKeysDiffer(a: string, r: string, b: string, s: string)
    requires ColonFree(a) && ColonFree(b)
    ensures RowKey(a, r) == RowKey(b, s) <==> a == b && r == s
  {
    if |a| < |b| {
      ColonPlace(a, r, b, s);
    } else if |b| < |a| {
      ColonPlace(b, s, a, r);
    } else {
      var x, y := RowKey(a, r), RowKey(b, s);
      assert a == x[..|a|] && r == x[|a| + 1..];
      assert b == y[..|b|] && s == y[|b| + 1..];
    }
  }

  // Two tables have rows that share a lock exactly when one name and its colon begin the other name and its colon.
  lemma RowKeysMeet(a: string, b: string)
    requires a != b
    ensures (exists r, s :: RowKey(a, r) == RowKey(b, s)) <==> a + ":" <= b || b + ":" <= a
  {
    if a + ":" <= b {
      ShorterMeets(a, b);
    } else if b + ":" <= a {
      ShorterMeets(b, a);
    } else {
      forall r, s ensures RowKey(a, r) != RowKey(b, s) {
        if |a| <= |b| { NeverMeets(a, r, b, s); } else { NeverMeets(b, s, a, r); }
      }
    }
  }

  lemma ShorterMeets(a: string, b: string)
    requires a + ":" <= b
    ensures exists r, s :: RowKey(a, r) == RowKey(b, s)
    ensures exists r, s :: RowKey(b, r) == RowKey(a, s)
  {
    var rest := b[|a| + 1..] + ":";
    assert RowKey(a, rest) == b + ":" == RowKey(b, "");
  }

  lemma NeverMeets(a: string, r: string, b: string, s: string)
    requires a != b && |a| <= |b| && !(a + ":" <= b)
    ensures RowKey(a, r) != RowKey(b, s)
  {
    var x, y := RowKey(a, r), RowKey(b, s);
    assert x[..|a|] == a && x[|a|] == ':' && y[..|b|] == b;
    if |a| < |b| {
      assert y[..|a|] == b[..|a|] && y[|a|] == b[|a|];
      assert b[..|a| + 1] == b[..|a|] + [b[|a|]] && a + ":" != b[..|a| + 1];
    }
  }

  // A row has a lock of its own: no row of another table, and no other row of its table, shares its key.
  ghost predicate OwnLocks(tables: set<string>) {
    forall a <- tables, b <- tables, r, s :: RowKey(a, r) == RowKey(b, s) ==> a == b && r == s
  }

  // Every row of a set of tables has a lock of its own exactly when no table's name and colon begin another's name.
  lemma RowsHaveOwnLocks(tables: set<string>)
    ensures OwnLocks(tables) <==> forall a <- tables, b <- tables :: !(a + ":" <= b)
  {
    if a, b :| a in tables && b in tables && a + ":" <= b {
      ShorterMeets(a, b);
      assert a != b;
    } else {
      forall a, b, r, s | a in tables && b in tables && RowKey(a, r) == RowKey(b, s) ensures a == b && r == s {
        SameKey(a, r, b, s);
      }
    }
  }

  lemma SameKey(a: string, r: string, b: string, s: string)
    requires !(a + ":" <= b) && !(b + ":" <= a) && RowKey(a, r) == RowKey(b, s)
    ensures a == b && r == s
  {
    if a != b {
      if |a| <= |b| { NeverMeets(a, r, b, s); } else { NeverMeets(b, s, a, r); }
    } else {
      assert r == RowKey(a, r)[|a| + 1..] && s == RowKey(b, s)[|b| + 1..];
    }
  }

  // With a colon in a table name, two rows of different tables share one lock.
  lemma RowKeysCollide()
    ensures RowKey("a:b", "c") == RowKey("a", "b:c")
  {
    assert RowKey("a:b", "c") == "a:b:c" == RowKey("a", "b:c");
  }
}
