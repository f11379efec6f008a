/** The MVCC transaction manager: which transactions count as committed, with and without pruning. */
module TransactionManager {
  import opened Decimal

  datatype TxInfo = TxInfo(id: nat, isolationLevel: string, startTime: string)

  // The committed set is pruned when it holds more entries than this.
  const PRUNE_LIMIT: nat := 10000

  // ------------------------------------------------------------------------------------------
  // The manager's state as a value

  datatype Manager = Manager(globalTxId: nat, active: set<nat>, committed: set<nat>)

  const EMPTY := Manager(0, {}, {})

  ghost predicate Smallest(s: set<nat>, k: nat) { k in s && forall j <- s :: k <= j }

  ghost function First(s: set<nat>): (k: nat)
    requires s != {}
    ensures Smallest(s, k)
  {
    ExtremeExists(s, false);
    var k :| Extreme(s, k, false);
    k
  }

  // minActiveTxId: every transaction below it has ended
  ghost function Horizon(m: Manager): nat {
    if m.active == {} then m.globalTxId + 1 else First(m.active)
  }

  ghost function IsCommitted(m: Manager, id: nat): bool {
    id == 0 || id in m.committed || (id !in m.active && id < Horizon(m))
  }

  function Begin(m: Manager): Manager {
    Manager(m.globalTxId + 1, m.active + {m.globalTxId + 1}, m.committed)
  }

  function FromOn(s: set<nat>, k: nat): set<nat> { set id | id in s && id >= k }

  ghost function Prune(m: Manager): Manager {
    if |m.committed| > PRUNE_LIMIT then m.(committed := FromOn(m.committed, Horizon(m))) else m
  }

  ghost function Commit(m: Manager, id: nat): Manager {
    Prune(m.(active := m.active - {id}, committed := m.committed + {id}))
  }

  function Rollback(m: Manager, id: nat): Manager { m.(active := m.active - {id}) }

  // ------------------------------------------------------------------------------------------
  // The manager itself

  class TransactionManager {
    var globalTxId: nat
    var activeTxs: map<nat, TxInfo>
    var committedTxs: set<nat>

    ghost function State(): Manager
      reads this
    {
      Manager(globalTxId, activeTxs.Keys, committedTxs)
    }

    constructor ()
      ensures State() == EMPTY
    {
      globalTxId := 0;
      activeTxs := map[];
      committedTxs := {};
    }

    method BeginTx(isolationLevel: string, now: string) returns (id: nat)
      modifies this
      ensures State() == Begin(old(State())) && id == globalTxId
      ensures activeTxs == old(activeTxs)[id := TxInfo(id, isolationLevel, now)]
    {
      globalTxId := globalTxId + 1;
      id := globalTxId;
      activeTxs := activeTxs[id := TxInfo(id, isolationLevel, now)];
    }

    method MinActiveTxId() returns (k: nat)
      ensures k == Horizon(State())
    {
      if activeTxs == map[] { return globalTxId + 1; }
      k := FirstOf(activeTxs.Keys);
    }

    method CommitTx(id: nat)
      modifies this
      ensures State() == Commit(old(State()), id)
      ensures activeTxs == old(activeTxs) - {id}
    {
      activeTxs := activeTxs - {id};
      committedTxs := committedTxs + {id};
      if |committedTxs| > PRUNE_LIMIT {
        PruneCommitted();
      }
    }

    // Erases committed ids from the smallest on, up to the first that is not below the horizon.
    method PruneCommitted()
      modifies this`committedTxs
      ensures committedTxs == FromOn(old(committedTxs), old(Horizon(State())))
    {
      var horizon := MinActiveTxId();
      ghost var all := committedTxs;
      var done := false;
      assert FromOn(all, horizon) == FromOn(committedTxs, horizon);
      while committedTxs != {} && !done
        invariant FromOn(all, horizon) == FromOn(committedTxs, horizon)
        invariant done ==> FromOn(committedTxs, horizon) == committedTxs
        decreases |committedTxs|, !done
      {
        var it := FirstOf(committedTxs);
        if it < horizon {
          committedTxs := committedTxs - {it};
        } else {
          done := true;
        }
      }
    }

    method RollbackTx(id: nat)
      modifies this
      ensures State() == Rollback(old(State()), id)
      ensures activeTxs == old(activeTxs) - {id}
    {
      activeTxs := activeTxs - {id};
    }

    method AsksCommitted(id: nat) returns (r: bool)
      ensures r == IsCommitted(State(), id)
    {
      if id == 0 { return true; }
      if id in committedTxs { return true; }
      var k := MinActiveTxId();
      return id !in activeTxs && id < k;
    }
  }

  // begin() of an ordered container
  method FirstOf(s: set<nat>) returns (k: nat)
    requires s != {}
    ensures k == First(s)
  {
    ExtremeExists(s, false);
    assert exists k :: Smallest(s, k) by { var k :| Extreme(s, k, false); assert Smallest(s, k); }
    k :| k in s && forall j <- s :: k <= j;
  }

  // No transaction that is active is older.
  predicate BelowActive(m: Manager, id: nat) {
    if m.active == {} then id <= m.globalTxId else forall a <- m.active :: id < a
  }

  // A commit stores its id and forgets none as long as 10000 ids are enough; beyond that it forgets exactly the ids that
  // are older than every active transaction.
  lemma CommitStores(m: Manager, id: nat, i: nat)
    ensures var all, m' := m.committed + {id}, Commit(m, id);
            i in m'.committed <==> i in all && !(|all| > 10000 && BelowActive(m', i))
  {
    var active := m.active - {id};
    if active != {} { assert Smallest(active, First(active)); }
  }

  // ------------------------------------------------------------------------------------------
  // Runs

  datatype Event = BeginEvent | CommitEvent(id: nat) | RollbackEvent(id: nat)

  // What really happened: ids begun so far are 1 to `begun`
  datatype Fate = Fate(begun: nat, active: set<nat>, committed: set<nat>, rolledBack: set<nat>)

  const NOTHING := Fate(0, {}, {}, {})

  ghost function Apply(m: Manager, e: Event): Manager {
    match e case BeginEvent => Begin(m) case CommitEvent(id) => Commit(m, id) case RollbackEvent(id) => Rollback(m, id)
  }

  // The manager that never prunes
  function ApplyUnpruned(m: Manager, e: Event): Manager {
    match e
    case BeginEvent => Begin(m)
    case CommitEvent(id) => m.(active := m.active - {id}, committed := m.committed + {id})
    case RollbackEvent(id) => Rollback(m, id)
  }

  function Happen(f: Fate, e: Event): Fate {
    match e
    case BeginEvent => f.(begun := f.begun + 1, active := f.active + {f.begun + 1})
    case CommitEvent(id) => f.(active := f.active - {id}, committed := f.committed + {id})
    case RollbackEvent(id) => f.(active := f.active - {id}, rolledBack := f.rolledBack + {id})
  }

  // Only active transactions end.
  predicate Legal(f: Fate, e: Event) {
    match e case BeginEvent => true case CommitEvent(id) => id in f.active case RollbackEvent(id) => id in f.active
  }

  ghost function Run(m: Manager, es: seq<Event>): Manager
    decreases |es|
  {
    if es == [] then m else Apply(Run(m, es[..|es| - 1]), es[|es| - 1])
  }

  function RunUnpruned(m: Manager, es: seq<Event>): Manager
    decreases |es|
  {
    if es == [] then m else ApplyUnpruned(RunUnpruned(m, es[..|es| - 1]), es[|es| - 1])
  }

  function History(es: seq<Event>): Fate
    decreases |es|
  {
    if es == [] then NOTHING else Happen(History(es[..|es| - 1]), es[|es| - 1])
  }

  predicate LegalRun(es: seq<Event>)
    decreases |es|
  {
    es == [] || (LegalRun(es[..|es| - 1]) && Legal(History(es[..|es| - 1]), es[|es| - 1]))
  }

  // Every id is unborn, active, committed or rolled back, and the manager keeps all committed ids from the horizon on.
  ghost predicate Tracks(m: Manager, f: Fate) {
    && m.globalTxId == f.begun && m.active == f.active
    && f.active !! f.committed && f.active !! f.rolledBack && f.committed !! f.rolledBack
    && (forall id :: 1 <= id <= f.begun <==> id in f.active || id in f.committed || id in f.rolledBack)
    && m.committed <= f.committed
    && (forall id <- f.committed :: id !in m.committed ==> id < Horizon(m))
  }

  lemma HorizonAbove(s: set<nat>, t: set<nat>)
    requires s != {} && t <= s && t != {}
    ensures First(s) <= First(t)
  {
    assert Smallest(s, First(s)) && Smallest(t, First(t));
  }

  lemma BeginTracks(m: Manager, f: Fate)
    requires Tracks(m, f)
    ensures Tracks(Begin(m), Happen(f, BeginEvent)) && Horizon(m) <= Horizon(Begin(m))
  {
    var m' := Begin(m);
    assert Smallest(m'.active, First(m'.active));
    if m.active != {} { assert Smallest(m.active, First(m.active)); }
  }

  lemma EndRaisesHorizon(m: Manager, f: Fate, id: nat)
    requires Tracks(m, f) && id in f.active
    ensures Horizon(m) <= Horizon(Rollback(m, id))
  {
    var rest := m.active - {id};
    assert Smallest(m.active, First(m.active));
    if rest != {} { HorizonAbove(m.active, rest); }
  }

  lemma CommitTracks(m: Manager, f: Fate, id: nat)
    requires Tracks(m, f) && id in f.active
    ensures Tracks(Commit(m, id), Happen(f, CommitEvent(id))) && Horizon(m) <= Horizon(Commit(m, id))
  {
    hide First;
    EndRaisesHorizon(m, f, id);
    var unpruned := Manager(m.globalTxId, m.active - {id}, m.committed + {id});
    assert Horizon(Rollback(m, id)) == Horizon(unpruned) == Horizon(Prune(unpruned));
  }

  lemma RollbackTracks(m: Manager, f: Fate, id: nat)
    requires Tracks(m, f) && id in f.active
    ensures Tracks(Rollback(m, id), Happen(f, RollbackEvent(id))) && Horizon(m) <= Horizon(Rollback(m, id))
  {
    hide First;
    EndRaisesHorizon(m, f, id);
  }

  // One step keeps the bookkeeping right and never lowers the horizon.
  lemma TracksStep(m: Manager, f: Fate, e: Event)
    requires Tracks(m, f) && Legal(f, e)
    ensures Tracks(Apply(m, e), Happen(f, e))
    ensures Horizon(m) <= Horizon(Apply(m, e))
  {
    hide Horizon, First, Tracks, Begin, Commit, Rollback;
    match e {
      case BeginEvent => BeginTracks(m, f);
      case CommitEvent(id) => CommitTracks(m, f, id);
      case RollbackEvent(id) => RollbackTracks(m, f, id);
    }
  }

  lemma {:induction false} TracksRun(es: seq<Event>)
    requires LegalRun(es)
    ensures Tracks(Run(EMPTY, es), History(es))
    decreases |es|
  {
    if es != [] {
      hide Tracks, Apply, Happen, Legal;
      TracksRun(es[..|es| - 1]);
      TracksStep(Run(EMPTY, es[..|es| - 1]), History(es[..|es| - 1]), es[|es| - 1]);
    }
  }

  // The exact meaning of isCommitted: 0, or committed, or rolled back with every active transaction younger. An active
  // transaction is never reported committed.
  lemma CommittedExactly(es: seq<Event>, id: nat)
    requires LegalRun(es)
    ensures var f := History(es);
            (IsCommitted(Run(EMPTY, es), id)
             <==> id == 0 || id in f.committed || (id in f.rolledBack && forall a <- f.active :: id < a))
            && (id in f.active ==> !IsCommitted(Run(EMPTY, es), id))
  {
    var m, f := Run(EMPTY, es), History(es);
    TracksRun(es);
    if m.active != {} { assert Smallest(m.active, First(m.active)); }
  }

  lemma {:induction false} UnprunedTracks(es: seq<Event>)
    requires LegalRun(es)
    ensures var m, f := RunUnpruned(EMPTY, es), History(es);
            m.globalTxId == f.begun && m.active == f.active && m.committed == f.committed
    decreases |es|
  {
    if es != [] { UnprunedTracks(es[..|es| - 1]); }
  }

  // Pruning is unobservable: over every run, isCommitted answers as a manager that never prunes.
  lemma PruningUnobservable(es: seq<Event>, id: nat)
    requires LegalRun(es)
    ensures IsCommitted(Run(EMPTY, es), id) == IsCommitted(RunUnpruned(EMPTY, es), id)
  {
    var f := History(es);
    TracksRun(es);
    UnprunedTracks(es);
    CommittedExactly(es, id);
    if f.active != {} { assert Smallest(f.active, First(f.active)); }
  }

  // What the comments promise, that rows of a rolled-back transaction stay invisible, holds exactly while an older
  // transaction is still active.
  lemma RolledBackInvisible(es: seq<Event>, id: nat)
    requires LegalRun(es) && id in History(es).rolledBack
    ensures !IsCommitted(Run(EMPTY, es), id) <==> exists a :: a in History(es).active && a < id
  {
    CommittedExactly(es, id);
    TracksRun(es);
    if forall a <- History(es).active :: id < a {
    } else {
      var a :| a in History(es).active && a <= id;
      assert a != id;
    }
  }

  // The smallest run that shows it: begin, roll back, ask.
  lemma RollbackTurnsVisible()
    ensures var es := [BeginEvent, RollbackEvent(1)];
            LegalRun(es) && 1 in History(es).rolledBack && IsCommitted(Run(EMPTY, es), 1)
  {
    var es := [BeginEvent, RollbackEvent(1)];
    assert es[..1] == [BeginEvent] && [BeginEvent][..0] == [];
    assert History([BeginEvent]) == Fate(1, {1}, {}, {});
    assert LegalRun([BeginEvent]) && LegalRun(es);
    CommittedExactly(es, 1);
  }
}
