/** When a procedure never comes back: the bodies of ProcText run with the simple statements of ProcSubst. */
module ProcHang {
  import opened Text
  import opened ProcText
  import Sub = ProcSubst
  import Prog = ProcProgram
  import Printed = ProcRefinement

  // ------------------------------------------------------------------------------------------
  // What every simple statement keeps, every body keeps

  // All simple statements in a body, at any depth
  predicate BodyOk(ok: string -> bool, body: string)
    decreases |body|, 3, 0
  {
    AllOk(ok, |body|, Split(body))
  }

  predicate AllOk(ok: string -> bool, bound: nat, stmts: seq<string>)
    requires forall k :: 0 <= k < |stmts| ==> |stmts[k]| <= bound
    decreases bound, 2, |stmts|
  {
    stmts == [] || (StmtOk(ok, stmts[0]) && AllOk(ok, bound, stmts[1..]))
  }

  predicate StmtOk(ok: string -> bool, raw: string)
    decreases |raw|, 1, 0
  {
    var stmt := Trim(raw);
    stmt == "" ||
    match Classify(stmt)
    case StepForm => ok(stmt)
    case LoopForm(_, inner) => BodyOk(ok, inner)
    case IfForm(_, thenBody, elseBody) => BodyOk(ok, thenBody) && (elseBody != "" ==> BodyOk(ok, elseBody))
    case _ => true
  }

  ghost predicate Keeps<S(!new)>(env: Env<S>, ok: string -> bool, inv: S -> bool) {
    && (forall stmt, s :: ok(stmt) && inv(s) ==> inv(env.step(stmt, s)))
    && (forall s :: inv(s) ==> inv(env.noEndLoop(s)))
  }

  lemma {:induction false} BodyKeeps<S(!new)>(env: Env<S>, ok: string -> bool, inv: S -> bool, body: string, s: S)
    requires Keeps(env, ok, inv) && BodyOk(ok, body) && inv(s)
    ensures inv(RunBody(env, body, s).0)
    decreases |body|, 3, 0
  {
    hide Keeps, Split;
    AllKeep(env, ok, inv, |body|, Split(body), s);
  }

  lemma {:induction false} AllKeep<S(!new)>(env: Env<S>, ok: string -> bool, inv: S -> bool, bound: nat, stmts: seq<string>,
                                            s: S)
    requires forall k :: 0 <= k < |stmts| ==> |stmts[k]| <= bound
    requires Keeps(env, ok, inv) && AllOk(ok, bound, stmts) && inv(s)
    ensures inv(RunAll(env, bound, stmts, s).0)
    decreases bound, 2, |stmts|
  {
    hide Keeps, RunStmt, StmtOk;
    if stmts != [] {
      StmtKeeps(env, ok, inv, stmts[0], s);
      AllKeep(env, ok, inv, bound, stmts[1..], RunStmt(env, stmts[0], s).0);
    }
  }

  lemma {:induction false} StmtKeeps<S(!new)>(env: Env<S>, ok: string -> bool, inv: S -> bool, raw: string, s: S)
    requires Keeps(env, ok, inv) && StmtOk(ok, raw) && inv(s)
    ensures inv(RunStmt(env, raw, s).0)
    decreases |raw|, 1, 0
  {
    hide RunBody, RunLoop, BodyOk, Trim;
    var stmt := Trim(raw);
    if stmt != "" {
      hide Classify;
      match Classify(stmt)
      case LoopForm(tag, inner) => LoopKeeps(env, ok, inv, tag, inner, ROUNDS, s);
      case IfForm(cond, thenBody, elseBody) =>
        BodyKeeps(env, ok, inv, thenBody, s);
        if elseBody != "" { BodyKeeps(env, ok, inv, elseBody, s); }
      case _ =>
    }
  }

  lemma {:induction false} LoopKeeps<S(!new)>(env: Env<S>, ok: string -> bool, inv: S -> bool, tag: string, inner: string,
                                              rounds: nat, s: S)
    requires Keeps(env, ok, inv) && BodyOk(ok, inner) && inv(s)
    ensures inv(RunLoop(env, tag, inner, rounds, s).0)
    decreases |inner|, 4, rounds
  {
    hide Keeps, RunBody, BodyOk;
    if rounds > 0 {
      BodyKeeps(env, ok, inv, inner, s);
      LoopKeeps(env, ok, inv, tag, inner, rounds - 1, RunBody(env, inner, s).0);
    }
  }

  lemma {:induction false} BodyAny(body: string)
    ensures BodyOk(_ => true, body)
    decreases |body|, 3, 0
  {
    hide Split;
    AllAny(|body|, Split(body));
  }

  lemma {:induction false} AllAny(bound: nat, stmts: seq<string>)
    requires forall k :: 0 <= k < |stmts| ==> |stmts[k]| <= bound
    ensures AllOk(_ => true, bound, stmts)
    decreases bound, 2, |stmts|
  {
    hide StmtOk;
    if stmts != [] {
      StmtAny(stmts[0]);
      AllAny(bound, stmts[1..]);
    }
  }

  lemma {:induction false} StmtAny(raw: string)
    ensures StmtOk(_ => true, raw)
    decreases |raw|, 1, 0
  {
    hide BodyOk, Trim;
    var stmt := Trim(raw);
    if stmt != "" {
      hide Classify;
      match Classify(stmt)
      case LoopForm(tag, inner) => BodyAny(inner);
      case IfForm(cond, thenBody, elseBody) =>
        BodyAny(thenBody);
        BodyAny(elseBody);
      case _ =>
    }
  }

  // ------------------------------------------------------------------------------------------
  // Runs

  // How far the run has come, and the simple statements it has come to, each with the state it found
  datatype Run<D> = Run(p: Sub.Progress<Sub.State<D>>, log: seq<(string, Sub.State<D>)>)

  // Behind a statement that hangs or throws nothing happens.
  function StepRun<D>(host: Sub.Host<D>, stmt: string, r: Run<D>): Run<D> {
    if r.p.Live? then Run(Sub.Step(host, stmt, r.p.s), r.log + [(stmt, r.p.s)]) else r
  }

  function EnvOf<D>(host: Sub.Host<D>): Env<Run<D>> {
    Env((stmt: string, r: Run<D>) => StepRun(host, stmt, r),
        (cond: string, r: Run<D>) => r.p.Live? && Sub.EvalCond(host, cond, r.p.s.vars),
        (r: Run<D>) => r)
  }

  function RunFrom<D>(host: Sub.Host<D>, body: string, s: Sub.State<D>): Run<D> {
    RunBody(EnvOf(host), body, Run(Sub.Live(s), [])).0
  }

  // Some statement was reached with an empty name stored and a loose position in its SQL text.
  predicate MetStuck<D>(r: Run<D>) { exists k :: 0 <= k < |r.log| && Sub.Stuck(r.log[k].0, r.log[k].1) }

  predicate HangsRight<D>(r: Run<D>) {
    (r.p.Live? ==> Sub.Sorted(r.p.s.vars)) && (r.p.Hung? <==> MetStuck(r))
  }

  lemma StepHangsRight<D>(host: Sub.Host<D>, stmt: string, r: Run<D>)
    requires HangsRight(r)
    ensures HangsRight(StepRun(host, stmt, r))
  {
    hide Sub.Step, Sub.Stuck, Sub.Sorted;
    if r.p.Live? {
      var r' := StepRun(host, stmt, r);
      Sub.StepHangsIff(host, stmt, r.p.s);
      Sub.StepSorted(host, stmt, r.p.s);
      assert forall k :: 0 <= k < |r.log| ==> r'.log[k] == r.log[k];
      assert r'.log[|r.log|] == (stmt, r.p.s);
    }
  }

  // Exactly when a body hangs: when the run comes to a statement whose substitution hangs.
  lemma BodyHangsIff<D(!new)>(host: Sub.Host<D>, body: string, s: Sub.State<D>)
    requires Sub.Sorted(s.vars)
    ensures RunFrom(host, body, s).p.Hung? <==> MetStuck(RunFrom(host, body, s))
  {
    hide HangsRight, StepRun, RunBody, Sub.Sorted;
    var env := EnvOf(host);
    var inv := (r: Run<D>) => HangsRight(r);
    forall stmt, r: Run<D> | inv(r) ensures inv(env.step(stmt, r)) { StepHangsRight(host, stmt, r); }
    BodyAny(body);
    StartRight(s);
    BodyKeeps(env, _ => true, inv, body, Run(Sub.Live(s), []));
    RightMeans(RunFrom(host, body, s));
  }

  lemma RightMeans<D>(r: Run<D>)
    requires HangsRight(r)
    ensures r.p.Hung? <==> MetStuck(r)
  {
  }

  lemma StartRight<D>(s: Sub.State<D>)
    requires Sub.Sorted(s.vars)
    ensures HangsRight(Run(Sub.Live(s), []))
  {
  }

  // A body in which no statement stores an empty name always comes back.
  lemma NamedBodyEnds<D(!new)>(host: Sub.Host<D>, body: string, s: Sub.State<D>)
    requires !Sub.Stores(s.vars, "") && BodyOk(stmt => !Sub.StoresEmpty(stmt), body)
    ensures !RunFrom(host, body, s).p.Hung?
  {
    hide StepRun, RunBody, Sub.Stores, Sub.StoresEmpty, BodyOk;
    var env := EnvOf(host);
    var ok := (stmt: string) => !Sub.StoresEmpty(stmt);
    var inv := (r: Run<D>) => NamedRun(r);
    forall stmt, r: Run<D> | ok(stmt) && inv(r) ensures inv(env.step(stmt, r)) { StepNamedRun(host, stmt, r); }
    BodyKeeps(env, ok, inv, body, Run(Sub.Live(s), []));
  }

  predicate NamedRun<D>(r: Run<D>) { !r.p.Hung? && (r.p.Live? ==> !Sub.Stores(r.p.s.vars, "")) }

  lemma StepNamedRun<D>(host: Sub.Host<D>, stmt: string, r: Run<D>)
    requires NamedRun(r) && !Sub.StoresEmpty(stmt)
    ensures NamedRun(StepRun(host, stmt, r))
  {
    hide Sub.Step, Sub.Stores, Sub.StoresEmpty;
    if r.p.Live? { Sub.StepNamed(host, stmt, r.p.s); }
  }

  // ------------------------------------------------------------------------------------------
  // A procedure that hangs

  function Witness(y: Prog.Style): seq<Prog.Stmt> { [Prog.Atom("SET =", y), Prog.Atom("SELECT * FROM t", y)] }

  lemma SetEmpty<D>(host: Sub.Host<D>, s: Sub.State<D>)
    requires Sub.Sorted(s.vars)
    ensures var p := Sub.Step(host, "SET =", s); p.Live? && Sub.Sorted(p.s.vars) && Sub.Stores(p.s.vars, "")
  {
    hide Sub.Put, Sub.Sorted, Sub.Stores;
    var rest := "=";
    assert "SET ="[4..] == rest && Trim(rest) == rest && Find(rest, '=') == 0 && Trim(rest[..0]) == "";
    var val := Sub.SetValue(host, Trim(rest[1..]), s.vars);
    Sub.PutSorted(s.vars, "", val);
    Sub.PutStores(s.vars, "", val, "");
  }

  lemma SelectStuck<D>(s: Sub.State<D>)
    requires Sub.Stores(s.vars, "")
    ensures Sub.Stuck("SELECT * FROM t", s)
  {
    var t := "SELECT * FROM t";
    assert t[6] == ' ' && t[7] == '*' && Sub.Loose(t, 7);
    assert Upper(t[0]) == 'S' && Upper(t[2]) == 'L';
  }

  // The first letters of the keywords
  predicate Starts(c: char) { var u := Upper(c); u == 'E' || u == 'L' || u == 'T' || u == 'I' }

  // A text in which no word of two or more characters starts like a keyword
  predicate Tame(t: string) {
    forall i :: 0 <= i < |t| ==>
      t[i] != ';' && t[i] != ':' && ((i == 0 || !IsWord(t[i - 1])) && i + 1 < |t| ==> !Starts(t[i]))
  }

  lemma {:induction false} TameClean(t: string, i: nat)
    requires Tame(t) && i <= |t|
    ensures Prog.Clean(i == 0 || !IsWord(t[i - 1]), t[i..])
    decreases |t| - i
  {
    if i < |t| {
      var rest := t[i..];
      assert rest[0] == t[i] && rest[1..] == t[i + 1..];
      TameClean(t, i + 1);
      NoKeyword(i == 0 || !IsWord(t[i - 1]), rest);
    }
  }

  lemma NoKeyword(lb: bool, rest: string)
    requires rest != "" && (lb && |rest| > 1 ==> !Starts(rest[0]))
    ensures !Prog.Keyword(lb, rest)
  {
  }

  lemma TameAtom(t: string, y: Prog.Style)
    requires Prog.Spelled(y) && Tame(t) && |t| > 1 && Trimmed(t) && Upper(t[0]) != 'L'
    ensures Prog.Printable(Prog.Atom(t, y))
  {
    hide Prog.Clean, Trim, Prog.Keyword, Prog.Spelled;
    TameClean(t, 0);
    assert t[0..] == t;
    assert Find(t, ':') == |t|;
  }

  lemma AtomsPrintable(y: Prog.Style)
    requires Prog.Spelled(y)
    ensures Prog.AllPrintable(Witness(y))
  {
    hide Prog.Printable, Prog.Spelled, Tame, Trimmed;
    TameSet();
    TameSelect();
    TameAtom("SET =", y);
    TameAtom("SELECT * FROM t", y);
  }

  lemma TameSet()
    ensures Tame("SET =") && Trimmed("SET =")
  {
  }

  lemma TameSelect()
    ensures Tame("SELECT * FROM t") && Trimmed("SELECT * FROM t")
  {
    hide Starts;
    var t := "SELECT * FROM t";
    assert IsWord(t[0]) && IsWord(t[1]) && IsWord(t[2]) && IsWord(t[3]) && IsWord(t[4]);
    assert IsWord(t[9]) && IsWord(t[10]) && IsWord(t[11]);
    NoStarts();
  }

  lemma NoStarts()
    ensures !Starts('S') && !Starts(' ') && !Starts('*') && !Starts('F')
  {
  }

  lemma ExecTwo<S>(env: Env<S>, a: string, b: string, y: Prog.Style, s: S)
    ensures Prog.ExecAll(env, [Prog.Atom(a, y), Prog.Atom(b, y)], s) == (env.step(b, env.step(a, s)), "")
  {
    var p, q := Prog.Atom(a, y), Prog.Atom(b, y);
    assert [p, q][1..] == [q] && [q][1..] == [];
    assert Prog.Exec(env, p, s) == (env.step(a, s), "");
    assert Prog.Exec(env, q, env.step(a, s)) == (env.step(b, env.step(a, s)), "");
    assert Prog.ExecAll(env, [], env.step(b, env.step(a, s))) == (env.step(b, env.step(a, s)), "");
    assert Prog.ExecAll(env, [q], env.step(a, s)) == (env.step(b, env.step(a, s)), "");
  }

  // `SET =` stores a value under the empty name, and the next query is never sent: in any spelling, from any state.
  lemma WitnessHangs<D>(host: Sub.Host<D>, y: Prog.Style, s: Sub.State<D>)
    requires Prog.Spelled(y) && Sub.Sorted(s.vars)
    ensures RunFrom(host, Prog.Listing(Witness(y)), s).p.Hung?
  {
    hide Sub.Step, Sub.Stuck, Sub.Stores, Sub.Sorted, Prog.Listing, RunBody, Prog.Spelled;
    var env := EnvOf(host);
    var r := Run(Sub.Live(s), []);
    AtomsPrintable(y);
    Printed.RunsBody(env, Witness(y), r);
    SetEmpty(host, s);
    var s1 := Sub.Step(host, "SET =", s).s;
    SelectStuck(s1);
    Sub.StepHangsIff(host, "SELECT * FROM t", s1);
    ExecTwo(env, "SET =", "SELECT * FROM t", y, r);
  }
}
