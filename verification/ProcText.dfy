/** The stored-procedure interpreter on plain text: what the scanners of `ProcExec` find in a statement, and
    what running a body means. Atomic statements and conditions are parameters of the meaning. */
module ProcText {
  import opened Text

  // ------------------------------------------------------------------------------------------
  // splitStmts

  datatype Mark = EndLoop | EndIf | Loop | Then | Plain {
    function Len(): nat {
      match this case EndLoop => 8 case EndIf => 6 case Loop => 4 case Then => 4 case Plain => 1
    }
    function Delta(): int {
      match this case EndLoop => -1 case EndIf => -1 case Loop => 1 case Then => 1 case Plain => 0
    }
  }

  // The bracket at the front of `rest`; `lb` says that no word reaches into it from the left.
  function MarkAt(lb: bool, rest: string): (m: Mark)
    requires rest != ""
    ensures m.Len() <= |rest|
  {
    if !lb then Plain
    else if WordAt(rest, "END LOOP") then EndLoop
    else if WordAt(rest, "END IF") then EndIf
    else if WordAt(rest, "LOOP") then Loop
    else if WordAt(rest, "THEN") then Then
    else Plain
  }

  // What is left of `rest` at the first `;` outside every bracket; "" when there is none
  function CutRest(lb: bool, rest: string, depth: int): (r: string)
    ensures |r| <= |rest| && (r != "" ==> r[0] == ';')
    decreases |rest|
  {
    if rest == "" then ""
    else
      var m := MarkAt(lb, rest);
      if m.Plain? && rest[0] == ';' && depth == 0 then rest
      else CutRest(m.Plain? && !IsWord(rest[0]), rest[m.Len()..], depth + m.Delta())
  }

  // Trimmed statement texts of at most n characters
  predicate Fits(stmts: seq<string>, n: nat) {
    forall k :: 0 <= k < |stmts| ==> 0 < |stmts[k]| <= n && Trimmed(stmts[k])
  }

  lemma FitsConcat(a: seq<string>, m: nat, b: seq<string>, n: nat, bound: nat)
    requires Fits(a, m) && Fits(b, n) && m <= bound && n <= bound
    ensures Fits(a + b, bound)
  {
  }

  // The nonempty trimmed statement texts of a body
  function Split(body: string): (r: seq<string>)
    ensures Fits(r, |body|)
    decreases |body|
  {
    var rest := CutRest(true, body, 0);
    var cut := body[..|body| - |rest|];
    var later := if rest != "" then Split(rest[1..]) else [];
    FitsConcat(Keep(cut), |cut|, later, if rest != "" then |rest| - 1 else 0, |body|);
    Keep(cut) + later
  }

  // ------------------------------------------------------------------------------------------
  // The scans of execStmt

  // From the THEN that closes the condition on, counting IF up and THEN down
  function ThenRest(lb: bool, rest: string, d: nat): (r: Option<string>)
    ensures r.Some? ==> 4 <= |r.value| <= |rest|
    decreases |rest|
  {
    if rest == "" then None
    else if lb && WordAt(rest, "THEN") && d == 0 then Some(rest)
    else
      var d' := if lb && WordAt(rest, "IF") then d + 1 else if lb && WordAt(rest, "THEN") then d - 1 else d;
      ThenRest(!IsWord(rest[0]), rest[1..], d')
  }

  // From the last ELSE and from the first END IF on, both outside every inner IF
  function ElseEnd(lb: bool, rest: string, d: nat, e: Option<string>): (r: (Option<string>, Option<string>))
    ensures r.0 == e || (r.0.Some? && 4 <= |r.0.value| <= |rest|)
    ensures r.1.Some? ==> 6 <= |r.1.value| <= |rest|
    ensures r.1.Some? && r.0 != e ==> |r.1.value| + 4 <= |r.0.value|
    decreases |rest|
  {
    if rest == "" then (e, None)
    else if lb && WordAt(rest, "IF") then ElseEnd(false, rest[2..], d + 1, e)
    else if lb && At(rest, "END IF") then
      if d == 0 then (e, Some(rest)) else ElseEnd(false, rest[6..], d - 1, e)
    else if d == 0 && lb && WordAt(rest, "ELSE") then ElseEnd(false, rest[4..], d, Some(rest))
    else ElseEnd(!IsWord(rest[0]), rest[1..], d, e)
  }

  // kw stands at position p of s, in any letter case and regardless of word boundaries.
  predicate Occurs(s: string, p: nat, kw: string) {
    p + |kw| <= |s| && forall q :: p <= q < p + |kw| ==> Upper(s[q]) == kw[q - p]
  }

  // The last such position at or below p
  function LastAt(s: string, kw: string, p: nat): (r: Option<nat>)
    ensures r.Some? ==> r.value <= p && Occurs(s, r.value, kw)
    ensures forall q :: 0 <= q <= p && Occurs(s, q, kw) ==> r.Some? && q <= r.value
  {
    if Occurs(s, p, kw) then Some(p) else if p == 0 then None else LastAt(s, kw, p - 1)
  }

  // The label in front of a statement ("" when there is none) and what it labels
  function SplitLabel(stmt: string): (r: (string, string))
    ensures |r.1| <= |stmt|
  {
    var c := Find(stmt, ':');
    if c < |stmt| && c < 64 && Trim(stmt[..c]) != "" && AllWord(Trim(stmt[..c])) then
      (Trim(stmt[..c]), Trim(stmt[c + 1..]))
    else ("", stmt)
  }

  predicate Prefixed(stmt: string, kw: string) { |stmt| > |kw| && At(stmt, kw) }

  // ------------------------------------------------------------------------------------------
  // What a trimmed statement text is

  datatype Form =
    | LeaveForm(tag: string)
    | StepForm                                         // DECLARE, SET, cursors, SQL
    | BadLoop                                          // LOOP without END LOOP
    | LoopForm(tag: string, inner: string)
    | IfForm(cond: string, thenBody: string, elseBody: string)

  function Classify(stmt: string): (f: Form)
    ensures f.LoopForm? ==> |f.inner| < |stmt|
    ensures f.IfForm? ==> |f.thenBody| < |stmt| && |f.elseBody| < |stmt|
  {
    if Prefixed(stmt, "LEAVE ") then LeaveForm(Trim(stmt[6..]))
    else if Prefixed(stmt, "DECLARE ") || Prefixed(stmt, "SET ") || Prefixed(stmt, "OPEN ")
         || Prefixed(stmt, "CLOSE ") || Prefixed(stmt, "FETCH ") then StepForm
    else
      var (tag, part) := SplitLabel(stmt);
      if At(part, "LOOP") then
        match LastAt(part, "END LOOP", |part|)
        case None => BadLoop
        case Some(p) => NoEndLoopInLoop(part, p); LoopForm(tag, Trim(part[4..p]))
      else if Prefixed(stmt, "IF ") then ClassifyIf(stmt)
      else StepForm
  }

  // END LOOP cannot overlap the LOOP that a statement starts with, so the body is never cut backwards.
  lemma NoEndLoopInLoop(part: string, p: nat)
    requires At(part, "LOOP") && Occurs(part, p, "END LOOP")
    ensures 4 <= p
  {
    assert Upper(part[p]) == 'E';
  }

  function ClassifyIf(stmt: string): (f: Form)
    requires |stmt| > 3
    ensures f.StepForm? || f.IfForm?
    ensures f.IfForm? ==> |f.thenBody| < |stmt| && |f.elseBody| < |stmt|
  {
    match ThenRest(true, stmt[3..], 0)
    case None => StepForm
    case Some(t) =>
      var cond := Trim(stmt[3..|stmt| - |t|]);
      var after := Trim(t[4..]);
      var (e, end) := ElseEnd(true, after, 0, None);
      var bound := if end.Some? then |after| - |end.value| else |after|;
      if e.Some? then IfForm(cond, Trim(after[..|after| - |e.value|]), Trim(after[|after| - |e.value| + 4..bound]))
      else IfForm(cond, Trim(after[..bound]), "")
  }

  // ------------------------------------------------------------------------------------------
  // Running text

  // The steps of the interpreter that this model does not look into
  datatype Env<!S> = Env(
    step: (string, S) -> S,        // a simple statement: DECLARE, SET, OPEN, CLOSE, FETCH or SQL
    test: (string, S) -> bool,     // evalCond
    noEndLoop: S -> S)             // the error report for LOOP without END LOOP

  const ROUNDS: nat := 1_000_000

  // Each run gives the final state and the label of a LEAVE that is still looking for its loop, or "".
  function RunBody<S>(env: Env<S>, body: string, s: S): (S, string)
    decreases |body|, 3, 0
  {
    RunAll(env, |body|, Split(body), s)
  }

  function RunAll<S>(env: Env<S>, bound: nat, stmts: seq<string>, s: S): (S, string)
    requires forall k :: 0 <= k < |stmts| ==> |stmts[k]| <= bound
    decreases bound, 2, |stmts|
  {
    if stmts == [] then (s, "")
    else
      var (s', res) := RunStmt(env, stmts[0], s);
      if res != "" then (s', res) else RunAll(env, bound, stmts[1..], s')
  }

  function RunStmt<S>(env: Env<S>, raw: string, s: S): (S, string)
    decreases |raw|, 1, 0
  {
    var stmt := Trim(raw);
    if stmt == "" then (s, "")
    else
      match Classify(stmt)
      case LeaveForm(tag) => (s, tag)
      case StepForm => (env.step(stmt, s), "")
      case BadLoop => (env.noEndLoop(s), "")
      case LoopForm(tag, inner) => RunLoop(env, tag, inner, ROUNDS, s)
      case IfForm(cond, thenBody, elseBody) =>
        if env.test(cond, s) then RunBody(env, thenBody, s)
        else if elseBody != "" then RunBody(env, elseBody, s)
        else (s, "")
  }

  function RunLoop<S>(env: Env<S>, tag: string, inner: string, rounds: nat, s: S): (S, string)
    decreases |inner|, 4, rounds
  {
    if rounds == 0 then (s, "")
    else
      var (s', res) := RunBody(env, inner, s);
      if res == "" then RunLoop(env, tag, inner, rounds - 1, s')
      else if Catches(tag, res) then (s', "")
      else (s', res)
  }

  // A loop without a label stops every LEAVE that reaches it.
  predicate Catches(tag: string, res: string) { tag == "" || Pu(res) == Pu(tag) }
}
