/** `ProcExec` itself: the loops that scan, and the mutually recursive methods that run a body. The scans read an
    upper-cased copy by position; each is proved against the suffix form of ProcText. */
module ProcExec {
  import opened Text
  import opened ProcText

  // The bracket that splitStmts tests for at a position
  function BracketAt(s: string, pos: nat): Mark
    requires pos <= |s|
  {
    if !WbLeft(s, pos) then Plain
    else if Reads(s, pos, "END LOOP") && WbRight(s, pos, 8) then EndLoop
    else if Reads(s, pos, "END IF") && WbRight(s, pos, 6) then EndIf
    else if Reads(s, pos, "LOOP") && WbRight(s, pos, 4) then Loop
    else if Reads(s, pos, "THEN") && WbRight(s, pos, 4) then Then
    else Plain
  }

  lemma BracketIsMark(s: string, pos: nat)
    requires pos < |s|
    ensures BracketAt(s, pos) == MarkAt(WbLeft(s, pos), s[pos..])
  {
    ReadsAt(s, pos, "END LOOP");
    ReadsAt(s, pos, "END IF");
    ReadsAt(s, pos, "LOOP");
    ReadsAt(s, pos, "THEN");
  }

  predicate CutsAt(body: string, i: nat, depth: int)
    requires i < |body|
  {
    BracketAt(body, i).Plain? && body[i] == ';' && depth == 0
  }

  // One round of the splitter's loop, seen from the suffix
  lemma ScanRound(body: string, i: nat, depth: int)
    requires i < |body|
    ensures i + BracketAt(body, i).Len() <= |body|
    ensures CutsAt(body, i, depth) ==> CutRest(WbLeft(body, i), body[i..], depth) == body[i..]
    ensures !CutsAt(body, i, depth) ==>
              var m := BracketAt(body, i);
              CutRest(WbLeft(body, i), body[i..], depth)
              == CutRest(WbLeft(body, i + m.Len()), body[i + m.Len()..], depth + m.Delta())
  {
    hide BracketAt, MarkAt, Reads;
    var m := BracketAt(body, i);
    BracketIsMark(body, i);
    assert body[i..][m.Len()..] == body[i + m.Len()..];
    if !m.Plain? { MarkEnds(body, i); }
  }

  lemma MarkEnds(body: string, i: nat)
    requires i < |body| && !BracketAt(body, i).Plain?
    ensures var m := BracketAt(body, i); i + m.Len() <= |body| && IsWord(body[i + m.Len() - 1])
  {
    var m := BracketAt(body, i);
    assert Upper(body[i + m.Len() - 1]) == Pu(body[i..i + m.Len()])[m.Len() - 1] == KeywordOf(m)[m.Len() - 1];
  }

  function KeywordOf(m: Mark): (kw: string)
    requires !m.Plain?
    ensures |kw| == m.Len() && IsAlpha(kw[|kw| - 1])
  {
    match m case EndLoop => "END LOOP" case EndIf => "END IF" case Loop => "LOOP" case Then => "THEN"
  }

  // The splitter's loop at position i, with the current statement begun at b
  ghost predicate Scanning(body: string, stmts: seq<string>, cur: string, depth: int, b: nat, i: nat) {
    && b <= i <= |body| && cur == body[b..i]
    && CutRest(true, body[b..], 0) == CutRest(WbLeft(body, i), body[i..], depth)
    && stmts + Split(body[b..]) == Split(body)
  }

  lemma ScanOn(body: string, stmts: seq<string>, cur: string, depth: int, b: nat, i: nat)
    requires Scanning(body, stmts, cur, depth, b, i) && i < |body| && !CutsAt(body, i, depth)
    ensures var m := BracketAt(body, i);
            i + m.Len() <= |body| && Scanning(body, stmts, cur + body[i..i + m.Len()], depth + m.Delta(), b, i + m.Len())
  {
    hide CutRest, Split, TrimLeft, TrimRight;
    ScanRound(body, i, depth);
  }

  lemma ScanCut(body: string, stmts: seq<string>, cur: string, depth: int, b: nat, i: nat)
    requires Scanning(body, stmts, cur, depth, b, i) && i < |body| && CutsAt(body, i, depth)
    ensures Scanning(body, stmts + Keep(cur), "", depth, i + 1, i + 1)
  {
    hide CutRest, Split, TrimLeft, TrimRight;
    var rest := body[b..];
    ScanRound(body, i, depth);
    assert rest[i - b..] == body[i..] && rest[..i - b] == cur && rest[i - b + 1..] == body[i + 1..];
    SplitHere(rest, i - b);
    assert stmts + Keep(cur) + Split(body[i + 1..]) == stmts + (Keep(cur) + Split(body[i + 1..]));
  }

  lemma ScanStart(body: string)
    ensures Scanning(body, [], "", 0, 0, 0)
  {
    assert body[0..] == body;
  }

  lemma ScanEnd(body: string, stmts: seq<string>, cur: string, depth: int, b: nat)
    requires Scanning(body, stmts, cur, depth, b, |body|)
    ensures stmts + Keep(cur) == Split(body)
  {
    hide Split, CutRest, TrimLeft, TrimRight;
    assert body[|body|..] == "" && body[b..|body|] == body[b..];
    CutNothing(WbLeft(body, |body|), depth);
    SplitLast(body[b..]);
  }

  lemma CutNothing(lb: bool, depth: int)
    ensures CutRest(lb, "", depth) == ""
  {
  }

  lemma SplitLast(rest: string)
    requires CutRest(true, rest, 0) == ""
    ensures Split(rest) == Keep(rest)
  {
    hide Keep, CutRest;
    assert rest[..|rest| - 0] == rest;
    assert Split(rest) == Keep(rest) + [];
  }

  lemma SplitHere(rest: string, n: nat)
    requires n < |rest| && CutRest(true, rest, 0) == rest[n..]
    ensures Split(rest) == Keep(rest[..n]) + Split(rest[n + 1..])
  {
    assert rest[n..][1..] == rest[n + 1..];
  }

  method SplitStmts(body: string) returns (stmts: seq<string>)
    ensures stmts == Split(body)
  {
    hide CutRest, Split, TrimLeft, TrimRight, Scanning, BracketAt, CutsAt;
    stmts := [];
    var cur, depth := "", 0;
    var i: nat := 0;
    ghost var b: nat := 0;
    ScanStart(body);
    while i < |body|
      invariant i <= |body| && Scanning(body, stmts, cur, depth, b, i)
    {
      var m := BracketAt(body, i);
      if CutsAt(body, i, depth) {
        ScanCut(body, stmts, cur, depth, b, i);
        var s := PTrim(cur);
        assert stmts + [] == stmts;
        if s != "" { stmts := stmts + [s]; }
        cur, i, b := "", i + 1, i + 1;
      } else {
        ScanOn(body, stmts, cur, depth, b, i);
        cur, i, depth := cur + body[i..i + m.Len()], i + m.Len(), depth + m.Delta();
      }
    }
    ScanEnd(body, stmts, cur, depth, b);
    var s := PTrim(cur);
    if s != "" { stmts := stmts + [s]; }
  }

  // ------------------------------------------------------------------------------------------
  // The scans of execStmt, on the upper-cased copy

  lemma {:induction false} ThenUpper(lb: bool, x: string, d: nat)
    ensures match ThenRest(lb, x, d)
            case None => ThenRest(lb, Pu(x), d).None?
            case Some(t) => ThenRest(lb, Pu(x), d).Some? && |ThenRest(lb, Pu(x), d).value| == |t| && t == x[|x| - |t|..]
    decreases |x|
  {
    hide WordAt, At;
    if x != "" {
      UpperAt(x, "THEN");
      UpperAt(x, "IF");
      assert Pu(x)[1..] == Pu(x[1..]);
      var d' := if lb && WordAt(x, "IF") then d + 1 else if lb && WordAt(x, "THEN") && d > 0 then d - 1 else d;
      ThenUpper(!IsWord(x[0]), x[1..], d');
      assert lb && WordAt(x, "THEN") && d == 0 ==> ThenRest(lb, x, d) == Some(x);
    }
  }

  lemma UpperAt(x: string, kw: string)
    ensures At(Pu(x), kw) <==> At(x, kw)
    ensures WordAt(Pu(x), kw) <==> WordAt(x, kw)
    ensures WordAt(x, kw) || At(x, kw) ==> |kw| <= |x|
  {
    assert forall i :: 0 <= i < |x| ==> Upper(Pu(x)[i]) == Upper(x[i]) && (IsWord(Pu(x)[i]) <==> IsWord(x[i]));
  }

  // Where a suffix result stands
  function Place(s: string, t: Option<string>): Option<nat>
    requires t.Some? ==> |t.value| <= |s|
  {
    if t.Some? then Some(|s| - |t.value|) else None
  }

  method FindThen(up: string) returns (pos: Option<nat>)
    requires |up| >= 3 && up[2] == ' '
    ensures ThenRest(true, up[3..], 0).Some? ==> |ThenRest(true, up[3..], 0).value| <= |up|
    ensures pos == Place(up, ThenRest(true, up[3..], 0))
  {
    hide ThenRest, Pu, Reads, WbRight;
    var d: nat, i: nat := 0, 3;
    while i < |up|
      invariant 3 <= i <= |up|
      invariant ThenRest(WbLeft(up, i), up[i..], d) == ThenRest(true, up[3..], 0)
    {
      ThenRound(up, i, d);
      if Reads(up, i, "IF") && WbLeft(up, i) && WbRight(up, i, 2) {
        d := d + 1;
      } else if Reads(up, i, "THEN") && WbLeft(up, i) && WbRight(up, i, 4) {
        if d == 0 { return Some(i); }
        d := d - 1;
      }
      i := i + 1;
    }
    NoThen(WbLeft(up, i), d);
    assert up[i..] == "";
    return None;
  }

  lemma NoThen(lb: bool, d: nat)
    ensures ThenRest(lb, "", d).None?
  {
  }

  lemma ThenRound(up: string, i: nat, d: nat)
    requires i < |up|
    ensures var isIf := Reads(up, i, "IF") && WbLeft(up, i) && WbRight(up, i, 2);
            var isThen := Reads(up, i, "THEN") && WbLeft(up, i) && WbRight(up, i, 4);
            ThenRest(WbLeft(up, i), up[i..], d)
            == if isThen && d == 0 then Some(up[i..])
               else ThenRest(WbLeft(up, i + 1), up[i + 1..], if isIf then d + 1 else if isThen then d - 1 else d)
    ensures !(Reads(up, i, "IF") && Reads(up, i, "THEN"))
  {
    hide Pu;
    ReadsAt(up, i, "IF");
    ReadsAt(up, i, "THEN");
    assert up[i..][1..] == up[i + 1..];
    assert At(up[i..], "IF") ==> Upper(up[i..][0]) == 'I';
  }

  predicate SameLen(a: Option<string>, b: Option<string>) {
    a.Some? == b.Some? && (a.Some? ==> |a.value| == |b.value|)
  }

  lemma {:induction false} ElseUpper(lb: bool, x: string, d: nat, e: Option<string>, e': Option<string>)
    requires SameLen(e, e')
    ensures SameLen(ElseEnd(lb, x, d, e).0, ElseEnd(lb, Pu(x), d, e').0)
    ensures SameLen(ElseEnd(lb, x, d, e).1, ElseEnd(lb, Pu(x), d, e').1)
    decreases |x|
  {
    hide WordAt, At, Pu;
    PuDrop(x, 0);
    if x != "" {
      var up := Pu(x);
      UpperAt(x, "IF"); UpperAt(x, "END IF"); UpperAt(x, "ELSE");
      PuDrop(x, 1);
      if lb && WordAt(x, "IF") {
        PuDrop(x, 2);
        ElseUpper(false, x[2..], d + 1, e, e');
      } else if lb && At(x, "END IF") {
        PuDrop(x, 6);
        if d > 0 { ElseUpper(false, x[6..], d - 1, e, e'); }
      } else if d == 0 && lb && WordAt(x, "ELSE") {
        PuDrop(x, 4);
        ElseUpper(false, x[4..], d, Some(x), Some(up));
      } else {
        ElseUpper(!IsWord(x[0]), x[1..], d, e, e');
      }
    }
  }

  lemma PuDrop(x: string, n: nat)
    requires n <= |x|
    ensures |Pu(x)| == |x| && Pu(x)[n..] == Pu(x[n..])
    ensures x != "" ==> (IsWord(Pu(x)[0]) <==> IsWord(x[0]))
  {
  }

  // From position p on
  function From(s: string, p: Option<nat>): Option<string>
    requires p.Some? ==> p.value <= |s|
  {
    if p.Some? then Some(s[p.value..]) else None
  }

  // The loop that looks for ELSE and END IF, at position i with IF depth d
  ghost predicate ElseScan(up: string, i: nat, d: nat, elsePos: Option<nat>) {
    && i <= |up| && (elsePos.Some? ==> elsePos.value <= |up|)
    && ElseEnd(WbLeft(up, i), up[i..], d, From(up, elsePos)) == ElseEnd(true, up, 0, None)
  }

  lemma ElseNext(up: string, i: nat, d: nat, elsePos: Option<nat>)
    requires ElseScan(up, i, d, elsePos) && i < |up|
    ensures IfHere(up, i) ==> ElseScan(up, i + 2, d + 1, elsePos)
    ensures !IfHere(up, i) && EndIfHere(up, i) && d > 0 ==> ElseScan(up, i + 6, d - 1, elsePos)
    ensures !IfHere(up, i) && EndIfHere(up, i) && d == 0 ==>
              ElseEnd(true, up, 0, None) == (From(up, elsePos), From(up, Some(i)))
    ensures !IfHere(up, i) && !EndIfHere(up, i) ==>
              if d == 0 && ElseHere(up, i) then ElseScan(up, i + 4, 0, Some(i)) else ElseScan(up, i + 1, d, elsePos)
  {
    hide ElseEnd, IfHere, EndIfHere, ElseHere;
    ElseRound(up, i, d, From(up, elsePos));
  }

  method FindElse(up: string) returns (elsePos: Option<nat>, endIfPos: Option<nat>)
    ensures elsePos.Some? ==> elsePos.value <= |up|
    ensures endIfPos.Some? ==> endIfPos.value <= |up|
    ensures ElseEnd(true, up, 0, None) == (From(up, elsePos), From(up, endIfPos))
  {
    hide ElseEnd;
    elsePos := None;
    var d: nat, i: nat := 0, 0;
    assert up[0..] == up;
    while i < |up|
      invariant ElseScan(up, i, d, elsePos)
    {
      hide ElseEnd, ElseScan, IfHere, EndIfHere, ElseHere;
      ElseNext(up, i, d, elsePos);
      if IfHere(up, i) {
        d, i := d + 1, i + 2;
      } else if EndIfHere(up, i) {
        if d == 0 { ElsePosBound(up, i, d, elsePos); return elsePos, Some(i); }
        d, i := d - 1, i + 6;
      } else if d == 0 && ElseHere(up, i) {
        elsePos, i := Some(i), i + 4;
      } else {
        i := i + 1;
      }
    }
    assert up[i..] == "";
    ElseNothing(WbLeft(up, i), d, From(up, elsePos));
    return elsePos, None;
  }

  lemma ElsePosBound(up: string, i: nat, d: nat, elsePos: Option<nat>)
    requires ElseScan(up, i, d, elsePos)
    ensures elsePos.Some? ==> elsePos.value <= |up|
  {
  }

  predicate IfHere(up: string, i: nat) requires i <= |up| { Reads(up, i, "IF") && WbLeft(up, i) && WbRight(up, i, 2) }

  predicate EndIfHere(up: string, i: nat) requires i <= |up| { Reads(up, i, "END IF") && WbLeft(up, i) }

  predicate ElseHere(up: string, i: nat) requires i <= |up| { Reads(up, i, "ELSE") && WbLeft(up, i) && WbRight(up, i, 4) }

  lemma ElseNothing(lb: bool, d: nat, e: Option<string>)
    ensures ElseEnd(lb, "", d, e) == (e, None)
  {
  }

  lemma ElseRound(up: string, i: nat, d: nat, e: Option<string>)
    requires i < |up|
    ensures var r := ElseEnd(WbLeft(up, i), up[i..], d, e);
            if IfHere(up, i) then
              i + 2 <= |up| && r == ElseEnd(WbLeft(up, i + 2), up[i + 2..], d + 1, e)
            else if EndIfHere(up, i) then
              i + 6 <= |up| && r == if d == 0 then (e, Some(up[i..])) else ElseEnd(WbLeft(up, i + 6), up[i + 6..], d - 1, e)
            else if d == 0 && ElseHere(up, i) then
              i + 4 <= |up| && r == ElseEnd(WbLeft(up, i + 4), up[i + 4..], d, Some(up[i..]))
            else r == ElseEnd(WbLeft(up, i + 1), up[i + 1..], d, e)
  {
    var x := up[i..];
    ReadsAt(up, i, "IF"); ReadsAt(up, i, "END IF"); ReadsAt(up, i, "ELSE");
    if IfHere(up, i) {
      assert Upper(x[1]) == 'F' && x[1] == up[i + 1];
      assert x[2..] == up[i + 2..];
    } else if EndIfHere(up, i) {
      assert Upper(x[5]) == 'F' && x[5] == up[i + 5];
      assert x[6..] == up[i + 6..];
    } else if d == 0 && ElseHere(up, i) {
      assert Upper(x[3]) == 'E' && x[3] == up[i + 3];
      assert x[4..] == up[i + 4..];
    } else {
      assert x[1..] == up[i + 1..];
    }
  }

  // The forward search for END LOOP that keeps the last hit: occurrences cannot overlap, so none is stepped over.
  method FindLastEndLoop(part: string) returns (lastEl: Option<nat>)
    ensures lastEl == LastAt(part, "END LOOP", |part|)
  {
    hide LastAt;
    var upB := Pu(part);
    lastEl := None;
    var p: nat := 0;
    while p < |part|
      invariant p <= |part| + 7
      invariant lastEl.Some? ==> lastEl.value + 8 <= p && Occurs(part, lastEl.value, "END LOOP")
      invariant forall q :: 0 <= q < p && Occurs(part, q, "END LOOP") ==> lastEl.Some? && q <= lastEl.value
    {
      OccursReads(part, p);
      if Reads(upB, p, "END LOOP") {
        forall q | p < q < p + 8 ensures !Occurs(part, q, "END LOOP") {
          assert Occurs(part, p, "END LOOP");
          NoOverlap(part, p, q);
        }
        lastEl, p := Some(p), p + 8;
      } else {
        p := p + 1;
      }
    }
  }

  lemma OccursReads(part: string, p: nat)
    requires p < |part|
    ensures Reads(Pu(part), p, "END LOOP") <==> Occurs(part, p, "END LOOP")
  {
    ReadsAt(Pu(part), p, "END LOOP");
    assert Pu(part)[p..] == Pu(part[p..]);
    UpperAt(part[p..], "END LOOP");
    assert forall i :: p <= i < |part| ==> part[p..][i - p] == part[i];
    if At(part[p..], "END LOOP") {
      forall q | p <= q < p + 8 ensures Upper(part[q]) == "END LOOP"[q - p] { assert part[p..][q - p] == part[q]; }
    }
  }

  lemma NoOverlap(part: string, p: nat, q: nat)
    requires Occurs(part, p, "END LOOP") && p < q < p + 8
    ensures !Occurs(part, q, "END LOOP")
  {
    assert Upper(part[q]) == "END LOOP"[q - p];
  }

  // ------------------------------------------------------------------------------------------
  // The interpreter object

  class ProcExec<S> {
    var state: S
    const env: Env<S>

    constructor (env: Env<S>, state: S)
      ensures this.env == env && this.state == state
    {
      this.env := env;
      this.state := state;
    }

    method ExecBody(body: string) returns (res: string)
      modifies this
      ensures (state, res) == RunBody(env, body, old(state))
      decreases |body|, 3
    {
      hide RunStmt, RunAll, Split, CutRest, TrimLeft, TrimRight;
      var stmts := SplitStmts(body);
      res := "";
      var k: nat := 0;
      assert stmts[0..] == stmts;
      assert RunBody(env, body, state) == RunAll(env, |body|, stmts, state);
      while k < |stmts|
        invariant res == "" && k <= |stmts| && forall j :: 0 <= j < |stmts| ==> |stmts[j]| <= |body|
        invariant RunAll(env, |body|, stmts[k..], state) == RunAll(env, |body|, stmts, old(state))
      {
        RunAllStep(env, |body|, stmts, k, state);
        res := ExecStmt(stmts[k]);
        if res != "" { return; }
        k := k + 1;
      }
      RunNone(env, |body|, state);
      assert stmts[k..] == [];
    }

    method ExecStmt(rawStmt: string) returns (res: string)
      modifies this
      ensures (state, res) == RunStmt(env, rawStmt, old(state))
      decreases |rawStmt|, 1
    {
      var stmt := PTrim(rawStmt);
      if stmt == "" { return ""; }
      var form := ReadForm(stmt);
      match form
      case LeaveForm(target) => return target;
      case StepForm => state := env.step(stmt, state); return "";
      case BadLoop => state := env.noEndLoop(state); return "";
      case LoopForm(tag, inner) => res := ExecLoop(tag, inner);
      case IfForm(cond, thenBody, elseBody) =>
        if env.test(cond, state) { res := ExecBody(thenBody); return; }
        if elseBody != "" { res := ExecBody(elseBody); return; }
        return "";
    }

    method ExecLoop(tag: string, inner: string) returns (res: string)
      modifies this
      ensures (state, res) == RunLoop(env, tag, inner, ROUNDS, old(state))
      decreases |inner|, 4
    {
      for iter := 0 to ROUNDS
        invariant RunLoop(env, tag, inner, ROUNDS - iter, state) == RunLoop(env, tag, inner, ROUNDS, old(state))
      {
        hide RunBody;
        res := ExecBody(inner);
        if res != "" {
          if tag == "" || Pu(res) == Pu(tag) { return ""; }
          return;
        }
      }
      return "";
    }
  }

  lemma RunNone<S>(env: Env<S>, bound: nat, s: S)
    ensures RunAll(env, bound, [], s) == (s, "")
  {
  }

  lemma RunAllStep<S>(env: Env<S>, bound: nat, stmts: seq<string>, k: nat, s: S)
    requires k < |stmts| && forall j :: 0 <= j < |stmts| ==> |stmts[j]| <= bound
    ensures var (s', res) := RunStmt(env, stmts[k], s);
            RunAll(env, bound, stmts[k..], s) == if res != "" then (s', res) else RunAll(env, bound, stmts[k + 1..], s')
  {
    hide RunStmt;
    assert stmts[k..][1..] == stmts[k + 1..];
  }

  // The tests of execStmt, in their order
  method ReadForm(stmt: string) returns (form: Form)
    ensures form == Classify(stmt)
  {
    hide TrimLeft, TrimRight, LastAt, Find, ThenRest, ElseEnd;
    if Prefixed(stmt, "LEAVE ") {
      var target := PTrim(stmt[6..]);
      return LeaveForm(target);
    }
    if Prefixed(stmt, "DECLARE ") || Prefixed(stmt, "SET ") || Prefixed(stmt, "OPEN ")
       || Prefixed(stmt, "CLOSE ") || Prefixed(stmt, "FETCH ") {
      return StepForm;
    }
    var tag, part := ReadLabel(stmt);
    if At(part, "LOOP") {
      var lastEl := FindLastEndLoop(part);
      if lastEl.None? { return BadLoop; }
      NoEndLoopInLoop(part, lastEl.value);
      var inner := PTrim(part[4..lastEl.value]);
      return LoopForm(tag, inner);
    }
    if Prefixed(stmt, "IF ") {
      form := ReadIf(stmt);
      return;
    }
    return StepForm;
  }

  method ReadLabel(stmt: string) returns (tag: string, part: string)
    ensures (tag, part) == SplitLabel(stmt)
  {
    hide TrimLeft, TrimRight;
    var colonPos: nat := 0;
    assert stmt[0..] == stmt;
    while colonPos < |stmt| && stmt[colonPos] != ':'
      invariant colonPos <= |stmt| && Find(stmt, ':') == colonPos + Find(stmt[colonPos..], ':')
    {
      assert stmt[colonPos..][1..] == stmt[colonPos + 1..];
      colonPos := colonPos + 1;
    }
    assert Find(stmt, ':') == colonPos;
    if colonPos < |stmt| && colonPos < 64 {
      var pl := PTrim(stmt[..colonPos]);
      var isLabel, k := pl != "", 0;
      while k < |pl|
        invariant k <= |pl| && (isLabel <==> pl != "" && AllWord(pl[..k]))
      {
        isLabel := isLabel && IsWord(pl[k]);
        assert pl[..k + 1] == pl[..k] + [pl[k]];
        k := k + 1;
      }
      assert pl[..k] == pl;
      if isLabel {
        part := PTrim(stmt[colonPos + 1..]);
        return pl, part;
      }
    }
    return "", stmt;
  }

  method ReadIf(stmt: string) returns (form: Form)
    requires Prefixed(stmt, "IF ")
    ensures form == ClassifyIf(stmt)
  {
    hide TrimLeft, TrimRight, ThenRest, ElseEnd, Classify;
    var up := Pu(stmt);
    assert Upper(stmt[2]) == ' ';
    var thenPos := FindThen(up);
    assert up[3..] == Pu(stmt[3..]);
    ThenUpper(true, stmt[3..], 0);
    if thenPos.None? { return StepForm; }
    ghost var t := ThenRest(true, stmt[3..], 0).value;
    var p := thenPos.value;
    assert t == stmt[p..] && t[4..] == stmt[p + 4..];
    var cond := PTrim(stmt[3..p]);
    var after := PTrim(stmt[p + 4..]);
    var elsePos, endIfPos := FindElse(Pu(after));
    ElseUpper(true, after, 0, None, None);
    SamePlace(after, Pu(after), elsePos, ElseEnd(true, after, 0, None).0);
    SamePlace(after, Pu(after), endIfPos, ElseEnd(true, after, 0, None).1);
    var bound := if endIfPos.Some? then endIfPos.value else |after|;
    var thenBody, elseBody := "", "";
    if elsePos.Some? {
      thenBody := PTrim(after[..elsePos.value]);
      elseBody := PTrim(after[elsePos.value + 4..bound]);
    } else {
      thenBody := PTrim(after[..bound]);
    }
    form := IfForm(cond, thenBody, elseBody);
  }

  // The position found in the upper-cased copy is that of the suffix found in the text.
  lemma SamePlace(s: string, up: string, pos: Option<nat>, e: Option<string>)
    requires |up| == |s| && (pos.Some? ==> pos.value <= |up|) && SameLen(e, From(up, pos))
    ensures if e.Some? then |e.value| <= |s| && pos == Some(|s| - |e.value|) else pos == None
  {
  }
}
