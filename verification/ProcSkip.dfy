/** Structural induction over programs: a scanner that enters a printed statement outside every bracket leaves it
    outside every bracket, because each THEN and LOOP inside is closed by its own END IF and END LOOP. */
module ProcSkip {
  import opened Text
  import opened ProcText
  import opened ProcProgram
  import opened ProcScan

  lemma {:induction false} PrintAppend(p: Stmt, k: string)
    ensures Print(p, k) == Print(p, "") + k
    decreases p, 1
  {
    match p
    case Atom(text, _) =>
    case Leave(target, y) =>
    case Loop(tag, body, y) => LoopAppend(y, body, k);
    case If(cond, thn, hasElse, els, y) =>
      TailAppend(y, hasElse, els, k);
      BlockAppend(y, thn, PrintTail(y, hasElse, els, ""), k);
  }

  lemma TailAppend(y: Style, hasElse: bool, els: seq<Stmt>, k: string)
    ensures PrintTail(y, hasElse, els, k) == PrintTail(y, hasElse, els, "") + k
    decreases els, 2
  {
    assert y.endIf + "" + k == y.endIf + k;
    if hasElse { BlockAppend(y, els, y.endIf + "", k); }
  }

  lemma BlockAppend(y: Style, ps: seq<Stmt>, j: string, k: string)
    ensures PrintBlock(y, ps, j + k) == PrintBlock(y, ps, j) + k
    decreases ps, 1
  {
    PrintAllAppend(ps, y.gap + (j + k));
    PrintAllAppend(ps, y.gap + j);
    assert PrintAll(ps, "") + (y.gap + (j + k)) == PrintAll(ps, "") + (y.gap + j) + k;
  }

  lemma LoopAppend(y: Style, body: seq<Stmt>, k: string)
    ensures PrintLoop(y, body, k) == PrintLoop(y, body, "") + k
    decreases body, 2
  {
    BlockAppend(y, body, y.endLoop + "", k);
    assert y.endLoop + "" + k == y.endLoop + k;
  }

  lemma {:induction false} PrintAllAppend(ps: seq<Stmt>, k: string)
    ensures PrintAll(ps, k) == PrintAll(ps, "") + k
    decreases ps, 0
  {
    if ps != [] {
      var gap := ps[0].y.gap;
      var rest := if |ps| == 1 then "" else gap + PrintAll(ps[1..], "");
      PrintAllAppend(ps[1..], k);
      PrintAppend(ps[0], ";" + (if |ps| == 1 then k else gap + PrintAll(ps[1..], k)));
      PrintAppend(ps[0], ";" + rest);
      assert PrintAll(ps, k) == Print(ps[0], "") + (";" + (rest + k));
    }
  }

  // ------------------------------------------------------------------------------------------
  // splitStmts

  lemma SemiEither(k: string, d: int)
    requires k != "" && k[0] == ';'
    ensures CutRest(false, k, d) == CutRest(true, k, d)
  {
    NoKeyword(true, k);
  }

  lemma CutGap(y: Style, lb: bool, k: string, d: int)
    requires Spelled(y)
    ensures CutRest(lb, y.gap + k, d) == CutRest(true, k, d)
  {
    GapSilent(lb, y.gap, k);
    CutSilent(lb, y.gap, k, d);
  }

  lemma CutPad(y: Style, k: string, d: int)
    requires Spelled(y)
    ensures CutRest(true, y.pad + k, d) == CutRest(true, k, d)
  {
    GapSilent(true, y.pad, k);
    CutSilent(true, y.pad, k, d);
    AfterPad(y.pad);
  }

  // A word that is no bracket
  lemma CutPlainWord(w: string, k: string, d: int)
    requires w != "" && AllWord(w) && MarkAt(true, w + k).Plain?
    ensures CutRest(true, w + k, d) == CutRest(false, k, d)
  {
    hide CutRest;
    assert (w + k)[1..] == w[1..] + k;
    CutStep(true, w + k, d);
    WordSilent(w[1..], k);
    CutSilent(false, w[1..], k, d);
  }

  lemma UpperWord(w: string, kw: string)
    requires Spells(w, kw) && forall i :: 0 <= i < |kw| ==> IsAlpha(kw[i])
    ensures AllWord(w)
  {
    forall i | 0 <= i < |w| ensures IsWord(w[i]) { assert Upper(w[i]) == kw[i]; }
  }

  lemma CutBlank(k: string, d: int)
    ensures CutRest(false, " " + k, d) == CutRest(true, k, d)
  {
    assert (" " + k)[1..] == k;
    NoKeyword(false, " " + k);
    CutStep(false, " " + k, d);
  }

  lemma CutClean(t: string, k: string, d: int)
    requires Clean(true, t) && Seals(k)
    ensures CutRest(true, t + k, d) == CutRest(After(true, t), k, d)
  {
    CleanSilent(true, t, k);
    CutSilent(true, t, k, d);
  }

  lemma CutMark(x: string, m: Mark, d: int)
    requires x != "" && MarkAt(true, x) == m && !m.Plain?
    ensures CutRest(true, x, d) == CutRest(false, x[m.Len()..], d + m.Delta())
  {
  }

  // One lemma per bracket keyword
  lemma CutLoopKw(w: string, k: string, d: int)
    requires Spells(w, "LOOP") && k != "" && !IsWord(k[0])
    ensures CutRest(true, w + k, d) == CutRest(false, k, d + 1)
  {
    hide CutRest;
    AtToken(w, "LOOP", k);
    NotAt(w + k, "END LOOP", 0); NotAt(w + k, "END IF", 0);
    assert MarkAt(true, w + k) == Mark.Loop;
    CutMark(w + k, Mark.Loop, d);
  }

  lemma CutThenKw(w: string, k: string, d: int)
    requires Spells(w, "THEN") && k != "" && !IsWord(k[0])
    ensures CutRest(true, w + k, d) == CutRest(false, k, d + 1)
  {
    hide CutRest;
    AtToken(w, "THEN", k);
    NotAt(w + k, "END LOOP", 0); NotAt(w + k, "END IF", 0); NotAt(w + k, "LOOP", 0);
    assert MarkAt(true, w + k) == Then;
    CutMark(w + k, Then, d);
  }

  lemma CutEndLoopKw(w: string, k: string, d: int)
    requires Spells(w, "END LOOP") && k != "" && k[0] == ';'
    ensures CutRest(true, w + k, d + 1) == CutRest(true, k, d)
  {
    hide CutRest;
    AtToken(w, "END LOOP", k);
    assert MarkAt(true, w + k) == EndLoop;
    CutMark(w + k, EndLoop, d + 1);
    SemiEither(k, d);
  }

  lemma CutEndIfKw(w: string, k: string, d: int)
    requires Spells(w, "END IF") && k != "" && k[0] == ';'
    ensures CutRest(true, w + k, d + 1) == CutRest(true, k, d)
  {
    hide CutRest;
    AtToken(w, "END IF", k);
    NotAt(w + k, "END LOOP", 4);
    assert MarkAt(true, w + k) == EndIf;
    CutMark(w + k, EndIf, d + 1);
    SemiEither(k, d);
  }

  // Words that splitStmts takes for ordinary text
  lemma CutOtherKw(w: string, kw: string, k: string, d: int)
    requires Spells(w, kw) && (kw == "IF" || kw == "ELSE" || kw == "LEAVE")
    ensures CutRest(true, w + k, d) == CutRest(false, k, d)
  {
    hide CutRest;
    AtToken(w, kw, k);
    UpperWord(w, kw);
    NotAt(w + k, "END LOOP", if kw == "ELSE" then 1 else 0); NotAt(w + k, "END IF", if kw == "ELSE" then 1 else 0);
    NotAt(w + k, "LOOP", if kw == "LEAVE" then 1 else 0); NotAt(w + k, "THEN", 0);
    CutPlainWord(w, k, d);
  }

  lemma CutColon(lb: bool, k: string, d: int)
    ensures CutRest(lb, ":" + k, d) == CutRest(true, k, d)
  {
    assert (":" + k)[1..] == k;
    NoKeyword(lb, ":" + k);
    CutStep(lb, ":" + k, d);
  }

  lemma CutSemi(k: string, d: int)
    requires 1 <= d
    ensures CutRest(true, ";" + k, d) == CutRest(true, k, d)
  {
    NoKeyword(true, ";" + k);
    assert MarkAt(true, ";" + k).Plain?;
    assert (";" + k)[1..] == k;
  }

  lemma GapSeals(y: Style, k: string)
    requires Spelled(y) && k != "" && Upper(k[0]) != 'I' && Upper(k[0]) != 'L'
    ensures Seals(y.gap + k)
  {
  }

  lemma CutLeave(y: Style, target: string, k: string, d: int)
    requires Spelled(y) && Clean(true, target) && Seals(k)
    ensures CutRest(true, y.leave + (" " + (y.pad + (target + k))), d) == CutRest(After(true, target), k, d)
  {
    CutOtherKw(y.leave, "LEAVE", " " + (y.pad + (target + k)), d);
    CutBlank(y.pad + (target + k), d);
    CutPad(y, target + k, d);
    CutClean(target, k, d);
  }

  lemma CutIfHead(y: Style, cond: string, block: string, d: int)
    requires Spelled(y) && Fragment(cond)
    ensures CutRest(true, y.ifKw + (" " + (y.pad + (cond + (y.gap + (y.thenKw + (y.gap + block)))))), d)
         == CutRest(true, block, d + 1)
  {
    var r := y.thenKw + (y.gap + block);
    CutOtherKw(y.ifKw, "IF", " " + (y.pad + (cond + (y.gap + r))), d);
    CutBlank(y.pad + (cond + (y.gap + r)), d);
    CutPad(y, cond + (y.gap + r), d);
    AtToken(y.thenKw, "THEN", y.gap + block);
    GapSeals(y, r);
    CutClean(cond, y.gap + r, d);
    CutGap(y, After(true, cond), r, d);
    CutThenKw(y.thenKw, y.gap + block, d);
    CutGap(y, false, block, d + 1);
  }

  lemma {:induction false} CutPrint(p: Stmt, k: string, d: int)
    requires Printable(p) && k != "" && k[0] == ';' && 0 <= d
    ensures CutRest(true, Print(p, k), d) == CutRest(true, k, d)
    decreases p, 1
  {
    match p
    case Atom(text, _) => CutClean(text, k, d); SemiEither(k, d);
    case Leave(target, y) => CutLeave(y, target, k, d); SemiEither(k, d);
    case Loop(tag, body, y) =>
      CutLoop(y, body, k, d);
      if tag != "" { CutTag(y, tag, PrintLoop(y, body, k), d); }
    case If(cond, thn, hasElse, els, y) =>
      var tail := PrintTail(y, hasElse, els, k);
      CutIfHead(y, cond, PrintBlock(y, thn, tail), d);
      CutBlock(y, thn, tail, d + 1);
      CutTail(y, hasElse, els, k, d);
  }

  lemma CutTail(y: Style, hasElse: bool, els: seq<Stmt>, k: string, d: int)
    requires Spelled(y) && (hasElse ==> AllPrintable(els)) && k != "" && k[0] == ';' && 0 <= d
    ensures CutRest(true, PrintTail(y, hasElse, els, k), d + 1) == CutRest(true, k, d)
    decreases els, 3
  {
    if hasElse { CutElse(y, els, y.endIf + k, d + 1); }
    CutEndIfKw(y.endIf, k, d);
  }

  lemma CutTag(y: Style, tag: string, k: string, d: int)
    requires Spelled(y) && Clean(true, tag)
    ensures CutRest(true, tag + (":" + (y.gap + k)), d) == CutRest(true, k, d)
  {
    CutClean(tag, ":" + (y.gap + k), d);
    CutColon(After(true, tag), y.gap + k, d);
    CutGap(y, true, k, d);
  }

  lemma CutElse(y: Style, els: seq<Stmt>, k: string, d: int)
    requires Spelled(y) && AllPrintable(els) && 1 <= d
    ensures CutRest(true, PrintElse(y, els, k), d) == CutRest(true, k, d)
    decreases els, 2
  {
    CutOtherKw(y.elseKw, "ELSE", y.gap + PrintBlock(y, els, k), d);
    CutGap(y, false, PrintBlock(y, els, k), d);
    CutBlock(y, els, k, d);
  }

  lemma CutLoop(y: Style, body: seq<Stmt>, k: string, d: int)
    requires Spelled(y) && AllPrintable(body) && k != "" && k[0] == ';' && 0 <= d
    ensures CutRest(true, PrintLoop(y, body, k), d) == CutRest(true, k, d)
    decreases body, 2
  {
    var block := PrintBlock(y, body, y.endLoop + k);
    CutLoopKw(y.loop, y.gap + block, d);
    CutGap(y, false, block, d + 1);
    CutBlock(y, body, y.endLoop + k, d + 1);
    CutEndLoopKw(y.endLoop, k, d);
  }

  lemma CutBlock(y: Style, ps: seq<Stmt>, k: string, d: int)
    requires Spelled(y) && AllPrintable(ps) && 1 <= d
    ensures CutRest(true, PrintBlock(y, ps, k), d) == CutRest(true, k, d)
    decreases ps, 1
  {
    CutAll(ps, y.gap + k, d);
    CutGap(y, true, k, d);
  }

  lemma {:induction false} CutAll(ps: seq<Stmt>, k: string, d: int)
    requires AllPrintable(ps) && 1 <= d
    ensures CutRest(true, PrintAll(ps, k), d) == CutRest(true, k, d)
    decreases ps, 0
  {
    if ps != [] {
      assert Printable(ps[0]);
      var y := ps[0].y;
      var rest := if |ps| == 1 then k else y.gap + PrintAll(ps[1..], k);
      CutPrint(ps[0], ";" + rest, d);
      CutSemi(rest, d);
      CutAll(ps[1..], k, d);
      if |ps| > 1 { CutGap(y, true, PrintAll(ps[1..], k), d); }
    }
  }
}
