/** The scan for ELSE and END IF passes over whole printed statements, so it finds those of its own IF. */
module ProcElse {
  import opened Text
  import opened ProcText
  import opened ProcProgram
  import opened ProcScan
  import ProcSkip

  lemma ElseStep(lb: bool, x: string, d: nat, e: Option<string>)
    requires x != "" && !Keyword(lb, x)
    ensures ElseEnd(lb, x, d, e) == ElseEnd(!IsWord(x[0]), x[1..], d, e)
  {
  }

  lemma ElseEither(k: string, d: nat, e: Option<string>)
    requires k != "" && k[0] == ';'
    ensures ElseEnd(false, k, d, e) == ElseEnd(true, k, d, e)
  {
    NoKeyword(true, k);
    ElseStep(true, k, d, e);
    ElseStep(false, k, d, e);
  }

  lemma ElseGap(y: Style, lb: bool, k: string, d: nat, e: Option<string>)
    requires Spelled(y)
    ensures ElseEnd(lb, y.gap + k, d, e) == ElseEnd(true, k, d, e)
  {
    GapSilent(lb, y.gap, k);
    ElseSilent(lb, y.gap, k, d, e);
  }

  lemma ElsePad(y: Style, k: string, d: nat, e: Option<string>)
    requires Spelled(y)
    ensures ElseEnd(true, y.pad + k, d, e) == ElseEnd(true, k, d, e)
  {
    GapSilent(true, y.pad, k);
    ElseSilent(true, y.pad, k, d, e);
    AfterPad(y.pad);
  }

  lemma ElseChar(c: char, lb: bool, k: string, d: nat, e: Option<string>)
    requires !IsWord(c)
    ensures ElseEnd(lb, [c] + k, d, e) == ElseEnd(true, k, d, e)
  {
    assert ([c] + k)[1..] == k;
    NoKeyword(lb, [c] + k);
    ElseStep(lb, [c] + k, d, e);
  }

  lemma ElseClean(t: string, k: string, d: nat, e: Option<string>)
    requires Clean(true, t) && Seals(k)
    ensures ElseEnd(true, t + k, d, e) == ElseEnd(After(true, t), k, d, e)
  {
    CleanSilent(true, t, k);
    ElseSilent(true, t, k, d, e);
  }

  // Words that this scan takes for ordinary text
  lemma ElseWord(w: string, kw: string, k: string, d: nat, e: Option<string>)
    requires Spells(w, kw) && (kw == "LOOP" || kw == "THEN" || kw == "LEAVE" || (kw == "ELSE" && 1 <= d))
    ensures ElseEnd(true, w + k, d, e) == ElseEnd(false, k, d, e)
  {
    AtToken(w, kw, k);
    ProcSkip.UpperWord(w, kw);
    NotAt(w + k, "IF", 0); NotAt(w + k, "END IF", if kw == "ELSE" then 1 else 0);
    if kw != "ELSE" { NotAt(w + k, "ELSE", 0); }
    assert (w + k)[1..] == w[1..] + k;
    assert ElseEnd(true, w + k, d, e) == ElseEnd(false, w[1..] + k, d, e);
    WordSilent(w[1..], k);
    ElseSilent(false, w[1..], k, d, e);
  }

  lemma ElsePlain(x: string, d: nat, e: Option<string>)
    requires x != "" && !At(x, "IF") && !At(x, "END IF") && !At(x, "ELSE")
    ensures ElseEnd(true, x, d, e) == ElseEnd(!IsWord(x[0]), x[1..], d, e)
  {
    hide At;
  }

  lemma ElseEndLoop(w: string, k: string, d: nat, e: Option<string>)
    requires Spells(w, "END LOOP")
    ensures ElseEnd(true, w + k, d, e) == ElseEnd(false, k, d, e)
  {
    hide ElseEnd;
    var w0, w1 := w[..3], w[4..];
    EndLoopParts(w, k);
    NotAt(w + k, "IF", 0); NotAt(w + k, "END IF", 4); NotAt(w + k, "ELSE", 1);
    ElsePlain(w + k, d, e);
    WordSilent(w0[1..], [w[3]] + (w1 + k));
    ElseSilent(false, w0[1..], [w[3]] + (w1 + k), d, e);
    ElseChar(w[3], false, w1 + k, d, e);
    ElseWord(w1, "LOOP", k, d, e);
  }

  // END, a blank, and LOOP
  lemma EndLoopParts(w: string, k: string)
    requires Spells(w, "END LOOP")
    ensures |w| == 8 && w[3] == ' ' && AllWord(w[..3]) && IsWord(w[0]) && Spells(w[4..], "LOOP")
    ensures Upper((w + k)[0]) == 'E' && Upper((w + k)[1]) == 'N' && Upper((w + k)[4]) == 'L' && (w + k)[0] == w[0]
    ensures (w + k)[1..] == w[..3][1..] + ([w[3]] + (w[4..] + k))
  {
    AtToken(w, "END LOOP", k);
    var w0 := w[..3];
    assert Spells(w0, "END");
    ProcSkip.UpperWord(w0, "END");
  }

  lemma ElseIf(w: string, k: string, d: nat, e: Option<string>)
    requires Spells(w, "IF") && k != "" && !IsWord(k[0])
    ensures ElseEnd(true, w + k, d, e) == ElseEnd(false, k, d + 1, e)
  {
    AtToken(w, "IF", k);
  }

  lemma ElseEndIf(w: string, k: string, d: nat, e: Option<string>)
    requires Spells(w, "END IF")
    ensures ElseEnd(true, w + k, d, e) == if d == 0 then (e, Some(w + k)) else ElseEnd(false, k, d - 1, e)
  {
    AtToken(w, "END IF", k);
    NotAt(w + k, "IF", 0);
  }

  lemma ElseElse(w: string, k: string, e: Option<string>)
    requires Spells(w, "ELSE") && k != "" && !IsWord(k[0])
    ensures ElseEnd(true, w + k, 0, e) == ElseEnd(false, k, 0, Some(w + k))
  {
    AtToken(w, "ELSE", k);
    NotAt(w + k, "IF", 0); NotAt(w + k, "END IF", 1);
  }

  // ------------------------------------------------------------------------------------------
  // Structural induction

  lemma {:induction false} ElsePrint(p: Stmt, k: string, d: nat, e: Option<string>)
    requires Printable(p) && k != "" && k[0] == ';'
    ensures ElseEnd(true, Print(p, k), d, e) == ElseEnd(true, k, d, e)
    decreases p, 1
  {
    match p
    case Atom(text, _) => ElseClean(text, k, d, e); ElseEither(k, d, e);
    case Leave(target, y) => ElseLeave(y, target, k, d, e);
    case Loop(tag, body, y) =>
      ElseLoop(y, body, k, d, e);
      if tag != "" { ElseTag(y, tag, PrintLoop(y, body, k), d, e); }
    case If(cond, thn, hasElse, els, y) =>
      var tail := PrintTail(y, hasElse, els, k);
      ElseIfHead(y, cond, PrintBlock(y, thn, tail), d, e);
      ElseBlock(y, thn, tail, d + 1, e);
      ElseTail(y, hasElse, els, k, d, e);
  }

  lemma ElseLeave(y: Style, target: string, k: string, d: nat, e: Option<string>)
    requires Spelled(y) && Clean(true, target) && k != "" && k[0] == ';'
    ensures ElseEnd(true, y.leave + (" " + (y.pad + (target + k))), d, e) == ElseEnd(true, k, d, e)
  {
    ElseWord(y.leave, "LEAVE", " " + (y.pad + (target + k)), d, e);
    ElseChar(' ', false, y.pad + (target + k), d, e);
    ElsePad(y, target + k, d, e);
    ElseClean(target, k, d, e);
    ElseEither(k, d, e);
  }

  lemma ElseTag(y: Style, tag: string, k: string, d: nat, e: Option<string>)
    requires Spelled(y) && Clean(true, tag)
    ensures ElseEnd(true, tag + (":" + (y.gap + k)), d, e) == ElseEnd(true, k, d, e)
  {
    ElseClean(tag, ":" + (y.gap + k), d, e);
    ElseChar(':', After(true, tag), y.gap + k, d, e);
    ElseGap(y, true, k, d, e);
  }

  lemma ElseIfHead(y: Style, cond: string, block: string, d: nat, e: Option<string>)
    requires Spelled(y) && Fragment(cond)
    ensures ElseEnd(true, y.ifKw + (" " + (y.pad + (cond + (y.gap + (y.thenKw + (y.gap + block)))))), d, e)
         == ElseEnd(true, block, d + 1, e)
  {
    hide ElseEnd;
    var r := y.thenKw + (y.gap + block);
    ElseIf(y.ifKw, " " + (y.pad + (cond + (y.gap + r))), d, e);
    ElseChar(' ', false, y.pad + (cond + (y.gap + r)), d + 1, e);
    ElsePad(y, cond + (y.gap + r), d + 1, e);
    AtToken(y.thenKw, "THEN", y.gap + block);
    ProcSkip.GapSeals(y, r);
    ElseClean(cond, y.gap + r, d + 1, e);
    ElseGap(y, After(true, cond), r, d + 1, e);
    ElseWord(y.thenKw, "THEN", y.gap + block, d + 1, e);
    ElseGap(y, false, block, d + 1, e);
  }

  lemma ElseTail(y: Style, hasElse: bool, els: seq<Stmt>, k: string, d: nat, e: Option<string>)
    requires Spelled(y) && (hasElse ==> AllPrintable(els)) && k != "" && k[0] == ';'
    ensures ElseEnd(true, PrintTail(y, hasElse, els, k), d + 1, e) == ElseEnd(true, k, d, e)
    decreases els, 3
  {
    hide ElseEnd;
    if hasElse { ElseInner(y, els, y.endIf + k, d + 1, e); }
    ElseEndIf(y.endIf, k, d + 1, e);
    ElseEither(k, d, e);
  }

  lemma ElseInner(y: Style, els: seq<Stmt>, k: string, d: nat, e: Option<string>)
    requires Spelled(y) && AllPrintable(els) && 1 <= d
    ensures ElseEnd(true, PrintElse(y, els, k), d, e) == ElseEnd(true, k, d, e)
    decreases els, 2
  {
    var block := PrintBlock(y, els, k);
    ElseWord(y.elseKw, "ELSE", y.gap + block, d, e);
    ElseGap(y, false, block, d, e);
    ElseBlock(y, els, k, d, e);
  }

  lemma ElseLoop(y: Style, body: seq<Stmt>, k: string, d: nat, e: Option<string>)
    requires Spelled(y) && AllPrintable(body) && k != "" && k[0] == ';'
    ensures ElseEnd(true, PrintLoop(y, body, k), d, e) == ElseEnd(true, k, d, e)
    decreases body, 2
  {
    var block := PrintBlock(y, body, y.endLoop + k);
    ElseWord(y.loop, "LOOP", y.gap + block, d, e);
    ElseGap(y, false, block, d, e);
    ElseBlock(y, body, y.endLoop + k, d, e);
    ElseEndLoop(y.endLoop, k, d, e);
    ElseEither(k, d, e);
  }

  lemma ElseBlock(y: Style, ps: seq<Stmt>, k: string, d: nat, e: Option<string>)
    requires Spelled(y) && AllPrintable(ps)
    ensures ElseEnd(true, PrintBlock(y, ps, k), d, e) == ElseEnd(true, k, d, e)
    decreases ps, 1
  {
    ElseAll(ps, y.gap + k, d, e);
    ElseGap(y, true, k, d, e);
  }

  lemma {:induction false} ElseAll(ps: seq<Stmt>, k: string, d: nat, e: Option<string>)
    requires AllPrintable(ps)
    ensures ElseEnd(true, PrintAll(ps, k), d, e) == ElseEnd(true, k, d, e)
    decreases ps, 0
  {
    if ps != [] {
      assert Printable(ps[0]);
      var y := ps[0].y;
      var rest := if |ps| == 1 then k else y.gap + PrintAll(ps[1..], k);
      ElsePrint(ps[0], ";" + rest, d, e);
      ElseChar(';', true, rest, d, e);
      ElseAll(ps[1..], k, d, e);
      if |ps| > 1 { ElseGap(y, true, PrintAll(ps[1..], k), d, e); }
    }
  }
}
