/** The text interpreter refines the meaning of structured programs: splitting, matching and running printed text
    has the state effect and the LEAVE result of the program it was printed from. */
module ProcRefinement {
  import opened Text
  import opened ProcText
  import opened ProcProgram
  import opened ProcScan
  import opened ProcSkip
  import opened ProcElse

  // ------------------------------------------------------------------------------------------
  // Shape of printed text

  lemma LoopShape(y: Style, body: seq<Stmt>)
    requires Spelled(y)
    ensures PrintLoop(y, body, "") == y.loop + (y.gap + Listing(body) + y.gap) + y.endLoop
    ensures |y.loop| == 4 && |y.endLoop| == 8
    ensures forall i :: 0 <= i < 4 ==> Upper(y.loop[i]) == "LOOP"[i]
    ensures forall i :: 0 <= i < 8 ==> Upper(y.endLoop[i]) == "END LOOP"[i]
  {
    hide PrintAll;
    AtToken(y.loop, "LOOP", "");
    AtToken(y.endLoop, "END LOOP", "");
    assert y.endLoop + "" == y.endLoop;
    PrintAllAppend(body, y.gap + y.endLoop);
    RegroupLoop(y.loop, y.gap, Listing(body), y.gap, y.endLoop);
    assert Listing(body) + (y.gap + y.endLoop) == Listing(body) + y.gap + y.endLoop;
  }

  lemma BlockShape(y: Style, ps: seq<Stmt>, k: string)
    ensures PrintBlock(y, ps, k) == Listing(ps) + (y.gap + k)
  {
    PrintAllAppend(ps, y.gap + k);
  }

  function TailHead(y: Style, hasElse: bool, els: seq<Stmt>): string {
    if hasElse then y.elseKw + (y.gap + (Listing(els) + y.gap)) else ""
  }

  lemma TailShape(y: Style, hasElse: bool, els: seq<Stmt>)
    requires Spelled(y)
    ensures PrintTail(y, hasElse, els, "") == TailHead(y, hasElse, els) + y.endIf
  {
    hide PrintAll;
    assert y.endIf + "" == y.endIf;
    if hasElse {
      BlockShape(y, els, y.endIf);
      assert PrintElse(y, els, y.endIf) == y.elseKw + (y.gap + (Listing(els) + (y.gap + y.endIf)));
      assert y.elseKw + (y.gap + (Listing(els) + (y.gap + y.endIf)))
          == y.elseKw + (y.gap + (Listing(els) + y.gap)) + y.endIf;
    }
  }

  lemma TailEnds(y: Style, hasElse: bool, els: seq<Stmt>)
    requires Spelled(y)
    ensures var t := PrintTail(y, hasElse, els, ""); 6 <= |t| && !IsSpace(t[0]) && !IsSpace(t[|t| - 1])
  {
    TailShape(y, hasElse, els);
    AtToken(y.endIf, "END IF", "");
    if hasElse { AtToken(y.elseKw, "ELSE", ""); }
  }

  // The part of a printed IF after "IF "
  function IfRest(p: Stmt): string
    requires p.If?
  {
    p.y.pad + (p.cond + (p.y.gap + (p.y.thenKw + (p.y.gap + PrintBlock(p.y, p.thn, PrintTail(p.y, p.hasElse, p.els, ""))))))
  }

  lemma IfShape(p: Stmt)
    requires Spelled(p.y) && p.If?
    ensures Print(p, "") == (p.y.ifKw + " ") + IfRest(p)
    ensures |p.y.ifKw| == 2 && Upper(p.y.ifKw[0]) == 'I' && Upper(p.y.ifKw[1]) == 'F'
  {
    var y := p.y;
    AtToken(y.ifKw, "IF", "");
  }

  lemma IfEnds(p: Stmt)
    requires Spelled(p.y) && p.If?
    ensures var t := IfRest(p); t != "" && !IsSpace(t[|t| - 1])
  {
    var y := p.y;
    var tail := PrintTail(y, p.hasElse, p.els, "");
    TailEnds(y, p.hasElse, p.els);
    BlockShape(y, p.thn, tail);
    RegroupIf(y.pad, p.cond, y.gap, y.thenKw, Listing(p.thn), tail);
  }

  lemma RegroupIf(pad: string, cond: string, gap: string, thenKw: string, list: string, tail: string)
    ensures pad + (cond + (gap + (thenKw + (gap + (list + (gap + tail))))))
         == (pad + (cond + (gap + (thenKw + (gap + (list + gap)))))) + tail
  {
    assert list + (gap + tail) == (list + gap) + tail;
    assert gap + ((list + gap) + tail) == (gap + (list + gap)) + tail;
    assert thenKw + ((gap + (list + gap)) + tail) == (thenKw + (gap + (list + gap))) + tail;
  }

  lemma TextShape(p: Stmt)
    requires Printable(p)
    ensures var t := Print(p, ""); t != "" && Trimmed(t) && t[0] != ':'
  {
    var y := p.y;
    match p
    case Atom(text, _) => assert text + "" == text;
    case Leave(target, _) => LeaveShape(y, target);
    case Loop(tag, body, _) =>
      LoopShape(y, body);
      if tag != "" { assert Print(p, "") == tag + (":" + (y.gap + PrintLoop(y, body, ""))); }
    case If(_, _, _, _, _) => IfShape(p); IfEnds(p); hide IfRest, Print;
  }

  lemma LeaveShape(y: Style, target: string)
    requires Spelled(y) && Fragment(target)
    ensures var t := y.leave + (" " + (y.pad + (target + ""))); t != "" && Trimmed(t) && t[0] != ':'
  {
    hide Clean;
    AtToken(y.leave, "LEAVE", "");
    assert y.leave + (" " + (y.pad + (target + ""))) == y.leave + " " + y.pad + target;
  }

  lemma {:induction false} ListingShape(ps: seq<Stmt>)
    requires AllPrintable(ps)
    ensures var t := Listing(ps); Trimmed(t) && (ps != [] ==> t != "" && t[0] != ':' && t[|t| - 1] == ';')
  {
    if ps != [] {
      var rest := if |ps| == 1 then "" else ps[0].y.gap + Listing(ps[1..]);
      TextShape(ps[0]);
      PrintAppend(ps[0], ";" + rest);
      ListingShape(ps[1..]);
    }
  }

  // ------------------------------------------------------------------------------------------
  // Splitting

  function Texts(ps: seq<Stmt>): seq<string> {
    seq(|ps|, i requires 0 <= i < |ps| => Print(ps[i], ""))
  }

  lemma SplitBlank(w: string)
    requires AllSpace(w)
    ensures Split(w) == []
  {
    assert w + "" == w && "" + w + "" == w;
    TrimPad(w, "", "");
    GapSilent(true, w, "");
    CutSilent(true, w, "", 0);
    assert CutRest(After(true, w), "", 0) == "";
  }

  // splitStmts cuts a printed body into exactly its statements.
  lemma {:induction false} SplitListing(ps: seq<Stmt>, w: string)
    requires AllPrintable(ps) && AllSpace(w)
    ensures Split(w + Listing(ps)) == Texts(ps)
    decreases |ps|
  {
    hide Split, Trim, PrintAll, Print, Texts, AllPrintable, Printable, Spelled, AllSpace;
    if ps == [] {
      SplitNone(w);
    } else {
      RestPrintable(ps);
      SplitMore(ps, w);
      TextsCons(ps);
      if |ps| == 1 { SplitLastOf(ps); } else { SplitListing(ps[1..], ps[0].y.gap); }
    }
  }

  lemma SplitNone(w: string)
    requires AllSpace(w)
    ensures Split(w + Listing([])) == Texts([])
  {
    hide Split, Trim;
    assert w + "" == w;
    SplitBlank(w);
  }

  lemma SplitLastOf(ps: seq<Stmt>)
    requires |ps| == 1
    ensures Split("") == Texts(ps[1..]) == []
  {
    hide Split, Trim;
    SplitBlank("");
  }

  lemma RestPrintable(ps: seq<Stmt>)
    requires AllPrintable(ps) && ps != []
    ensures Printable(ps[0]) && AllPrintable(ps[1..]) && AllSpace(ps[0].y.gap)
  {
    assert Printable(ps[0]);
  }

  lemma TextsCons(ps: seq<Stmt>)
    requires ps != []
    ensures Texts(ps) == [Print(ps[0], "")] + Texts(ps[1..])
  {
  }

  lemma SplitMore(ps: seq<Stmt>, w: string)
    requires AllPrintable(ps) && AllSpace(w) && ps != []
    ensures Split(w + Listing(ps))
         == [Print(ps[0], "")] + Split(if |ps| == 1 then "" else ps[0].y.gap + Listing(ps[1..]))
  {
    var rest := if |ps| == 1 then "" else ps[0].y.gap + Listing(ps[1..]);
    SplitFirst(ps[0], w, ";" + rest);
    assert (";" + rest)[1..] == rest;
  }

  lemma SplitAt(body: string, w: string, t: string, k: string)
    requires body == w + (t + k) && AllSpace(w) && t != "" && Trimmed(t)
    requires k != "" && CutRest(true, body, 0) == k
    ensures Split(body) == [t] + Split(k[1..])
  {
    hide CutRest, TrimLeft, TrimRight;
    TrimPad(w, t, "");
    assert body[..|body| - |k|] == w + t + "";
  }

  lemma SplitFirst(p: Stmt, w: string, k: string)
    requires Printable(p) && AllSpace(w) && k != "" && k[0] == ';'
    ensures Split(w + Print(p, k)) == [Print(p, "")] + Split(k[1..])
  {
    CutFirst(p, w, k);
    PrintAppend(p, k);
    TextShape(p);
    SplitAt(w + Print(p, k), w, Print(p, ""), k);
  }

  lemma CutFirst(p: Stmt, w: string, k: string)
    requires Printable(p) && AllSpace(w) && k != "" && k[0] == ';'
    ensures CutRest(true, w + Print(p, k), 0) == k
  {
    hide CutRest;
    GapSilent(true, w, Print(p, k));
    CutSilent(true, w, Print(p, k), 0);
    CutPrint(p, k, 0);
    CutStop(k);
  }

  lemma CutStop(k: string)
    requires k != "" && k[0] == ';'
    ensures CutRest(true, k, 0) == k
  {
    NoKeyword(true, k);
    assert MarkAt(true, k).Plain?;
  }

  // ------------------------------------------------------------------------------------------
  // Which texts the splitter takes for one statement

  // The bracket depth behind a text, or None when a `;` at depth 0 cuts it. Quotes play no part.
  function Net(lb: bool, t: string, d: int): Option<int>
    decreases |t|
  {
    if t == "" then Some(d)
    else
      var m := MarkAt(lb, t);
      if m.Plain? && t[0] == ';' && d == 0 then None
      else Net(m.Plain? && !IsWord(t[0]), t[m.Len()..], d + m.Delta())
  }

  lemma MarkSealed(lb: bool, t: string, k: string)
    requires t != "" && k != "" && k[0] == ';'
    ensures MarkAt(lb, t + k) == MarkAt(lb, t)
  {
    WordEither(t, k, "END LOOP");
    WordEither(t, k, "END IF");
    WordEither(t, k, "LOOP");
    WordEither(t, k, "THEN");
  }

  lemma WordEither(t: string, k: string, kw: string)
    requires t != "" && k != "" && k[0] == ';' && (kw == "END LOOP" || kw == "END IF" || kw == "LOOP" || kw == "THEN")
    ensures WordAt(t + k, kw) <==> WordAt(t, kw)
  {
    if WordAt(t + k, kw) { WordSealed(t, k, kw); }
    assert forall i :: 0 <= i < |t| ==> (t + k)[i] == t[i];
    assert (t + k)[|t|] == ';';
  }

  // One step of both scans
  lemma NetStep(lb: bool, t: string, k: string, d: int)
    requires t != "" && k != "" && k[0] == ';'
    ensures var m := MarkAt(lb, t);
            if m.Plain? && t[0] == ';' && d == 0 then Net(lb, t, d).None? && CutRest(lb, t + k, d) == t + k
            else
              var lb', rest, e := m.Plain? && !IsWord(t[0]), t[m.Len()..], d + m.Delta();
              Net(lb, t, d) == Net(lb', rest, e) && CutRest(lb, t + k, d) == CutRest(lb', rest + k, e)
  {
    hide MarkAt;
    MarkSealed(lb, t, k);
    var m := MarkAt(lb, t);
    assert (t + k)[m.Len()..] == t[m.Len()..] + k && (t + k)[0] == t[0];
  }

  lemma {:induction false} NetCut(lb: bool, t: string, k: string, d: int)
    requires k != "" && k[0] == ';'
    ensures match Net(lb, t, d)
            case None => |CutRest(lb, t + k, d)| > |k|
            case Some(e) => CutRest(lb, t + k, d) == CutRest(true, k, e)
    decreases |t|
  {
    hide MarkAt, CutRest, Net;
    if t == "" {
      assert t + k == k;
      NetNothing(lb, d);
      SemiEither(k, d);
    } else {
      NetStep(lb, t, k, d);
      var m := MarkAt(lb, t);
      NetCut(m.Plain? && !IsWord(t[0]), t[m.Len()..], k, d + m.Delta());
    }
  }

  lemma NetNothing(lb: bool, d: int)
    ensures Net(lb, "", d) == Some(d)
  {
  }

  // A text is cut off as one statement, whatever follows its `;`, exactly when no `;` in it stands outside its brackets and
  // its brackets are closed, with keywords and semicolons inside quotes counted like all others.
  lemma CutsWhole(t: string, k: string)
    requires k != "" && k[0] == ';'
    ensures CutRest(true, t + k, 0) == k <==> Net(true, t, 0) == Some(0)
  {
    hide CutRest, Net;
    NetCut(true, t, k, 0);
    match Net(true, t, 0)
    case None =>
    case Some(e) => if e == 0 { CutStop(k); } else { CutOn(k, e); }
  }

  lemma CutOn(k: string, e: int)
    requires k != "" && k[0] == ';' && e != 0
    ensures |CutRest(true, k, e)| < |k|
  {
    NoKeyword(true, k);
    assert MarkAt(true, k).Plain?;
  }

  // A quoted semicolon cuts, and a quoted LOOP opens a bracket.
  lemma QuotesCount(head: string, k: string)
    requires Clean(true, head) && k != "" && k[0] == ';'
    ensures CutRest(true, head + ("';'" + k), 0) == ";'" + k
    ensures CutRest(true, head + ("'LOOP'" + k), 0) == CutRest(true, k, 1)
  {
    hide CutRest;
    var a, b := ";'" + k, "LOOP" + ("'" + k);
    assert "';'" + k == "'" + a && "'LOOP'" + k == "'" + b;
    CutClean(head, "'" + a, 0);
    CutQuote(After(true, head), a, 0);
    CutStop(a);
    CutClean(head, "'" + b, 0);
    CutQuote(After(true, head), b, 0);
    SpellsItself();
    CutLoopKw("LOOP", "'" + k, 0);
    CutQuote(false, k, 1);
  }

  lemma SpellsItself()
    ensures Spells("LOOP", "LOOP")
  {
  }

  lemma CutQuote(lb: bool, k: string, d: int)
    ensures CutRest(lb, "'" + k, d) == CutRest(true, k, d)
  {
    assert ("'" + k)[1..] == k;
    NoKeyword(lb, "'" + k);
    CutStep(lb, "'" + k, d);
  }

  // ------------------------------------------------------------------------------------------
  // Recognising statements

  // White space strictly inside a text survives trimming, so the text is no label.
  lemma NoLabelInside(s: string, i: nat, j: nat, k: nat)
    requires i < j < k < |s| && !IsSpace(s[i]) && IsSpace(s[j]) && !IsSpace(s[k])
    ensures !AllWord(Trim(s))
  {
    var w1, w2 := TrimSplit(s);
    InMiddle(w1, Trim(s), w2, i);
    InMiddle(w1, Trim(s), w2, k);
    assert Trim(s)[j - |w1|] == s[j];
  }

  lemma NoLabel(stmt: string, i: nat, j: nat, k: nat)
    requires i < j < k < |stmt| && !IsSpace(stmt[i]) && IsSpace(stmt[j]) && !IsSpace(stmt[k])
    requires forall m :: 0 <= m <= k ==> stmt[m] != ':'
    ensures SplitLabel(stmt) == ("", stmt)
  {
    var c := Find(stmt, ':');
    if c < |stmt| { NoLabelInside(stmt[..c], i, j, k); }
  }

  lemma NotPrefixed(stmt: string, kw: string, i: nat)
    requires i < |kw| && i < |stmt| && Upper(stmt[i]) != kw[i]
    ensures !Prefixed(stmt, kw)
  {
  }

  predicate Simple(stmt: string) {
    Prefixed(stmt, "LEAVE ") || Prefixed(stmt, "DECLARE ") || Prefixed(stmt, "SET ") || Prefixed(stmt, "OPEN ")
    || Prefixed(stmt, "CLOSE ") || Prefixed(stmt, "FETCH ")
  }

  lemma ClassifyAtom(text: string, y: Style)
    requires Printable(Atom(text, y))
    ensures Classify(text) == StepForm
  {
    if Prefixed(text, "IF ") { IfIsWord(text); }
  }

  lemma IfIsWord(text: string)
    requires Prefixed(text, "IF ")
    ensures text != "" && Keyword(true, text)
  {
    assert Upper(text[2]) == ' ';
  }

  lemma ClassifyLeave(y: Style, target: string)
    requires Spelled(y) && Fragment(target)
    ensures Classify(y.leave + (" " + (y.pad + (target + "")))) == LeaveForm(target)
  {
    hide TrimLeft, TrimRight;
    var t := y.leave + (" " + (y.pad + (target + "")));
    AtToken(y.leave, "LEAVE", " " + (y.pad + target));
    assert t == (y.leave + " ") + (y.pad + target) && t[6..] == y.pad + target + "";
    TrimPad(y.pad, target, "");
  }

  // Nothing that starts with L, O, O is one of the simple statements.
  lemma LoopNotSimple(t: string)
    requires |t| > 1 && Upper(t[0]) == 'L' && Upper(t[1]) == 'O'
    ensures !Simple(t)
  {
    NotPrefixed(t, "LEAVE ", 1); NotPrefixed(t, "DECLARE ", 0); NotPrefixed(t, "SET ", 0);
    NotPrefixed(t, "OPEN ", 0); NotPrefixed(t, "CLOSE ", 0); NotPrefixed(t, "FETCH ", 0);
  }

  lemma TagNotPrefixed(tag: string, k: string, kw: string)
    requires AllWord(tag) && 0 < |kw| && kw[|kw| - 1] == ' ' && forall i :: 0 <= i < |kw| - 1 ==> IsAlpha(kw[i])
    ensures !Prefixed(tag + (":" + k), kw)
  {
    var t := tag + (":" + k);
    if |tag| < |kw| - 1 { NotPrefixed(t, kw, |tag|); }
    else if |tag| == |kw| - 1 { NotPrefixed(t, kw, |tag|); }
    else { assert IsWord(t[|kw| - 1]); NotPrefixed(t, kw, |kw| - 1); }
  }

  lemma TagNotSimple(tag: string, k: string)
    requires AllWord(tag)
    ensures !Simple(tag + (":" + k))
  {
    TagNotPrefixed(tag, k, "LEAVE "); TagNotPrefixed(tag, k, "DECLARE "); TagNotPrefixed(tag, k, "SET ");
    TagNotPrefixed(tag, k, "OPEN "); TagNotPrefixed(tag, k, "CLOSE "); TagNotPrefixed(tag, k, "FETCH ");
  }

  lemma LoopLabel(y: Style, tag: string, body: seq<Stmt>)
    requires Spelled(y) && Printable(Stmt.Loop(tag, body, y))
    ensures var t := Print(Stmt.Loop(tag, body, y), ""); !Simple(t) && SplitLabel(t) == (tag, PrintLoop(y, body, ""))
  {
    if tag == "" { BareLoop(y, body); } else { TaggedLoop(y, tag, body); }
  }

  lemma BareLoop(y: Style, body: seq<Stmt>)
    requires Spelled(y) && AllPrintable(body)
    ensures var part := PrintLoop(y, body, ""); !Simple(part) && SplitLabel(part) == ("", part)
  {
    hide TrimLeft, TrimRight, Find, Printable;
    var part := PrintLoop(y, body, "");
    LoopShape(y, body);
    ListingShape(body);
    LoopNotSimple(part);
    RegroupLoop(y.loop, y.gap, Listing(body), y.gap, y.endLoop);
    if body == [] {
      assert Listing(body) == "";
      assert y.gap + ("" + y.gap + y.endLoop) == (y.gap + y.gap) + y.endLoop;
      NoLabelLoop(y.loop, y.gap + y.gap, y.endLoop);
    } else {
      NoLabelLoop(y.loop, y.gap, Listing(body) + y.gap + y.endLoop);
    }
  }

  lemma RegroupLoop(a: string, b: string, c: string, d: string, e: string)
    ensures a + (b + c + d) + e == a + (b + (c + d + e))
  {
  }

  lemma NoLabelLoop(head: string, w: string, rest: string)
    requires AllWord(head) && head != "" && AllSpace(w) && w != "" && rest != "" && !IsSpace(rest[0]) && rest[0] != ':'
    ensures var t := head + (w + rest); SplitLabel(t) == ("", t)
  {
    hide TrimLeft, TrimRight, Find;
    var t := head + (w + rest);
    var k := |head| + |w|;
    assert forall m :: 0 <= m < |head| ==> t[m] == head[m];
    assert forall m :: |head| <= m < k ==> t[m] == w[m - |head|];
    assert t[k] == rest[0];
    NoLabel(t, 0, |head|, k);
  }

  lemma TaggedLoop(y: Style, tag: string, body: seq<Stmt>)
    requires Spelled(y) && Printable(Stmt.Loop(tag, body, y)) && tag != ""
    ensures var t := tag + (":" + (y.gap + PrintLoop(y, body, "")));
            !Simple(t) && SplitLabel(t) == (tag, PrintLoop(y, body, ""))
  {
    var part := PrintLoop(y, body, "");
    LoopShape(y, body);
    TagNotSimple(tag, y.gap + part);
    TagLabel(tag, y.gap, part);
  }

  lemma TagLabel(tag: string, w: string, part: string)
    requires AllWord(tag) && 0 < |tag| < 64 && AllSpace(w) && Trimmed(part)
    ensures SplitLabel(tag + (":" + (w + part))) == (tag, part)
  {
    hide TrimLeft, TrimRight, Find, Trim;
    var t := tag + (":" + (w + part));
    FindPart(tag, ':', ":" + (w + part));
    assert "" + tag + "" == tag && w + part + "" == w + part;
    TrimPad("", tag, "");
    TrimPad(w, part, "");
    assert t[..|tag|] == tag && t[|tag| + 1..] == w + part;
  }

  // The last END LOOP is the one the printer closed the loop with.
  lemma LoopInner(y: Style, body: seq<Stmt>)
    requires Spelled(y) && AllPrintable(body)
    ensures var part := PrintLoop(y, body, "");
            12 <= |part| && At(part, "LOOP") && LastAt(part, "END LOOP", |part|) == Some(|part| - 8)
            && Trim(part[4..|part| - 8]) == Listing(body)
  {
    hide TrimLeft, TrimRight, LastAt, PrintAll;
    LoopShape(y, body);
    ListingShape(body);
    LoopCut(y.loop, y.gap, Listing(body), y.endLoop);
  }

  lemma LoopCut(head: string, w: string, inner: string, end: string)
    requires Spells(head, "LOOP") && Spells(end, "END LOOP") && AllSpace(w) && Trimmed(inner)
    ensures var part := head + (w + inner + w) + end;
            12 <= |part| && At(part, "LOOP") && LastAt(part, "END LOOP", |part|) == Some(|part| - 8)
            && Trim(part[4..|part| - 8]) == inner
  {
    hide TrimLeft, TrimRight, LastAt;
    var part := head + (w + inner + w) + end;
    var n := |part| - 8;
    assert part[4..n] == w + inner + w;
    assert forall q :: 0 <= q < 4 ==> part[q] == head[q];
    assert forall q :: n <= q < |part| ==> part[q] == end[q - n];
    LastIs(part, "END LOOP");
    TrimPad(w, inner, w);
  }

  lemma LastIs(s: string, kw: string)
    requires |kw| <= |s| && Occurs(s, |s| - |kw|, kw)
    ensures LastAt(s, kw, |s|) == Some(|s| - |kw|)
  {
    hide LastAt;
  }

  lemma ClassifyLoop(y: Style, tag: string, body: seq<Stmt>)
    requires Spelled(y) && Printable(Stmt.Loop(tag, body, y))
    ensures Classify(Print(Stmt.Loop(tag, body, y), "")) == LoopForm(tag, Listing(body))
  {
    hide TrimLeft, TrimRight, LastAt, Find, Printable, PrintAll, Print, PrintLoop, SplitLabel, ThenRest, ElseEnd, Spelled;
    LoopBody(y, tag, body);
    LoopLabel(y, tag, body);
    LoopInner(y, body);
  }

  lemma LoopBody(y: Style, tag: string, body: seq<Stmt>)
    requires Printable(Stmt.Loop(tag, body, y))
    ensures AllPrintable(body)
  {
  }

  // ------------------------------------------------------------------------------------------
  // IF

  lemma IfStart(t: string, n: nat)
    requires 3 <= n < |t| && Upper(t[0]) == 'I' && Upper(t[1]) == 'F' && t[2] == ' ' && !IsSpace(t[n]) && t[n] != ':'
    requires forall m :: 3 <= m < n ==> IsSpace(t[m])
    ensures !Simple(t) && SplitLabel(t) == ("", t) && !At(t, "LOOP") && Prefixed(t, "IF ")
  {
    NotPrefixed(t, "LEAVE ", 0); NotPrefixed(t, "DECLARE ", 0); NotPrefixed(t, "SET ", 0);
    NotPrefixed(t, "OPEN ", 0); NotPrefixed(t, "CLOSE ", 0); NotPrefixed(t, "FETCH ", 0);
    NotAt(t, "LOOP", 0);
    NoLabel(t, 0, 2, n);
  }

  lemma IfNotLoop(p: Stmt)
    requires p.If? && Printable(p)
    ensures var t := Print(p, ""); |t| > 3 && t[3..] == IfRest(p) && Classify(t) == ClassifyIf(t)
  {
    var y := p.y;
    var t := Print(p, "");
    IfShape(p);
    assert t == y.ifKw + (" " + IfRest(p));
    var n := 3 + |y.pad|;
    assert t[0] == y.ifKw[0] && t[1] == y.ifKw[1] && t[2] == ' ' && t[n] == p.cond[0];
    assert forall m :: 3 <= m < n ==> t[m] == y.pad[m - 3];
    IfStart(t, n);
  }

  lemma FindThen(y: Style, cond: string, k: string)
    requires Spelled(y) && Fragment(cond) && k != "" && !IsWord(k[0])
    ensures ThenRest(true, y.pad + (cond + (y.gap + (y.thenKw + k))), 0) == Some(y.thenKw + k)
  {
    hide Clean;
    var r := y.thenKw + k;
    AtToken(y.thenKw, "THEN", k);
    GapSeals(y, r);
    GapSilent(true, y.pad, cond + (y.gap + r));
    ThenSilent(true, y.pad, cond + (y.gap + r), 0);
    AfterPad(y.pad);
    CleanSilent(true, cond, y.gap + r);
    ThenSilent(true, cond, y.gap + r, 0);
    GapSilent(After(true, cond), y.gap, r);
    ThenSilent(After(true, cond), y.gap, r, 0);
  }

  // What follows THEN, trimmed: the printed body, if any, and the tail
  function Before(y: Style, thn: seq<Stmt>): string {
    if thn == [] then "" else Listing(thn) + y.gap
  }

  lemma BeforeTrim(y: Style, thn: seq<Stmt>, tail: string)
    requires Spelled(y) && AllPrintable(thn) && tail != "" && Trimmed(tail)
    ensures Trim(y.gap + PrintBlock(y, thn, tail)) == Before(y, thn) + tail
    ensures Trim(Before(y, thn)) == Listing(thn)
  {
    hide TrimLeft, TrimRight;
    var list := Listing(thn);
    BlockShape(y, thn, tail);
    ListingShape(thn);
    assert "" + tail == tail && "" + list + y.gap == list + y.gap;
    TrimPad("", list, y.gap);
    if thn == [] {
      assert y.gap + PrintBlock(y, thn, tail) == (y.gap + y.gap) + tail + "";
      TrimPad(y.gap + y.gap, tail, "");
    } else {
      assert y.gap + PrintBlock(y, thn, tail) == y.gap + (list + y.gap + tail) + "";
      TrimPad(y.gap, list + y.gap + tail, "");
    }
  }

  lemma BeforeScan(y: Style, thn: seq<Stmt>, tail: string)
    requires Spelled(y) && AllPrintable(thn)
    ensures ElseEnd(true, Before(y, thn) + tail, 0, None) == ElseEnd(true, tail, 0, None)
  {
    if thn == [] {
      assert "" + tail == tail;
    } else {
      BlockShape(y, thn, tail);
      assert PrintBlock(y, thn, tail) == Before(y, thn) + tail;
      ElseBlock(y, thn, tail, 0, None);
    }
  }

  lemma FindElse(y: Style, hasElse: bool, els: seq<Stmt>)
    requires Spelled(y) && (hasElse ==> AllPrintable(els))
    ensures var tail := PrintTail(y, hasElse, els, "");
            ElseEnd(true, tail, 0, None) == (if hasElse then Some(tail) else None, Some(y.endIf))
  {
    assert y.endIf + "" == y.endIf;
    AtToken(y.endIf, "END IF", "");
    if hasElse {
      var block := PrintBlock(y, els, y.endIf);
      var tail := Some(PrintTail(y, hasElse, els, ""));
      ElseElse(y.elseKw, y.gap + block, None);
      ElseGap(y, false, block, 0, tail);
      ElseBlock(y, els, y.endIf, 0, tail);
      ElseEndIf(y.endIf, "", 0, tail);
    } else {
      ElseEndIf(y.endIf, "", 0, None);
    }
  }

  lemma ElseCut(y: Style, els: seq<Stmt>)
    requires Spelled(y) && AllPrintable(els)
    ensures var tail := PrintTail(y, true, els, "");
            10 <= |tail| && Trim(tail[4..|tail| - 6]) == Listing(els)
  {
    var tail := PrintTail(y, true, els, "");
    AtToken(y.elseKw, "ELSE", "");
    AtToken(y.endIf, "END IF", "");
    TailShape(y, true, els);
    ListingShape(els);
    assert tail == y.elseKw + (y.gap + Listing(els) + y.gap) + y.endIf;
    assert tail[4..|tail| - 6] == y.gap + Listing(els) + y.gap;
    TrimPad(y.gap, Listing(els), y.gap);
  }

  // The pieces that the scans find
  predicate ThenPart(stmt: string, t: string, cond: string) {
    |stmt| > 3 && ThenRest(true, stmt[3..], 0) == Some(t) && Trim(stmt[3..|stmt| - |t|]) == cond
  }

  predicate BodyPart(t: string, before: string, tail: string, thn: string) {
    4 <= |t| && Trim(t[4..]) == before + tail && Trim(before) == thn
  }

  predicate EndPart(before: string, tail: string, hasElse: bool, endIf: string, els: string) {
    && ElseEnd(true, before + tail, 0, None) == (if hasElse then Some(tail) else None, Some(endIf))
    && if hasElse then |endIf| + 4 <= |tail| && Trim(tail[4..|tail| - |endIf|]) == els else tail == endIf && els == ""
  }

  lemma IfFormOf(stmt: string, t: string, cond: string, before: string, tail: string, hasElse: bool, endIf: string,
                 thn: string, els: string)
    requires ThenPart(stmt, t, cond) && BodyPart(t, before, tail, thn) && EndPart(before, tail, hasElse, endIf, els)
    ensures ClassifyIf(stmt) == IfForm(cond, thn, els)
  {
    hide ThenRest, ElseEnd, TrimLeft, TrimRight;
    var after := before + tail;
    assert after[..|before|] == before;
    if hasElse { assert after[|before| + 4..|after| - |endIf|] == tail[4..|tail| - |endIf|]; }
  }

  lemma TailPieces(y: Style, hasElse: bool, els: seq<Stmt>)
    requires Spelled(y) && (hasElse ==> AllPrintable(els))
    ensures var tail := PrintTail(y, hasElse, els, "");
            if hasElse then |y.endIf| + 4 <= |tail| && Trim(tail[4..|tail| - |y.endIf|]) == Listing(els)
            else tail == y.endIf
  {
    AtToken(y.endIf, "END IF", "");
    if hasElse { ElseCut(y, els); } else { assert y.endIf + "" == y.endIf; }
  }

  // The THEN of a printed IF, and the text from there on
  function FromThen(p: Stmt): string
    requires p.If?
  {
    p.y.thenKw + (p.y.gap + PrintBlock(p.y, p.thn, PrintTail(p.y, p.hasElse, p.els, "")))
  }

  lemma ThenOf(p: Stmt)
    requires p.If? && Printable(p)
    ensures ThenPart(Print(p, ""), FromThen(p), p.cond)
  {
    var y := p.y;
    hide ThenRest, TrimLeft, TrimRight;
    IfNotLoop(p);
    ThenIn(y, Print(p, ""), p.cond, y.gap + PrintBlock(y, p.thn, PrintTail(y, p.hasElse, p.els, "")));
  }

  lemma ThenIn(y: Style, stmt: string, cond: string, k: string)
    requires Spelled(y) && Fragment(cond) && k != "" && !IsWord(k[0])
    requires |stmt| > 3 && stmt[3..] == y.pad + (cond + (y.gap + (y.thenKw + k)))
    ensures ThenPart(stmt, y.thenKw + k, cond)
  {
    hide ThenRest, TrimLeft, TrimRight;
    var t := y.thenKw + k;
    FindThen(y, cond, k);
    assert stmt[3..|stmt| - |t|] == stmt[3..][..|y.pad + cond + y.gap|] == y.pad + cond + y.gap;
    TrimPad(y.pad, cond, y.gap);
  }

  lemma BodyOf(p: Stmt)
    requires p.If? && Printable(p)
    ensures BodyPart(FromThen(p), Before(p.y, p.thn), PrintTail(p.y, p.hasElse, p.els, ""), Listing(p.thn))
  {
    var y := p.y;
    TailEnds(y, p.hasElse, p.els);
    BeforeTrim(y, p.thn, PrintTail(y, p.hasElse, p.els, ""));
    AtToken(y.thenKw, "THEN", y.gap + PrintBlock(y, p.thn, PrintTail(y, p.hasElse, p.els, "")));
  }

  function ElseText(p: Stmt): string
    requires p.If?
  {
    if p.hasElse then Listing(p.els) else ""
  }

  lemma EndOf(p: Stmt)
    requires p.If? && Printable(p)
    ensures EndPart(Before(p.y, p.thn), PrintTail(p.y, p.hasElse, p.els, ""), p.hasElse, p.y.endIf, ElseText(p))
  {
    var y := p.y;
    hide ElseEnd, TrimLeft, TrimRight;
    BeforeScan(y, p.thn, PrintTail(y, p.hasElse, p.els, ""));
    FindElse(y, p.hasElse, p.els);
    TailPieces(y, p.hasElse, p.els);
  }

  lemma ClassifyPrintedIf(p: Stmt)
    requires p.If? && Printable(p)
    ensures Classify(Print(p, "")) == IfForm(p.cond, Listing(p.thn), ElseText(p))
  {
    var y := p.y;
    IfNotLoop(p);
    ThenOf(p);
    BodyOf(p);
    EndOf(p);
    IfFormOf(Print(p, ""), FromThen(p), p.cond, Before(y, p.thn), PrintTail(y, p.hasElse, p.els, ""), p.hasElse,
             y.endIf, Listing(p.thn), ElseText(p));
  }

  // ------------------------------------------------------------------------------------------
  // Refinement

  // What the interpreter sees in a printed statement
  function Seen(p: Stmt): Form {
    match p
    case Atom(text, _) => StepForm
    case Leave(target, _) => LeaveForm(target)
    case Loop(tag, body, _) => LoopForm(tag, Listing(body))
    case If(cond, thn, _, _, _) => IfForm(cond, Listing(thn), ElseText(p))
  }

  // Each bracket is matched to its own construct.
  lemma ClassifyPrinted(p: Stmt)
    requires Printable(p)
    ensures Classify(Print(p, "")) == Seen(p)
  {
    var y := p.y;
    match p
    case Atom(text, _) => assert text + "" == text; ClassifyAtom(text, p.y);
    case Leave(target, _) => ClassifyLeave(y, target);
    case Loop(tag, body, _) => ClassifyLoop(y, tag, body);
    case If(_, _, _, _, _) => ClassifyPrintedIf(p);
  }

  lemma {:induction false} RunsStmt<S>(env: Env<S>, p: Stmt, s: S)
    requires Printable(p)
    ensures RunStmt(env, Print(p, ""), s) == Exec(env, p, s)
    decreases p, 1, 0
  {
    hide TrimLeft, TrimRight, Classify, PrintAll;
    TextTrimmed(p);
    ClassifyPrinted(p);
    match p
    case Atom(text, _) => assert text + "" == text;
    case Leave(target, _) =>
    case Loop(tag, body, _) => RunsLoop(env, tag, body, ROUNDS, s);
    case If(_, _, _, _, _) => RunsIf(env, p, s);
  }

  lemma RunsIf<S>(env: Env<S>, p: Stmt, s: S)
    requires p.If? && Printable(p)
    requires Trim(Print(p, "")) == Print(p, "") != "" && Classify(Print(p, "")) == Seen(p)
    ensures RunStmt(env, Print(p, ""), s) == Exec(env, p, s)
    decreases p, 0, 0
  {
    hide TrimLeft, TrimRight, Classify, Print, PrintAll;
    RunsBody(env, p.thn, s);
    if p.hasElse { RunsElse(env, p.els, s); }
  }

  lemma TextTrimmed(p: Stmt)
    requires Printable(p)
    ensures Print(p, "") != "" && Trim(Print(p, "")) == Print(p, "")
  {
    var t := Print(p, "");
    TextShape(p);
    assert "" + t + "" == t;
    TrimPad("", t, "");
  }

  lemma RunsElse<S>(env: Env<S>, els: seq<Stmt>, s: S)
    requires AllPrintable(els)
    ensures ExecAll(env, els, s) == if Listing(els) != "" then RunBody(env, Listing(els), s) else (s, "")
    decreases els, 1, 0
  {
    ListingShape(els);
    RunsBody(env, els, s);
  }

  // The theorem: the printed text of a program runs as the program means.
  lemma {:induction false} RunsBody<S>(env: Env<S>, ps: seq<Stmt>, s: S)
    requires AllPrintable(ps)
    ensures RunBody(env, Listing(ps), s) == ExecAll(env, ps, s)
    decreases ps, 0, |ps| + 1
  {
    SplitListing(ps, "");
    assert "" + Listing(ps) == Listing(ps);
    RunsAll(env, |Listing(ps)|, ps, s);
  }

  lemma {:induction false} RunsAll<S>(env: Env<S>, bound: nat, ps: seq<Stmt>, s: S)
    requires AllPrintable(ps)
    requires forall k :: 0 <= k < |ps| ==> |Texts(ps)[k]| <= bound
    ensures RunAll(env, bound, Texts(ps), s) == ExecAll(env, ps, s)
    decreases ps, 0, |ps|
  {
    if ps != [] {
      RunsStmt(env, ps[0], s);
      assert Texts(ps)[1..] == Texts(ps[1..]);
      RunsAll(env, bound, ps[1..], Exec(env, ps[0], s).0);
    }
  }

  lemma {:induction false} RunsLoop<S>(env: Env<S>, tag: string, body: seq<Stmt>, rounds: nat, s: S)
    requires AllPrintable(body)
    ensures RunLoop(env, tag, Listing(body), rounds, s) == ExecLoop(env, tag, body, rounds, s)
    decreases body, 1, rounds
  {
    hide RunBody, ExecAll, PrintAll, AllPrintable;
    if rounds > 0 {
      RunsBody(env, body, s);
      RunsLoop(env, tag, body, rounds - 1, ExecAll(env, body, s).0);
    }
  }
}
