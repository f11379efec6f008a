/** A procedure passes the statement splitter in one piece: the semicolons of its body stand inside BEGIN...END, and its
    END IF and END LOOP do not close that block. */
module ProcBlocks {
  import opened Text
  import opened ProcProgram
  import ProcText
  import ProcSkip
  import opened Splitter = StatementSplitter
  import Tokens = SplitterTokens

  // ------------------------------------------------------------------------------------------
  // Texts without quotes, comment marks, BEGIN and END

  predicate WholeWord(t: string, i: nat, kw: string)
    requires i <= |t|
  {
    WbLeft(t, i) && Reads(t, i, kw) && WbRight(t, i, |kw|)
  }

  predicate CalmAt(t: string, i: nat)
    requires i < |t|
  {
    && t[i] != '\'' && !(i + 1 < |t| && t[i] == '-' && t[i + 1] == '-') && !(i + 1 < |t| && t[i] == '/' && t[i + 1] == '*')
    && !WholeWord(t, i, "BEGIN") && !WholeWord(t, i, "END")
  }

  predicate Calm(t: string) { forall i :: 0 <= i < |t| ==> CalmAt(t, i) }

  predicate CalmStmt(p: Stmt)
    decreases p
  {
    match p
    case Atom(text, _) => Calm(text)
    case Leave(target, _) => Calm(target)
    case Loop(tag, body, _) => Calm(tag) && forall q <- body :: CalmStmt(q)
    case If(cond, thn, hasElse, els, _) =>
      Calm(cond) && (forall q <- thn :: CalmStmt(q)) && (hasElse ==> forall q <- els :: CalmStmt(q))
  }

  predicate AllCalm(ps: seq<Stmt>) { forall q <- ps :: CalmStmt(q) }

  // What follows a text and leaves its last character as it is
  predicate Edge(k: string) { k != "" && !IsWord(k[0]) && k[0] != '-' && k[0] != '*' }

  // The scanner inside d blocks
  function Left(d: nat, k: string): string { Rest(Tokens.In(d, true), k) }

  // ------------------------------------------------------------------------------------------
  // The scanner on such texts

  lemma CalmStep(d: nat, t: string, i: nat, k: string)
    requires i < |t| && CalmAt(t, i) && Edge(k) && (d == 0 ==> t[i] != ';')
    ensures Rest(Tokens.In(d, WbLeft(t, i)), t[i..] + k) == Rest(Tokens.In(d, WbLeft(t, i + 1)), t[i + 1..] + k)
  {
    hide Rest;
    var st, x := Tokens.In(d, WbLeft(t, i)), t[i..] + k;
    assert x[0] == t[i] && x[1..] == t[i + 1..] + k;
    assert |x| > 1 ==> x[1] == if i + 1 < |t| then t[i + 1] else k[0];
    NoWord(t, i, k, "BEGIN");
    NoWord(t, i, k, "END");
    hide WordAt;
    Tokens.OneStep(st, x);
  }

  lemma NoWord(t: string, i: nat, k: string, kw: string)
    requires i < |t| && !WholeWord(t, i, kw) && Edge(k) && forall j :: 0 <= j < |kw| ==> IsAlpha(kw[j])
    ensures !(WbLeft(t, i) && WordAt(t[i..] + k, kw))
  {
    var x := t[i..] + k;
    var n := |t| - i;
    assert forall j :: 0 <= j < n ==> x[j] == t[i + j];
    assert x[n] == k[0] && Upper(k[0]) == k[0];
    if n < |kw| {
      assert Upper(x[n]) != kw[n];
    } else {
      ReadsAt(t, i, kw);
      if |kw| < n { assert x[|kw|] == t[i + |kw|]; }
      assert At(x, kw) ==> At(t[i..], kw);
    }
  }

  lemma {:induction false} ScanFrom(d: nat, t: string, i: nat, k: string)
    requires i <= |t| && Calm(t) && Edge(k) && (d == 0 ==> ';' !in t)
    ensures Rest(Tokens.In(d, WbLeft(t, i)), t[i..] + k) == Left(d, k)
    decreases |t| - i
  {
    hide Rest, CalmAt;
    if i == |t| {
      assert t[i..] + k == k;
      Tokens.LbFree(d, k);
    } else {
      CalmStep(d, t, i, k);
      ScanFrom(d, t, i + 1, k);
    }
  }

  lemma ScanCalm(d: nat, t: string, k: string)
    requires Calm(t) && Edge(k) && (d == 0 ==> ';' !in t)
    ensures Left(d, t + k) == Left(d, k)
  {
    hide Rest, Calm;
    assert t[0..] == t;
    ScanFrom(d, t, 0, k);
  }

  lemma {:induction false} ScanSpaces(d: nat, w: string, k: string)
    requires AllSpace(w)
    ensures Left(d, w + k) == Left(d, k)
    decreases |w|
  {
    hide Rest;
    if w == "" {
      assert w + k == k;
    } else {
      assert w + k == [w[0]] + (w[1..] + k);
      Tokens.ScanSign(d, w[0], w[1..] + k);
      ScanSpaces(d, w[1..], k);
    }
  }

  lemma ScanChar(d: nat, c: char, k: string)
    requires (c == ' ' || c == ':' || c == ';') && d > 0
    ensures Left(d, [c] + k) == Left(d, k)
  {
    hide Rest;
    Tokens.ScanSign(d, c, k);
  }

  // A keyword other than BEGIN and END
  lemma ScanKw(d: nat, w: string, kw: string, k: string)
    requires Spells(w, kw) && kw in ["LEAVE", "LOOP", "IF", "THEN", "ELSE"] && Edge(k)
    ensures Left(d, w + k) == Left(d, k)
  {
    hide Rest;
    ProcSkip.UpperWord(w, kw);
    PuOf(w, kw);
    Tokens.ScanWord(d, w, k);
  }

  lemma PuOf(w: string, kw: string)
    requires Spells(w, kw)
    ensures Pu(w) == kw
  {
  }

  // END IF and END LOOP close no block.
  lemma ScanInnerEnd(d: nat, w: string, kw: string, k: string)
    requires d > 0 && Edge(k) && ((kw == "IF" && Spells(w, "END IF")) || (kw == "LOOP" && Spells(w, "END LOOP")))
    ensures Left(d, w + k) == Left(d, k)
  {
    hide Rest, NextWord, Tokens.Continues;
    var e, v := w[..3], w[4..];
    EndParts(w, kw);
    assert w + k == e + (" " + (v + k));
    ProcSkip.UpperWord(v, kw);
    PuOf(e, "END");
    PuOf(v, kw);
    Tokens.LettersPeek(v, k);
    BlankPeek(v + k);
    ContinuesKw(v, kw);
    Tokens.ScanEnd(d, e, " " + (v + k));
    ScanChar(d, ' ', v + k);
    Tokens.ScanWord(d, v, k);
  }

  lemma EndParts(w: string, kw: string)
    requires (kw == "IF" && Spells(w, "END IF")) || (kw == "LOOP" && Spells(w, "END LOOP"))
    ensures |w| == 4 + |kw| && w == w[..3] + (" " + w[4..]) && Spells(w[..3], "END") && Spells(w[4..], kw)
  {
    var full := "END " + kw;
    assert full == if kw == "IF" then "END IF" else "END LOOP";
    assert Upper(w[3]) == full[3] == ' ';
    forall i | 0 <= i < |kw| ensures Upper(w[4..][i]) == kw[i] { assert Upper(w[4 + i]) == full[4 + i]; }
    forall i | 0 <= i < 3 ensures Upper(w[..3][i]) == "END"[i] { assert Upper(w[i]) == full[i]; }
  }

  lemma BlankPeek(k: string)
    ensures NextWord(" " + k) == NextWord(k)
  {
    assert (" " + k)[1..] == k;
  }

  lemma ContinuesKw(v: string, kw: string)
    requires Spells(v, kw) && (kw == "IF" || kw == "LOOP")
    ensures Tokens.Continues(v)
  {
  }

  // ------------------------------------------------------------------------------------------
  // The scanner on a printed program, inside at least one block

  lemma GapEdge(w: string, k: string)
    requires w != "" && AllSpace(w)
    ensures Edge(w + k)
  {
  }

  lemma ScanLeave(y: Style, target: string, k: string, d: nat)
    requires Spelled(y) && Calm(target) && Edge(k) && d > 0
    ensures Left(d, y.leave + (" " + (y.pad + (target + k)))) == Left(d, k)
  {
    hide Left, Calm;
    ScanKw(d, y.leave, "LEAVE", " " + (y.pad + (target + k)));
    ScanChar(d, ' ', y.pad + (target + k));
    ScanSpaces(d, y.pad, target + k);
    ScanCalm(d, target, k);
  }

  lemma ScanIfHead(y: Style, cond: string, block: string, d: nat)
    requires Spelled(y) && Calm(cond) && d > 0
    ensures Left(d, y.ifKw + (" " + (y.pad + (cond + (y.gap + (y.thenKw + (y.gap + block))))))) == Left(d, block)
  {
    hide Left, Calm;
    var r := y.thenKw + (y.gap + block);
    ScanKw(d, y.ifKw, "IF", " " + (y.pad + (cond + (y.gap + r))));
    ScanChar(d, ' ', y.pad + (cond + (y.gap + r)));
    ScanSpaces(d, y.pad, cond + (y.gap + r));
    GapEdge(y.gap, r);
    ScanCalm(d, cond, y.gap + r);
    ScanSpaces(d, y.gap, r);
    GapEdge(y.gap, block);
    ScanKw(d, y.thenKw, "THEN", y.gap + block);
    ScanSpaces(d, y.gap, block);
  }

  lemma {:induction false} ScanPrint(p: Stmt, k: string, d: nat)
    requires Printable(p) && CalmStmt(p) && Edge(k) && d > 0
    ensures Left(d, Print(p, k)) == Left(d, k)
    decreases p, 1
  {
    hide Left, Calm, Spelled, Edge;
    match p
    case Atom(text, _) => ScanCalm(d, text, k);
    case Leave(target, y) => ScanLeave(y, target, k, d);
    case Loop(tag, body, y) =>
      ScanLoop(y, body, k, d);
      if tag != "" { ScanTag(y, tag, PrintLoop(y, body, k), d); }
    case If(cond, thn, hasElse, els, y) =>
      var tail := PrintTail(y, hasElse, els, k);
      ScanIfHead(y, cond, PrintBlock(y, thn, tail), d);
      ScanBlock(y, thn, tail, d);
      ScanTail(y, hasElse, els, k, d);
  }

  lemma ScanTail(y: Style, hasElse: bool, els: seq<Stmt>, k: string, d: nat)
    requires Spelled(y) && (hasElse ==> AllPrintable(els) && AllCalm(els)) && Edge(k) && d > 0
    ensures Left(d, PrintTail(y, hasElse, els, k)) == Left(d, k)
    decreases els, 3
  {
    hide Left;
    if hasElse { ScanElse(y, els, y.endIf + k, d); }
    ScanInnerEnd(d, y.endIf, "IF", k);
  }

  lemma ScanTag(y: Style, tag: string, k: string, d: nat)
    requires Spelled(y) && Calm(tag) && d > 0
    ensures Left(d, tag + (":" + (y.gap + k))) == Left(d, k)
  {
    hide Left, Calm;
    ScanCalm(d, tag, ":" + (y.gap + k));
    ScanChar(d, ':', y.gap + k);
    ScanSpaces(d, y.gap, k);
  }

  lemma ScanElse(y: Style, els: seq<Stmt>, k: string, d: nat)
    requires Spelled(y) && AllPrintable(els) && AllCalm(els) && d > 0
    ensures Left(d, PrintElse(y, els, k)) == Left(d, k)
    decreases els, 2
  {
    hide Left;
    var block := PrintBlock(y, els, k);
    GapEdge(y.gap, block);
    ScanKw(d, y.elseKw, "ELSE", y.gap + block);
    ScanSpaces(d, y.gap, block);
    ScanBlock(y, els, k, d);
  }

  lemma ScanLoop(y: Style, body: seq<Stmt>, k: string, d: nat)
    requires Spelled(y) && AllPrintable(body) && AllCalm(body) && Edge(k) && d > 0
    ensures Left(d, PrintLoop(y, body, k)) == Left(d, k)
    decreases body, 2
  {
    hide Left;
    var block := PrintBlock(y, body, y.endLoop + k);
    GapEdge(y.gap, block);
    ScanKw(d, y.loop, "LOOP", y.gap + block);
    ScanSpaces(d, y.gap, block);
    ScanBlock(y, body, y.endLoop + k, d);
    ScanInnerEnd(d, y.endLoop, "LOOP", k);
  }

  lemma ScanBlock(y: Style, ps: seq<Stmt>, k: string, d: nat)
    requires Spelled(y) && AllPrintable(ps) && AllCalm(ps) && d > 0
    ensures Left(d, PrintBlock(y, ps, k)) == Left(d, k)
    decreases ps, 1
  {
    hide Left;
    ScanAll(ps, y.gap + k, d);
    ScanSpaces(d, y.gap, k);
  }

  lemma {:induction false} ScanAll(ps: seq<Stmt>, k: string, d: nat)
    requires AllPrintable(ps) && AllCalm(ps) && d > 0
    ensures Left(d, PrintAll(ps, k)) == Left(d, k)
    decreases ps, 0
  {
    hide Left;
    if ps != [] {
      assert Printable(ps[0]) && CalmStmt(ps[0]);
      var y := ps[0].y;
      var rest := if |ps| == 1 then k else y.gap + PrintAll(ps[1..], k);
      ScanPrint(ps[0], ";" + rest, d);
      ScanChar(d, ';', rest);
      ScanAll(ps[1..], k, d);
      if |ps| > 1 { ScanSpaces(d, y.gap, PrintAll(ps[1..], k)); }
    }
  }

  // ------------------------------------------------------------------------------------------
  // The block

  // What may stand in front of BEGIN: a text without a semicolon that ends outside a word
  predicate Head(head: string) {
    Calm(head) && ';' !in head && (head != "" ==> !IsSpace(head[0]) && !IsWord(head[|head| - 1]))
  }

  predicate BeginEnd(b: string, g1: string, g2: string, e: string) {
    Pu(b) == "BEGIN" && Pu(e) == "END" && AllSpace(g1) && g1 != "" && AllSpace(g2)
  }

  function Block(head: string, b: string, g1: string, ps: seq<Stmt>, g2: string, e: string): string {
    head + (b + (g1 + PrintAll(ps, g2 + e)))
  }

  lemma HeadScanned(head: string, b: string, k: string)
    requires Head(head) && Pu(b) == "BEGIN" && (k == "" || !IsWord(k[0]))
    ensures Rest(FRESH, head + (b + k)) == Left(1, k)
  {
    hide Rest, Calm;
    Tokens.ScanBegin(0, b, k);
    if head == "" {
      assert head + (b + k) == b + k;
    } else {
      var n := |head| - 1;
      Tokens.SpelledWord(b, "BEGIN");
      HeadFrom(head, 0, b + k);
      assert head[0..] == head;
    }
  }

  // In front of a letter a text without BEGIN, END and a word at its end is scanned in the same way.
  lemma {:induction false} HeadFrom(t: string, i: nat, k: string)
    requires t != "" && i <= |t| && Calm(t) && ';' !in t && !IsWord(t[|t| - 1]) && k != "" && IsWord(k[0])
    ensures Rest(Tokens.In(0, WbLeft(t, i)), t[i..] + k) == Left(0, k)
    decreases |t| - i
  {
    hide Rest, CalmAt;
    if i == |t| {
      assert t[i..] + k == k;
    } else {
      HeadStep(t, i, k);
      HeadFrom(t, i + 1, k);
    }
  }

  lemma HeadStep(t: string, i: nat, k: string)
    requires i < |t| && CalmAt(t, i) && t[i] != ';' && !IsWord(t[|t| - 1]) && k != "" && IsWord(k[0])
    ensures Rest(Tokens.In(0, WbLeft(t, i)), t[i..] + k) == Rest(Tokens.In(0, WbLeft(t, i + 1)), t[i + 1..] + k)
  {
    hide Rest;
    var st, x := Tokens.In(0, WbLeft(t, i)), t[i..] + k;
    assert x[0] == t[i] && x[1..] == t[i + 1..] + k;
    assert |x| > 1 ==> x[1] == if i + 1 < |t| then t[i + 1] else k[0];
    NoHeadWord(t, i, k, "BEGIN");
    hide WordAt;
    Tokens.OneStep(st, x);
  }

  lemma NoHeadWord(t: string, i: nat, k: string, kw: string)
    requires i < |t| && !WholeWord(t, i, kw) && !IsWord(t[|t| - 1]) && forall j :: 0 <= j < |kw| ==> IsAlpha(kw[j])
    ensures !(WbLeft(t, i) && WordAt(t[i..] + k, kw))
  {
    var x := t[i..] + k;
    var n := |t| - i;
    assert forall j :: 0 <= j < n ==> x[j] == t[i + j];
    if n <= |kw| {
      if |kw| > 0 { assert Upper(x[n - 1]) != kw[n - 1]; }
    } else {
      ReadsAt(t, i, kw);
      assert x[|kw|] == t[i + |kw|];
      assert At(x, kw) ==> At(t[i..], kw);
    }
  }

  // The last END closes the block.
  lemma EndScanned(e: string, k: string)
    requires Pu(e) == "END" && Benign(k)
    ensures Left(1, e + k) == Left(0, k)
  {
    hide Rest, NextWord;
    SkipBenign(k);
    assert !ClosesOther("");
    Tokens.ScanEnd(1, e, k);
  }

  lemma BenignEnd(w: string, r: string)
    requires AllSpace(w) && (r == "" || r[0] == ';')
    ensures Left(0, w + r) == r && Benign(w + r)
  {
    hide Rest;
    BenignSpace(w, r);
    ScanSpaces(0, w, r);
    RestHere(r);
  }

  lemma RestHere(r: string)
    requires r == "" || r[0] == ';'
    ensures Left(0, r) == r
  {
  }

  lemma BlockAppend(head: string, b: string, g1: string, ps: seq<Stmt>, g2: string, e: string, k: string)
    ensures Block(head, b, g1, ps, g2, e) + k == head + (b + (g1 + PrintAll(ps, g2 + (e + k))))
  {
    ProcSkip.PrintAllAppend(ps, g2 + e);
    ProcSkip.PrintAllAppend(ps, g2 + (e + k));
    hide PrintAll;
    assert PrintAll(ps, "") + (g2 + e) + k == PrintAll(ps, "") + (g2 + (e + k));
  }

  lemma BlockScanned(head: string, b: string, g1: string, ps: seq<Stmt>, g2: string, e: string, w: string, r: string)
    requires Head(head) && BeginEnd(b, g1, g2, e) && AllPrintable(ps) && AllCalm(ps)
    requires AllSpace(w) && (r == "" || r[0] == ';')
    ensures Rest(FRESH, Block(head, b, g1, ps, g2, e) + (w + r)) == r
  {
    hide Rest, PrintAll, AllPrintable, AllCalm, Head, Benign, Left, Block;
    var k := w + r;
    BlockAppend(head, b, g1, ps, g2, e, k);
    HeadScanned(head, b, g1 + PrintAll(ps, g2 + (e + k)));
    ScanSpaces(1, g1, PrintAll(ps, g2 + (e + k)));
    ScanAll(ps, g2 + (e + k), 1);
    ScanSpaces(1, g2, e + k);
    BenignEnd(w, r);
    EndScanned(e, k);
  }

  lemma BlockTrimmed(head: string, b: string, g1: string, ps: seq<Stmt>, g2: string, e: string)
    requires Head(head) && BeginEnd(b, g1, g2, e)
    ensures var t := Block(head, b, g1, ps, g2, e); t != "" && Trimmed(t)
  {
    ProcSkip.PrintAllAppend(ps, g2 + e);
    hide PrintAll, Calm;
    var t := Block(head, b, g1, ps, g2, e);
    Tokens.SpelledWord(b, "BEGIN");
    Tokens.SpelledWord(e, "END");
    assert t == head + (b + (g1 + (PrintAll(ps, "") + (g2 + e))));
    assert t[|t| - 1] == e[2] && Upper(e[2]) == 'D' && Upper(b[0]) == 'B';
    assert t[0] == if head == "" then b[0] else head[0];
  }

  // A text with a block of a printable program is one statement; with a semicolon and anything behind it, it is the first
  // statement, and the rest is split as if it stood alone.
  lemma BlockIsOne(head: string, b: string, g1: string, ps: seq<Stmt>, g2: string, e: string, w: string, u: string)
    requires Head(head) && BeginEnd(b, g1, g2, e) && AllPrintable(ps) && AllCalm(ps) && AllSpace(w)
    ensures Output(Block(head, b, g1, ps, g2, e)) == [Block(head, b, g1, ps, g2, e)]
    ensures Output(Block(head, b, g1, ps, g2, e) + (w + (";" + u))) == [Block(head, b, g1, ps, g2, e)] + Output(u)
  {
    hide Rest, Output, Block, AllPrintable, AllCalm, Head, BeginEnd, Trimmed;
    var t := Block(head, b, g1, ps, g2, e);
    BlockTrimmed(head, b, g1, ps, g2, e);
    BlockScanned(head, b, g1, ps, g2, e, "", "");
    assert t + ("" + "") == t && t + "" + "" == t;
    OutputFirst(t, t, "", "");
    BlockScanned(head, b, g1, ps, g2, e, w, ";" + u);
    assert t + (w + (";" + u)) == t + w + (";" + u) && (";" + u)[1..] == u;
    OutputFirst(t + (w + (";" + u)), t, w, ";" + u);
  }

  // `BEGIN`, the listing, `END`; a semicolon; and one more statement: these two
  lemma ProcedureThen(ps: seq<Stmt>, u: string)
    requires AllPrintable(ps) && AllCalm(ps) && Output(u) == [u]
    ensures Output("BEGIN " + Listing(ps) + " END;" + u) == ["BEGIN " + Listing(ps) + " END", u]
    ensures Output("BEGIN " + Listing(ps) + " END") == ["BEGIN " + Listing(ps) + " END"]
  {
    hide Output, AllPrintable, AllCalm, PrintAll;
    var t := Block("", "BEGIN", " ", ps, " ", "END");
    ProcSkip.PrintAllAppend(ps, " " + "END");
    assert t == "BEGIN " + Listing(ps) + " END";
    BlockIsOne("", "BEGIN", " ", ps, " ", "END", "", u);
    assert t + ("" + (";" + u)) == "BEGIN " + Listing(ps) + " END;" + u;
  }
}
