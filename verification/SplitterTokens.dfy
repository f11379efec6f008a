/** The statement splitter told of the words, signs, literals and comments of a text: every text is one list of them, and is
    cut exactly at the semicolons outside BEGIN...END. */
module SplitterTokens {
  import opened Text
  import opened StatementSplitter

  // The last four are the comment that is closed by the star that opens it, and what the end of the text leaves open.
  datatype Token =
    | Word(w: string)
    | Sign(c: char)
    | Quoted(t: string)
    | LineNote(t: string)
    | BlockNote(t: string)
    | TinyNote
    | OpenQuoted(t: string)
    | OpenLine(t: string)
    | OpenBlock(t: string)

  // ------------------------------------------------------------------------------------------
  // Texts

  // Every quote of the value is written twice.
  function Doubled(t: string): string {
    if t == "" then "" else (if t[0] == '\'' then "''" else [t[0]]) + Doubled(t[1..])
  }

  function Print(a: Token): (r: string)
    ensures Formed(a) ==> r != ""
  {
    match a
    case Word(w) => w
    case Sign(c) => [c]
    case Quoted(t) => "'" + (Doubled(t) + "'")
    case LineNote(t) => "--" + (t + "\n")
    case BlockNote(t) => "/*" + (t + "*/")
    case TinyNote => "/*/"
    case OpenQuoted(t) => "'" + Doubled(t)
    case OpenLine(t) => "--" + t
    case OpenBlock(t) => "/*" + t
  }

  // No end of a block comment
  predicate NoEnd(t: string) { forall i :: 0 <= i < |t| - 1 ==> t[i] != '*' || t[i + 1] != '/' }

  predicate Formed(a: Token) {
    match a
    case Word(w) => w != "" && AllWord(w)
    case Sign(c) => !IsWord(c) && c != '\''
    case LineNote(t) => '\n' !in t
    case OpenLine(t) => '\n' !in t
    case BlockNote(t) => NoEnd("*" + t)
    case OpenBlock(t) => NoEnd("*" + t)
    case _ => true
  }

  // a stays as it is when a text that starts with c follows.
  predicate Apart(a: Token, c: char) {
    && (a.Word? ==> !IsWord(c)) && (a == Sign('-') ==> c != '-') && (a == Sign('/') ==> c != '*')
    && (a.Quoted? ==> c != '\'') && !a.OpenQuoted? && !a.OpenLine? && !a.OpenBlock?
  }

  predicate Valid(ts: seq<Token>) {
    ts == [] || (Formed(ts[0]) && Valid(ts[1..]) && (ts[1..] != [] ==> Apart(ts[0], Print(ts[1])[0])))
  }

  function Spell(ts: seq<Token>): string
    requires Valid(ts)
  {
    if ts == [] then "" else Print(ts[0]) + Spell(ts[1..])
  }

  // ------------------------------------------------------------------------------------------
  // Where a list of tokens is cut

  predicate Spells(w: string, kw: string) { Pu(w) == kw }

  // The word starts with IF, LOOP, WHILE or CASE and goes on with no letter.
  predicate Continues(w: string) {
    || (At(w, "IF") && (|w| > 2 ==> !IsAlpha(w[2])))
    || (At(w, "LOOP") && (|w| > 4 ==> !IsAlpha(w[4])))
    || (At(w, "WHILE") && (|w| > 5 ==> !IsAlpha(w[5])))
    || (At(w, "CASE") && (|w| > 4 ==> !IsAlpha(w[4])))
  }

  // Behind an END: blanks and then such a word
  predicate InnerEnd(ts: seq<Token>) {
    ts != [] && if ts[0] == Sign(' ') then InnerEnd(ts[1..]) else ts[0].Word? && Continues(ts[0].w)
  }

  // The depth after the first token: only the words BEGIN and END change it.
  function Depth(d: nat, ts: seq<Token>): nat
    requires ts != []
  {
    if !ts[0].Word? then d
    else if Spells(ts[0].w, "BEGIN") then d + 1
    else if Spells(ts[0].w, "END") && d > 0 && !InnerEnd(ts[1..]) then d - 1
    else d
  }

  // The tokens from the first semicolon at depth 0 on
  function CutTokens(d: nat, ts: seq<Token>): (r: seq<Token>)
    ensures |r| <= |ts| && r == ts[|ts| - |r|..] && (r != [] ==> r[0] == Sign(';'))
    decreases |ts|
  {
    if ts == [] || (d == 0 && ts[0] == Sign(';')) then ts else CutTokens(Depth(d, ts), ts[1..])
  }

  // The tokens between the cuts
  function Segments(ts: seq<Token>): (r: seq<seq<Token>>)
    ensures r != []
    decreases |ts|
  {
    var r := CutTokens(0, ts);
    [ts[..|ts| - |r|]] + if r == [] then [] else Segments(r[1..])
  }

  // ------------------------------------------------------------------------------------------
  // The scanner on one token

  // The scanner outside literals and comments
  function In(d: nat, lb: bool): State { State(Code, d, lb) }

  predicate EndsHere(k: string) { k == "" || !IsWord(k[0]) }

  lemma LbFree(d: nat, k: string)
    requires EndsHere(k)
    ensures Rest(In(d, false), k) == Rest(In(d, true), k)
  {
    hide Rest;
    if k != "" { StepSign(In(d, false), k); StepSign(In(d, true), k); OneStep(In(d, false), k); OneStep(In(d, true), k); }
    else { NothingLeft(In(d, false)); NothingLeft(In(d, true)); }
  }

  lemma NothingLeft(st: State)
    ensures Rest(st, "") == ""
  {
  }

  lemma OneStep(st: State, rest: string)
    requires rest != ""
    ensures Rest(st, rest) == if Cuts(st, rest) then rest else Rest(Step(st, rest).1, rest[Step(st, rest).0..])
  {
    hide Step;
  }

  // A character that is no part of a word
  lemma StepSign(st: State, k: string)
    requires k != "" && !IsWord(k[0]) && st.mode == Code
    ensures Step(st, k) == Step(st.(lb := true), k)
  {
  }

  lemma ScanSign(d: nat, c: char, k: string)
    requires !IsWord(c) && c != '\'' && (k != "" ==> Apart(Sign(c), k[0]))
    ensures Rest(In(d, true), [c] + k) == if d == 0 && c == ';' then [c] + k else Rest(In(d, true), k)
  {
    hide Rest;
    assert ([c] + k)[1..] == k;
    assert !WordAt([c] + k, "BEGIN") && !WordAt([c] + k, "END") by { assert Upper(([c] + k)[0]) == Upper(c); }
    OneStep(In(d, true), [c] + k);
  }

  lemma {:induction false} ScanTail(d: nat, w: string, k: string)
    requires AllWord(w) && EndsHere(k)
    ensures Rest(In(d, false), w + k) == Rest(In(d, true), k)
    decreases |w|
  {
    hide Rest;
    if w == "" {
      assert w + k == k;
      LbFree(d, k);
    } else {
      assert (w + k)[0] == w[0] && (w + k)[1..] == w[1..] + k;
      OneStep(In(d, false), w + k);
      ScanTail(d, w[1..], k);
    }
  }

  lemma WordIs(w: string, k: string, kw: string)
    requires AllWord(w) && EndsHere(k) && forall i :: 0 <= i < |kw| ==> IsAlpha(kw[i])
    ensures WordAt(w + k, kw) <==> Spells(w, kw)
  {
    var x := w + k;
    assert forall i :: 0 <= i < |w| ==> x[i] == w[i];
    assert |w| < |x| ==> x[|w|] == k[0];
    if |w| < |kw| && |w| < |x| { assert Upper(x[|w|]) != kw[|w|]; }
    if WordAt(x, kw) { assert Pu(w) == kw; }
    if Spells(w, kw) {
      forall i | 0 <= i < |kw| ensures Upper(x[i]) == kw[i] { assert Pu(w)[i] == kw[i]; }
    }
  }

  lemma ScanWord(d: nat, w: string, k: string)
    requires w != "" && AllWord(w) && EndsHere(k) && !Spells(w, "BEGIN") && (d > 0 ==> !Spells(w, "END"))
    ensures Rest(In(d, true), w + k) == Rest(In(d, true), k)
  {
    hide Rest, WordAt, Spells;
    WordIs(w, k, "BEGIN");
    WordIs(w, k, "END");
    assert (w + k)[0] == w[0] && (w + k)[1..] == w[1..] + k;
    OneStep(In(d, true), w + k);
    ScanTail(d, w[1..], k);
  }

  lemma ScanBegin(d: nat, w: string, k: string)
    requires Spells(w, "BEGIN") && EndsHere(k)
    ensures Rest(In(d, true), w + k) == Rest(In(d + 1, true), k)
  {
    hide Rest;
    SpelledWord(w, "BEGIN");
    WordIs(w, k, "BEGIN");
    assert (w + k)[0] == w[0] && Upper(w[0]) == 'B' && (w + k)[5..] == k;
    OneStep(In(d, true), w + k);
    LbFree(d + 1, k);
  }

  lemma SpelledWord(w: string, kw: string)
    requires Spells(w, kw) && forall i :: 0 <= i < |kw| ==> IsAlpha(kw[i])
    ensures |w| == |kw| && AllWord(w) && forall i :: 0 <= i < |w| ==> Upper(w[i]) == kw[i]
  {
    assert |Pu(w)| == |w|;
    forall i | 0 <= i < |w| ensures Upper(w[i]) == kw[i] && IsWord(w[i]) { assert Pu(w)[i] == kw[i]; }
  }

  lemma ScanEnd(d: nat, w: string, k: string)
    requires d > 0 && Spells(w, "END") && EndsHere(k)
    ensures Rest(In(d, true), w + k) == Rest(In(if ClosesOther(NextWord(k)) then d else d - 1, true), k)
  {
    hide Rest, NextWord;
    SpelledWord(w, "END");
    WordIs(w, k, "END");
    WordIs(w, k, "BEGIN");
    assert (w + k)[0] == w[0] && Upper(w[0]) == 'E' && (w + k)[3..] == k;
    OneStep(In(d, true), w + k);
    LbFree(d, k);
    LbFree(d - 1, k);
  }

  // The word that is peeked at behind an END
  lemma LettersAre(s: string, kw: string)
    requires forall i :: 0 <= i < |kw| ==> IsAlpha(kw[i]) && Upper(kw[i]) == kw[i]
    ensures Letters(s) == kw <==> At(s, kw) && (|s| > |kw| ==> !IsAlpha(s[|kw|]))
    decreases |s|
  {
    if kw != "" && s != "" {
      LettersAre(s[1..], kw[1..]);
      if IsAlpha(s[0]) {
        assert Letters(s) == [Upper(s[0])] + Letters(s[1..]);
        assert kw == [kw[0]] + kw[1..];
        AtNext(s, kw);
        if Letters(s) == kw { assert Letters(s)[0] == kw[0] && Letters(s)[1..] == kw[1..]; }
      } else {
        assert Upper(s[0]) == s[0];
      }
    }
  }

  lemma AtNext(s: string, kw: string)
    requires s != "" && kw != ""
    ensures At(s, kw) <==> Upper(s[0]) == kw[0] && At(s[1..], kw[1..])
  {
    if At(s[1..], kw[1..]) && Upper(s[0]) == kw[0] {
      forall i | 0 <= i < |kw| ensures Upper(s[i]) == kw[i] {
        if i > 0 { assert s[1..][i - 1] == s[i] && kw[1..][i - 1] == kw[i]; }
      }
    }
  }

  lemma LettersPeek(w: string, k: string)
    requires w != "" && AllWord(w) && EndsHere(k)
    ensures ClosesOther(NextWord(w + k)) <==> Continues(w)
  {
    var x := w + k;
    assert x[0] == w[0];
    assert SkipBlanks(x) == x;
    hide SkipBlanks, Letters;
    LettersAre(x, "IF");
    LettersAre(x, "LOOP");
    LettersAre(x, "WHILE");
    LettersAre(x, "CASE");
    PeekAt(w, k, "IF");
    PeekAt(w, k, "LOOP");
    PeekAt(w, k, "WHILE");
    PeekAt(w, k, "CASE");
  }

  lemma PeekAt(w: string, k: string, kw: string)
    requires AllWord(w) && EndsHere(k) && forall i :: 0 <= i < |kw| ==> IsAlpha(kw[i]) && Upper(kw[i]) == kw[i]
    ensures var x := w + k;
            (At(x, kw) && (|x| > |kw| ==> !IsAlpha(x[|kw|]))) <==> (At(w, kw) && (|w| > |kw| ==> !IsAlpha(w[|kw|])))
  {
    var x := w + k;
    assert forall i :: 0 <= i < |w| ==> x[i] == w[i];
    assert |w| < |x| ==> x[|w|] == k[0];
    if |w| < |kw| && |w| < |x| { assert Upper(x[|w|]) != kw[|w|]; }
  }

  lemma {:induction false} BlanksSkipped(blanks: string, k: string)
    requires forall i :: 0 <= i < |blanks| ==> blanks[i] == ' '
    ensures NextWord(blanks + k) == NextWord(k)
  {
    if blanks == "" {
      assert blanks + k == k;
    } else {
      assert (blanks + k)[1..] == blanks[1..] + k;
      BlanksSkipped(blanks[1..], k);
    }
  }

  // Inside a block, the word behind END and blanks decides: IF, LOOP, WHILE and CASE leave the depth as it is, every other
  // word of letters lowers it.
  lemma EndWord(d: nat, e: string, blanks: string, w: string, k: string)
    requires d > 0 && Pu(e) == "END" && blanks != "" && forall i :: 0 <= i < |blanks| ==> blanks[i] == ' '
    requires w != "" && (forall i :: 0 <= i < |w| ==> IsAlpha(w[i])) && EndsHere(k)
    ensures Step(In(d, true), e + (blanks + (w + k))).1.depth == if Pu(w) in ["IF", "LOOP", "WHILE", "CASE"] then d else d - 1
  {
    hide Letters, NextWord;
    var rest := blanks + (w + k);
    BlanksSkipped(blanks, w + k);
    LettersPeek(w, k);
    ContinuesIs(w);
    SpelledWord(e, "END");
    WordIs(e, rest, "END");
    WordIs(e, rest, "BEGIN");
    assert (e + rest)[0] == e[0] && Upper(e[0]) == 'E' && (e + rest)[3..] == rest;
  }

  lemma ContinuesIs(w: string)
    requires forall i :: 0 <= i < |w| ==> IsAlpha(w[i])
    ensures Continues(w) <==> Pu(w) in ["IF", "LOOP", "WHILE", "CASE"]
  {
    SpellsAt(w, "IF");
    SpellsAt(w, "LOOP");
    SpellsAt(w, "WHILE");
    SpellsAt(w, "CASE");
  }

  lemma SpellsAt(w: string, kw: string)
    requires forall i :: 0 <= i < |w| ==> IsAlpha(w[i])
    ensures At(w, kw) && (|w| > |kw| ==> !IsAlpha(w[|kw|])) <==> Pu(w) == kw
  {
    if Pu(w) == kw {
      forall i | 0 <= i < |kw| ensures Upper(w[i]) == kw[i] { assert Pu(w)[i] == kw[i]; }
    }
    if At(w, kw) && |w| == |kw| { assert Pu(w) == kw; }
  }

  lemma {:induction false} ScanQuoted(d: nat, lb: bool, t: string, k: string)
    requires k == "" || k[0] != '\''
    ensures Rest(State(Literal, d, lb), Doubled(t) + ("'" + k)) == Rest(In(d, true), k)
    decreases |t|
  {
    hide Rest;
    var st := State(Literal, d, lb);
    var x := Doubled(t) + ("'" + k);
    OneStep(st, x);
    if t == "" {
      assert x == "'" + k && x[1..] == k;
    } else if t[0] == '\'' {
      assert x == "''" + (Doubled(t[1..]) + ("'" + k));
      assert x[2..] == Doubled(t[1..]) + ("'" + k);
      ScanQuoted(d, true, t[1..], k);
    } else {
      assert x == [t[0]] + (Doubled(t[1..]) + ("'" + k));
      assert x[1..] == Doubled(t[1..]) + ("'" + k);
      ScanQuoted(d, !IsWord(t[0]), t[1..], k);
    }
  }

  lemma {:induction false} ScanOpenQuoted(d: nat, lb: bool, t: string)
    ensures Rest(State(Literal, d, lb), Doubled(t)) == ""
    decreases |t|
  {
    hide Rest;
    var st, x := State(Literal, d, lb), Doubled(t);
    if t == "" {
      NothingLeft(st);
    } else {
      OneStep(st, x);
      assert x[(if t[0] == '\'' then 2 else 1)..] == Doubled(t[1..]);
      ScanOpenQuoted(d, if t[0] == '\'' then true else !IsWord(t[0]), t[1..]);
    }
  }

  lemma {:induction false} ScanLine(d: nat, lb: bool, t: string, k: string)
    requires '\n' !in t
    ensures Rest(State(LineComment, d, lb), t + ("\n" + k)) == Rest(In(d, true), k)
    ensures Rest(State(LineComment, d, lb), t) == ""
    decreases |t|
  {
    hide Rest;
    var st := State(LineComment, d, lb);
    var x := t + ("\n" + k);
    OneStep(st, x);
    if t == "" {
      assert x == "\n" + k && x[1..] == k;
      NothingLeft(st);
    } else {
      OneStep(st, t);
      assert x[0] == t[0] && x[1..] == t[1..] + ("\n" + k);
      ScanLine(d, !IsWord(t[0]), t[1..], k);
    }
  }

  lemma {:induction false} ScanBlock(d: nat, lb: bool, t: string, k: string)
    requires NoEnd(t)
    ensures Rest(State(BlockComment, d, lb), t + ("*/" + k)) == Rest(In(d, true), k)
    ensures Rest(State(BlockComment, d, lb), t) == ""
    decreases |t|
  {
    hide Rest;
    var st := State(BlockComment, d, lb);
    var x := t + ("*/" + k);
    OneStep(st, x);
    if t == "" {
      assert x == "*/" + k && x[2..] == k;
      NothingLeft(st);
    } else {
      OneStep(st, t);
      assert x[0] == t[0] && x[1..] == t[1..] + ("*/" + k) && x[1] == if |t| > 1 then t[1] else '*';
      assert !Pair(t, '*', '/') && !Pair(x, '*', '/');
      forall i | 0 <= i < |t[1..]| - 1 ensures t[1..][i] != '*' || t[1..][i + 1] != '/' {
        assert t[1..][i] == t[i + 1] && t[1..][i + 1] == t[i + 2];
      }
      ScanBlock(d, !IsWord(t[0]), t[1..], k);
    }
  }

  // The signs that open a literal or a comment; the second sign of a comment is read inside it.
  lemma OpenStep(d: nat, x: string)
    requires x != ""
    ensures x[0] == '\'' ==> Rest(In(d, true), x) == Rest(State(Literal, d, true), x[1..])
    ensures Pair(x, '-', '-') ==> Rest(In(d, true), x) == Rest(State(LineComment, d, true), x[1..])
    ensures Pair(x, '/', '*') ==> Rest(In(d, true), x) == Rest(State(BlockComment, d, true), x[1..])
  {
    hide Rest;
    OneStep(In(d, true), x);
  }

  // ------------------------------------------------------------------------------------------
  // The scanner on a list of tokens

  lemma QuotedNote(d: nat, t: string, k: string)
    requires k == "" || k[0] != '\''
    ensures Rest(In(d, true), "'" + (Doubled(t) + "'") + k) == Rest(In(d, true), k)
    ensures Rest(In(d, true), "'" + Doubled(t)) == ""
  {
    hide Rest, Doubled;
    var u := Doubled(t) + ("'" + k);
    assert "'" + (Doubled(t) + "'") + k == "'" + u;
    OpenStep(d, "'" + u);
    assert ("'" + u)[1..] == u;
    ScanQuoted(d, true, t, k);
    OpenStep(d, "'" + Doubled(t));
    assert ("'" + Doubled(t))[1..] == Doubled(t);
    ScanOpenQuoted(d, true, t);
  }

  lemma LineRead(d: nat, t: string, k: string)
    requires '\n' !in t
    ensures Rest(In(d, true), "--" + (t + "\n") + k) == Rest(In(d, true), k)
    ensures Rest(In(d, true), "--" + t) == ""
  {
    hide Rest;
    var x := "-" + t;
    assert "--" + (t + "\n") + k == "-" + (x + ("\n" + k)) && "--" + t == "-" + x;
    OpenStep(d, "-" + (x + ("\n" + k)));
    assert ("-" + (x + ("\n" + k)))[1..] == x + ("\n" + k);
    OpenStep(d, "-" + x);
    assert ("-" + x)[1..] == x;
    ScanLine(d, true, x, k);
  }

  lemma BlockRead(d: nat, t: string, k: string)
    requires NoEnd("*" + t)
    ensures Rest(In(d, true), "/*" + (t + "*/") + k) == Rest(In(d, true), k)
    ensures Rest(In(d, true), "/*" + t) == ""
  {
    hide Rest, NoEnd;
    var x := "*" + t;
    assert "/*" + (t + "*/") + k == "/" + (x + ("*/" + k)) && "/*" + t == "/" + x;
    OpenStep(d, "/" + (x + ("*/" + k)));
    assert ("/" + (x + ("*/" + k)))[1..] == x + ("*/" + k);
    OpenStep(d, "/" + x);
    assert ("/" + x)[1..] == x;
    ScanBlock(d, true, x, k);
  }

  lemma TinyRead(d: nat, k: string)
    ensures Rest(In(d, true), "/*/" + k) == Rest(In(d, true), k)
  {
    hide Rest, NoEnd;
    OpenStep(d, "/*/" + k);
    assert ("/*/" + k)[1..] == "" + ("*/" + k);
    assert NoEnd("") by { NoEndEmpty(); }
    ScanBlock(d, true, "", k);
  }

  lemma ScanNote(d: nat, a: Token, k: string)
    requires Formed(a) && !a.Word? && !a.Sign? && (k != "" ==> Apart(a, k[0]))
    ensures Rest(In(d, true), Print(a) + k) == if k == "" then "" else Rest(In(d, true), k)
  {
    hide Rest, Doubled, NoEnd;
    NothingLeft(In(d, true));
    match a
    case Quoted(t) => QuotedNote(d, t, k);
    case LineNote(t) => LineRead(d, t, k);
    case BlockNote(t) => BlockRead(d, t, k);
    case TinyNote => TinyRead(d, k);
    case OpenQuoted(t) => QuotedNote(d, t, ""); assert Print(a) + k == Print(a);
    case OpenLine(t) => LineRead(d, t, ""); assert Print(a) + k == Print(a);
    case OpenBlock(t) => BlockRead(d, t, ""); assert Print(a) + k == Print(a);
  }

  lemma NoEndEmpty()
    ensures NoEnd("")
  {
  }

  lemma SpellFirst(ts: seq<Token>)
    requires Valid(ts)
    ensures ts == [] <==> Spell(ts) == ""
    ensures ts != [] ==> Spell(ts) == Print(ts[0]) + Spell(ts[1..]) && Spell(ts)[0] == Print(ts[0])[0]
    ensures ts != [] && Spell(ts[1..]) != "" ==> Apart(ts[0], Spell(ts[1..])[0])
    ensures ts != [] && ts[0].Word? ==> EndsHere(Spell(ts[1..]))
  {
    hide Print, Formed;
    if ts != [] && ts[1..] != [] { assert Spell(ts[1..]) == Print(ts[1]) + Spell(ts[1..][1..]); }
  }

  lemma {:induction false} PeekTokens(ts: seq<Token>)
    requires Valid(ts)
    ensures ClosesOther(NextWord(Spell(ts))) <==> InnerEnd(ts)
    decreases |ts|
  {
    hide Valid, Continues, Spell;
    SpellFirst(ts);
    ValidNext(ts);
    if ts == [] {
      assert NextWord("") == "";
    } else if ts[0] == Sign(' ') {
      assert Spell(ts)[1..] == Spell(ts[1..]);
      PeekTokens(ts[1..]);
    } else if ts[0].Word? {
      LettersPeek(ts[0].w, Spell(ts[1..]));
    } else {
      assert !IsAlpha(Spell(ts)[0]) && Spell(ts)[0] != ' ';
      assert NextWord(Spell(ts)) == "";
    }
  }

  lemma ValidNext(ts: seq<Token>)
    requires Valid(ts)
    ensures ts != [] ==> Formed(ts[0]) && Valid(ts[1..])
  {
    hide Print, Formed;
  }

  lemma PrintParts(a: Token)
    requires Formed(a)
    ensures a.Word? ==> Print(a) == a.w && a.w != "" && AllWord(a.w)
    ensures a.Sign? ==> Print(a) == [a.c] && !IsWord(a.c) && a.c != '\''
    ensures a != Sign(';') || Print(a) == ";"
  {
  }

  lemma {:induction false} RestTokens(d: nat, ts: seq<Token>)
    requires Valid(ts)
    ensures Valid(CutTokens(d, ts)) && Rest(In(d, true), Spell(ts)) == Spell(CutTokens(d, ts))
    decreases |ts|
  {
    hide Valid, Rest, Spell, Spells, NextWord, InnerEnd, ClosesOther, Print, Formed, Apart, AllWord;
    SpellFirst(ts);
    ValidNext(ts);
    if ts == [] {
      NothingLeft(In(d, true));
    } else {
      PrintParts(ts[0]);
      var a, k := ts[0], Spell(ts[1..]);
      RestTokens(Depth(d, ts), ts[1..]);
      if a.Word? {
        PeekTokens(ts[1..]);
        if Spells(a.w, "BEGIN") { ScanBegin(d, a.w, k); }
        else if Spells(a.w, "END") && d > 0 { ScanEnd(d, a.w, k); }
        else { ScanWord(d, a.w, k); }
      } else if a.Sign? {
        ScanSign(d, a.c, k);
      } else {
        ScanNote(d, a, k);
        SpellFirst(ts[1..]);
        NothingLeft(In(d, true));
      }
    }
  }

  lemma {:induction false} ValidPrefix(ts: seq<Token>, n: nat)
    requires Valid(ts) && n <= |ts|
    ensures Valid(ts[..n]) && Valid(ts[n..]) && Spell(ts) == Spell(ts[..n]) + Spell(ts[n..])
    decreases n
  {
    hide Print, Formed, Apart;
    if n == 0 {
      assert ts[..0] == [] && ts[0..] == ts;
    } else {
      ValidPrefix(ts[1..], n - 1);
      assert ts[..n][1..] == ts[1..][..n - 1] && ts[n..] == ts[1..][n - 1..];
      assert n > 1 ==> ts[..n][1] == ts[1];
      Regroup(Print(ts[0]), Spell(ts[1..][..n - 1]), Spell(ts[n..]));
    }
  }

  function Spelled(segments: seq<seq<Token>>): (r: seq<string>)
    requires forall i :: 0 <= i < |segments| ==> Valid(segments[i])
    ensures |r| == |segments| && forall i :: 0 <= i < |segments| ==> r[i] == Spell(segments[i])
  {
    seq(|segments|, i requires 0 <= i < |segments| => Spell(segments[i]))
  }

  lemma CutFirst(ts: seq<Token>)
    ensures CutTokens(0, ts) != [] ==> Print(CutTokens(0, ts)[0]) == ";"
    ensures In(0, true) == FRESH
  {
    hide CutTokens, Doubled, Formed;
  }

  lemma FirstSegment(ts: seq<Token>)
    requires Valid(ts)
    ensures var r := CutTokens(0, ts);
            && Valid(r) && Valid(ts[..|ts| - |r|])
            && Rest(FRESH, Spell(ts)) == Spell(r)
            && Spell(ts)[..|Spell(ts)| - |Spell(r)|] == Spell(ts[..|ts| - |r|])
            && (r == [] <==> Spell(r) == "")
            && (r != [] ==> Valid(r[1..]) && Spell(r)[1..] == Spell(r[1..]))
  {
    hide Valid, Spell, Rest, Formed, Apart, CutTokens, Print, In;
    var r := CutTokens(0, ts);
    CutFirst(ts);
    RestTokens(0, ts);
    ValidPrefix(ts, |ts| - |r|);
    SpellFirst(r);
    ValidNext(r);
  }

  lemma PiecesStep(input: string)
    ensures var r := Rest(FRESH, input);
            Pieces(input) == [input[..|input| - |r|]] + if r == "" then [] else Pieces(r[1..])
  {
    hide Rest;
  }

  // The raw pieces of a text are the texts of the segments of its tokens.
  lemma {:induction false} PiecesAre(ts: seq<Token>)
    requires Valid(ts)
    ensures (forall i :: 0 <= i < |Segments(ts)| ==> Valid(Segments(ts)[i])) && Pieces(Spell(ts)) == Spelled(Segments(ts))
    decreases |ts|
  {
    hide Valid, Spell, Rest, CutTokens, Pieces;
    var r := CutTokens(0, ts);
    FirstSegment(ts);
    PiecesStep(Spell(ts));
    if r != [] { PiecesAre(r[1..]); }
  }

  // The statements of a text: the trimmed texts between the semicolons outside BEGIN...END, without the empty ones
  lemma SplitTokens(ts: seq<Token>)
    requires Valid(ts)
    ensures (forall i :: 0 <= i < |Segments(ts)| ==> Valid(Segments(ts)[i]))
    ensures Output(Spell(ts)) == KeepAll(Spelled(Segments(ts)))
  {
    hide Valid, Spell, Pieces, Segments, KeepAll;
    PiecesAre(ts);
  }

  // ------------------------------------------------------------------------------------------
  // Every text is such a list

  lemma {:induction false} QuotedSplit(x: string) returns (closed: bool, t: string, r: string)
    ensures closed ==> x == Doubled(t) + ("'" + r) && (r == "" || r[0] != '\'')
    ensures !closed ==> x == Doubled(t) && r == ""
    decreases |x|
  {
    if x == "" {
      closed, t, r := false, "", "";
    } else if x[0] == '\'' && (|x| == 1 || x[1] != '\'') {
      closed, t, r := true, "", x[1..];
    } else {
      var n := if x[0] == '\'' then 2 else 1;
      var u;
      closed, u, r := QuotedSplit(x[n..]);
      t := [x[0]] + u;
      assert t[1..] == u && x == x[..n] + x[n..];
      assert Doubled(t) == x[..n] + Doubled(u);
    }
  }

  // Up to the first end of a block comment
  lemma {:induction false} BlockSplit(x: string) returns (closed: bool, t: string, r: string)
    ensures NoEnd(t) && (if closed then x == t + ("*/" + r) else x == t && r == "")
    decreases |x|
  {
    if x == "" {
      closed, t, r := false, "", "";
    } else if Pair(x, '*', '/') {
      closed, t, r := true, "", x[2..];
    } else {
      var u;
      closed, u, r := BlockSplit(x[1..]);
      t := [x[0]] + u;
      assert x == [x[0]] + x[1..];
      if u != "" { assert x[1] == u[0]; }
      forall i | 0 <= i < |t| - 1 ensures t[i] != '*' || t[i + 1] != '/' { if i > 0 { assert t[i] == u[i - 1]; } }
    }
  }

  lemma {:induction false} WordSplit(x: string) returns (w: string, r: string)
    ensures x == w + r && AllWord(w) && EndsHere(r) && (x != "" && IsWord(x[0]) ==> w != "")
    decreases |x|
  {
    if EndsHere(x) {
      w, r := "", x;
    } else {
      var v;
      v, r := WordSplit(x[1..]);
      w := [x[0]] + v;
    }
  }

  lemma FirstToken(s: string) returns (a: Token, r: string)
    requires s != ""
    ensures Formed(a) && s == Print(a) + r && (r != "" ==> Apart(a, r[0]))
  {
    hide Doubled, NoEnd;
    if IsWord(s[0]) {
      var w;
      w, r := WordSplit(s);
      a := Word(w);
    } else if s[0] == '\'' {
      a, r := FirstQuoted(s);
    } else if Pair(s, '-', '-') {
      a, r := FirstLine(s);
    } else if Pair(s, '/', '*') {
      a, r := FirstNote(s);
    } else {
      a, r := Sign(s[0]), s[1..];
      assert s == [s[0]] + r;
      assert r != "" ==> r[0] == s[1];
    }
  }

  lemma FirstQuoted(s: string) returns (a: Token, r: string)
    requires s != "" && s[0] == '\''
    ensures Formed(a) && s == Print(a) + r && (r != "" ==> Apart(a, r[0]))
  {
    hide Doubled;
    var closed, t;
    closed, t, r := QuotedSplit(s[1..]);
    assert s == "'" + s[1..];
    a := if closed then Quoted(t) else OpenQuoted(t);
    assert closed ==> s == "'" + (Doubled(t) + "'") + r;
  }

  lemma FirstLine(s: string) returns (a: Token, r: string)
    requires Pair(s, '-', '-')
    ensures Formed(a) && s == Print(a) + r && (r != "" ==> Apart(a, r[0]))
  {
    hide Find;
    var x := s[2..];
    var n := Find(x, '\n');
    assert s == "--" + x;
    if n < |x| {
      a, r := LineNote(x[..n]), x[n + 1..];
      assert x == x[..n] + ("\n" + r);
      assert s == "--" + (x[..n] + "\n") + r;
    } else {
      a, r := OpenLine(x), "";
    }
  }

  lemma FirstNote(s: string) returns (a: Token, r: string)
    requires Pair(s, '/', '*')
    ensures Formed(a) && s == Print(a) + r && (r != "" ==> Apart(a, r[0]))
  {
    hide NoEnd;
    var closed, t;
    closed, t, r := BlockSplit(s[1..]);
    assert s == "/" + s[1..] && s[1..][0] == '*';
    if t == "" {
      a := TinyNote;
      assert s == "/" + ("*/" + r) == "/*/" + r;
    } else {
      assert t == "*" + t[1..] && s[1..][0] == t[0];
      a := if closed then BlockNote(t[1..]) else OpenBlock(t[1..]);
      assert closed ==> s == "/*" + (t[1..] + "*/") + r;
    }
  }

  // Every text is the text of one list of tokens: so the cuts are known for all inputs.
  lemma {:induction false} Lex(s: string) returns (ts: seq<Token>)
    ensures Valid(ts) && Spell(ts) == s
    decreases |s|
  {
    if s == "" {
      ts := [];
    } else {
      hide Print, Formed, Apart;
      var a, r := FirstToken(s);
      var later := Lex(r);
      ts := [a] + later;
      assert ts[1..] == later;
      SpellFirst(later);
    }
  }
}
