/** `splitStatements`: cutting a text into SQL statements at the `;` that stand outside string literals, both kinds
    of comment and BEGIN...END blocks. */
module StatementSplitter {
  import opened Text

  datatype Mode = Code | LineComment | BlockComment | Literal

  // The scanner between two characters; `lb` says that the character before is no part of a word.
  datatype State = State(mode: Mode, depth: nat, lb: bool)

  const FRESH := State(Code, 0, true)

  function SkipBlanks(s: string): (r: string)
    ensures |r| <= |s|
  {
    if s != "" && s[0] == ' ' then SkipBlanks(s[1..]) else s
  }

  function Letters(s: string): string {
    if s != "" && IsAlpha(s[0]) then [Upper(s[0])] + Letters(s[1..]) else ""
  }

  // The word after an END, in upper case
  function NextWord(s: string): string { Letters(SkipBlanks(s)) }

  predicate ClosesOther(word: string) { word == "IF" || word == "LOOP" || word == "WHILE" || word == "CASE" }

  predicate Pair(rest: string, a: char, b: char) { |rest| >= 2 && rest[0] == a && rest[1] == b }

  // A `;` that ends a statement
  predicate Cuts(st: State, rest: string) {
    rest != "" && st.mode == Code && st.depth == 0 && rest[0] == ';'
  }

  // One round of the scanner's loop: how many characters it takes, and the state after them
  function Step(st: State, rest: string): (r: (nat, State))
    requires rest != ""
    ensures 1 <= r.0 <= |rest|
  {
    var c := rest[0];
    match st.mode
    case LineComment => (1, if c == '\n' then st.(mode := Code, lb := true) else st.(lb := !IsWord(c)))
    case BlockComment =>
      if Pair(rest, '*', '/') then (2, st.(mode := Code, lb := true)) else (1, st.(lb := !IsWord(c)))
    case Literal =>
      if Pair(rest, '\'', '\'') then (2, st.(lb := true))
      else if c == '\'' then (1, st.(mode := Code, lb := true))
      else (1, st.(lb := !IsWord(c)))
    case Code =>
      if Pair(rest, '-', '-') then (1, st.(mode := LineComment, lb := true))
      else if Pair(rest, '/', '*') then (1, st.(mode := BlockComment, lb := true))
      else if c == '\'' then (1, st.(mode := Literal, lb := true))
      else if st.lb && WordAt(rest, "BEGIN") then (5, st.(depth := st.depth + 1, lb := false))
      else if st.depth > 0 && st.lb && WordAt(rest, "END") then
        (3, st.(depth := if ClosesOther(NextWord(rest[3..])) then st.depth else st.depth - 1, lb := false))
      else (1, st.(lb := !IsWord(c)))
  }

  // What is left at the first cut; "" when there is none
  function Rest(st: State, rest: string): (r: string)
    ensures |r| <= |rest| && (r != "" ==> r[0] == ';')
    decreases |rest|
  {
    if rest == "" || Cuts(st, rest) then rest
    else var (n, st') := Step(st, rest); Rest(st', rest[n..])
  }

  // The raw pieces between the cuts
  function Pieces(input: string): (r: seq<string>)
    ensures r != []
    decreases |input|
  {
    var r := Rest(FRESH, input);
    [input[..|input| - |r|]] + if r == "" then [] else Pieces(r[1..])
  }

  function KeepAll(ps: seq<string>): seq<string> {
    if ps == [] then [] else Keep(ps[0]) + KeepAll(ps[1..])
  }

  function Output(input: string): seq<string> { KeepAll(Pieces(input)) }

  function Join(ps: seq<string>, sep: string): string {
    if ps == [] then "" else if |ps| == 1 then ps[0] else ps[0] + (sep + Join(ps[1..], sep))
  }

  // ------------------------------------------------------------------------------------------
  // Lossless

  lemma {:induction false} RestSuffix(st: State, rest: string)
    ensures Rest(st, rest) == rest[|rest| - |Rest(st, rest)|..]
    decreases |rest|
  {
    if rest != "" && !Cuts(st, rest) {
      var (n, st') := Step(st, rest);
      RestSuffix(st', rest[n..]);
    }
  }

  // Nothing is lost: the pieces joined by `;` are the input.
  lemma {:induction false} Lossless(input: string)
    ensures Join(Pieces(input), ";") == input
    decreases |input|
  {
    hide Rest;
    var r := Rest(FRESH, input);
    RestSuffix(FRESH, input);
    var p := input[..|input| - |r|];
    if r == "" {
      assert p == input;
    } else {
      Lossless(r[1..]);
      assert Pieces(input)[1..] == Pieces(r[1..]);
      assert input == p + (";" + r[1..]);
    }
  }

  lemma OutputStep(input: string, p: string, r: string)
    requires r == Rest(FRESH, input) && p == input[..|input| - |r|]
    ensures Output(input) == Keep(p) + if r == "" then [] else Output(r[1..])
  {
    hide Rest, TrimLeft, TrimRight;
    var tail := if r == "" then [] else Pieces(r[1..]);
    assert Pieces(input) == [p] + tail;
    assert ([p] + tail)[0] == p && ([p] + tail)[1..] == tail;
    assert KeepAll([]) == [];
  }

  // ------------------------------------------------------------------------------------------
  // Scanning a text that something else follows

  // The state after scanning t when u follows it; None when the scanner cuts inside t
  function Through(st: State, t: string, u: string): Option<State>
    decreases |t|
  {
    if t == "" then Some(st)
    else if Cuts(st, t + u) then None
    else
      var (n, st') := Step(st, t + u);
      if n > |t| then None else Through(st', t[n..], u)
  }

  // Each piece is scanned without a cut, and a `;` cuts only outside literals, comments and blocks.
  lemma {:induction false} CutPlace(st: State, rest: string)
    ensures var r := Rest(st, rest);
            var after := Through(st, rest[..|rest| - |r|], r);
            after.Some? && (r != "" ==> after.value.mode == Code && after.value.depth == 0)
    decreases |rest|
  {
    hide Step;
    var r := Rest(st, rest);
    if rest != "" && !Cuts(st, rest) {
      var (n, st') := Step(st, rest);
      CutPlace(st', rest[n..]);
      RestSuffix(st, rest);
      RestSuffix(st', rest[n..]);
      assert r == Rest(st', rest[n..]) && |r| <= |rest| - n;
      var t := rest[..|rest| - |r|];
      assert t + r == rest;
      assert t[n..] == rest[n..][..|rest[n..]| - |r|];
    } else {
      assert r == rest;
    }
  }

  lemma {:induction false} RestThrough(st: State, t: string, u: string)
    requires Through(st, t, u).Some?
    ensures Rest(st, t + u) == Rest(Through(st, t, u).value, u)
    decreases |t|
  {
    if t == "" {
      assert t + u == u;
    } else {
      var (n, st') := Step(st, t + u);
      assert (t + u)[n..] == t[n..] + u;
      RestThrough(st', t[n..], u);
    }
  }

  // White space, then nothing or a `;`: what follows a trimmed statement
  predicate Benign(u: string)
    decreases |u|
  {
    u == "" || u[0] == ';' || (IsSpace(u[0]) && Benign(u[1..]))
  }

  predicate Solid(t: string) { t == "" || !IsSpace(t[|t| - 1]) }

  lemma {:induction false} SkipBenign(u: string)
    requires Benign(u)
    ensures NextWord(u) == ""
    decreases |u|
  {
    if u != "" && u[0] == ' ' { SkipBenign(u[1..]); }
  }

  lemma {:induction false} SkipSame(t: string, u: string)
    requires t != "" && Solid(t)
    ensures SkipBlanks(t + u) == SkipBlanks(t) + u && SkipBlanks(t) != ""
  {
    if t[0] == ' ' {
      assert (t + u)[1..] == t[1..] + u;
      SkipSame(t[1..], u);
    }
  }

  lemma {:induction false} LettersSame(t: string, u: string)
    requires Benign(u)
    ensures Letters(t + u) == Letters(t)
  {
    if t == "" {
      assert t + u == u && (u != "" ==> !IsAlpha(u[0]));
      assert Letters(u) == "" == Letters("");
    } else if IsAlpha(t[0]) {
      assert (t + u)[1..] == t[1..] + u;
      LettersSame(t[1..], u);
    }
  }

  lemma NextWordSame(t: string, u: string)
    requires Solid(t) && Benign(u)
    ensures NextWord(t + u) == NextWord(t)
  {
    if t == "" {
      assert t + u == u;
      SkipBenign(u);
    } else {
      SkipSame(t, u);
      LettersSame(SkipBlanks(t), u);
    }
  }

  lemma WordSame(t: string, u: string, kw: string)
    requires t != "" && Benign(u) && forall i :: 0 <= i < |kw| ==> IsAlpha(kw[i])
    ensures WordAt(t + u, kw) <==> WordAt(t, kw)
  {
    var x := t + u;
    assert forall i :: 0 <= i < |t| ==> x[i] == t[i];
    assert |t| < |x| ==> x[|t|] == u[0] && !IsAlpha(Upper(u[0])) && !IsWord(u[0]);
  }

  // What follows a statement does not change how it is scanned.
  lemma StepSame(st: State, t: string, u: string)
    requires t != "" && Solid(t) && Benign(u)
    ensures Step(st, t + u) == Step(st, t) && (Cuts(st, t + u) <==> Cuts(st, t))
  {
    WordSame(t, u, "BEGIN");
    WordSame(t, u, "END");
    var x := t + u;
    assert x[0] == t[0];
    assert |t| >= 2 ==> x[1] == t[1];
    assert |t| == 1 && u != "" ==> x[1] == u[0];
    if WordAt(t, "END") {
      assert x[3..] == t[3..] + u;
      NextWordSame(t[3..], u);
    }
  }

  // A trimmed text, then white space: scanned like the text alone, then the white space
  lemma {:induction false} ThroughTrimmed(st: State, t: string, w: string, u: string)
    requires Solid(t) && Benign(w + u)
    ensures Through(st, t + w, u)
         == match Through(st, t, "") case None => None case Some(s) => Through(s, w, u)
    decreases |t|
  {
    if t == "" {
      assert t + w == w;
    } else {
      StepSame(st, t, w + u);
      assert t + w + u == t + (w + u) && t + "" == t;
      if !Cuts(st, t) {
        var (n, st') := Step(st, t);
        assert (t + w)[n..] == t[n..] + w;
        ThroughTrimmed(st', t[n..], w, u);
      }
    }
  }

  lemma StepSpace(st: State, rest: string)
    requires rest != "" && IsSpace(rest[0])
    ensures var (n, st') := Step(st, rest);
            n == 1 && st'.depth == st.depth && st'.lb && !Cuts(st, rest)
            && (st'.mode == st.mode || (st.mode == LineComment && st'.mode == Code))
  {
  }

  lemma {:induction false} LeadingSpace(w: string, t: string, u: string)
    requires AllSpace(w)
    ensures Through(FRESH, w + t, u) == Through(FRESH, t, u)
    decreases |w|
  {
    if w == "" {
      assert w + t == t;
    } else {
      assert (w + t + u)[0] == w[0];
      StepSpace(FRESH, w + t + u);
      assert (w + t)[1..] == w[1..] + t;
      LeadingSpace(w[1..], t, u);
    }
  }

  // The scanner may stop here: outside blocks, and in no literal or block comment
  predicate Closed(st: State) { st.depth == 0 && (st.mode == Code || st.mode == LineComment) }

  lemma {:induction false} ClosedBefore(st: State, w: string, u: string)
    requires AllSpace(w) && Through(st, w, u).Some? && Closed(Through(st, w, u).value)
    ensures Closed(st)
    decreases |w|
  {
    if w != "" {
      StepSpace(st, w + u);
      ClosedBefore(Step(st, w + u).1, w[1..], u);
    }
  }

  lemma {:induction false} BenignSpace(w: string, u: string)
    requires AllSpace(w) && (u == "" || u[0] == ';')
    ensures Benign(w + u)
    decreases |w|
  {
    if w == "" {
      assert w + u == u;
    } else {
      assert (w + u)[1..] == w[1..] + u;
      BenignSpace(w[1..], u);
    }
  }

  // ------------------------------------------------------------------------------------------
  // Stable

  // A text that the scanner takes for one statement
  predicate Whole(t: string) { t != "" && Trimmed(t) && Through(FRESH, t, "").Some? }

  predicate WholeClosed(t: string) { Whole(t) && Closed(Through(FRESH, t, "").value) }

  // All statements are whole, and all but the last leave the scanner closed.
  predicate Chain(ts: seq<string>) {
    forall k :: 0 <= k < |ts| ==> if k < |ts| - 1 then WholeClosed(ts[k]) else Whole(ts[k])
  }

  lemma PieceWhole(p: string, r: string)
    requires Trim(p) != "" && Through(FRESH, p, r).Some? && (r == "" || r[0] == ';')
    ensures Whole(Trim(p))
    ensures Closed(Through(FRESH, p, r).value) ==> WholeClosed(Trim(p))
  {
    hide TrimLeft, TrimRight, Through;
    var w1, w2 := TrimSplit(p);
    var t := Trim(p);
    assert p == w1 + (t + w2);
    LeadingSpace(w1, t + w2, r);
    BenignSpace(w2, r);
    ThroughTrimmed(FRESH, t, w2, r);
    if Closed(Through(FRESH, p, r).value) { ClosedBefore(Through(FRESH, t, "").value, w2, r); }
  }

  lemma ChainCons(keep: seq<string>, rest: seq<string>)
    requires |keep| <= 1 && Chain(rest)
    requires keep != [] ==> Whole(keep[0]) && (rest != [] ==> WholeClosed(keep[0]))
    ensures Chain(keep + rest)
  {
    hide Whole, WholeClosed;
    var ts := keep + rest;
    forall k | 0 <= k < |ts| ensures if k < |ts| - 1 then WholeClosed(ts[k]) else Whole(ts[k]) {
      if k >= |keep| { assert ts[k] == rest[k - |keep|]; }
    }
  }

  lemma {:induction false} OutputChain(input: string)
    ensures Chain(Output(input))
    decreases |input|
  {
    hide TrimLeft, TrimRight, Through, Rest, Output, Chain, WholeClosed, Whole;
    var r := Rest(FRESH, input);
    var p := input[..|input| - |r|];
    CutPlace(FRESH, input);
    if Trim(p) != "" { PieceWhole(p, r); }
    OutputStep(input, p, r);
    if r == "" {
      ChainNone();
      ChainCons(Keep(p), []);
    } else {
      OutputChain(r[1..]);
      ChainCons(Keep(p), Output(r[1..]));
    }
  }

  lemma ChainNone()
    ensures Chain([])
  {
  }

  lemma OutputFirst(input: string, t: string, w: string, r: string)
    requires input == t + w + r && Rest(FRESH, input) == r && t != "" && Trimmed(t) && AllSpace(w)
    ensures Output(input) == [t] + if r == "" then [] else Output(r[1..])
  {
    hide TrimLeft, TrimRight, Output, Rest;
    assert "" + t + w == t + w;
    TrimPad("", t, w);
    var p := input[..|input| - |r|];
    assert p == t + w;
    OutputStep(input, p, r);
  }

  // Splitting a statement gives just that statement.
  lemma SplitAgain(t: string)
    requires Whole(t)
    ensures Output(t) == [t]
  {
    assert t + "" == t && t + "" + "" == t;
    RestThrough(FRESH, t, "");
    OutputFirst(t, t, "", "");
  }

  lemma Resplit(input: string, k: nat)
    requires k < |Output(input)|
    ensures Output(Output(input)[k]) == [Output(input)[k]]
  {
    OutputChain(input);
    SplitAgain(Output(input)[k]);
  }

  lemma {:induction false} JoinChain(ts: seq<string>)
    requires Chain(ts) && ts != []
    ensures Output(Join(ts, "\n;")) == ts
    decreases |ts|
  {
    hide Through, TrimLeft, TrimRight, Rest;
    var t := ts[0];
    if |ts| == 1 {
      SplitAgain(t);
    } else {
      assert ts[1..][0] == ts[1];
      JoinChain(ts[1..]);
      var r := ";" + Join(ts[1..], "\n;");
      assert Join(ts, "\n;") == t + "\n" + r by { assert "\n;" + Join(ts[1..], "\n;") == "\n" + r; }
      CutAfterNewline(t, r);
      assert r[1..] == Join(ts[1..], "\n;");
      OutputFirst(t + "\n" + r, t, "\n", r);
    }
  }

  lemma CutAfterNewline(t: string, r: string)
    requires WholeClosed(t) && r != "" && r[0] == ';'
    ensures Rest(FRESH, t + "\n" + r) == r
  {
    BenignSpace("\n", r);
    ThroughTrimmed(FRESH, t, "\n", r);
    var st := Through(FRESH, t, "").value;
    assert Step(st, "\n" + r).1 == State(Code, 0, true);
    assert Through(st, "\n", r) == Some(FRESH);
    RestThrough(FRESH, t + "\n", r);
  }

  // The statements of any input, joined by line-break semicolons, split into the same statements: the line break
  // ends a trailing line comment before it can swallow the `;`.
  lemma JoinAgain(input: string)
    ensures Output(Join(Output(input), "\n;")) == Output(input)
  {
    OutputChain(input);
    if Output(input) == [] {
      EmptyOutput();
    } else {
      JoinChain(Output(input));
    }
  }

  lemma EmptyOutput()
    ensures Output("") == []
  {
    assert Pieces("") == [""];
    assert KeepAll([""]) == Keep("") + KeepAll([]);
  }

  lemma TrimLong(p: string, k: nat)
    requires k < |p| && !IsSpace(p[0]) && !IsSpace(p[k])
    ensures |Trim(p)| > k
  {
    hide TrimLeft, TrimRight;
    var w1, w2 := TrimSplit(p);
    InMiddle(w1, Trim(p), w2, 0);
    InMiddle(w1, Trim(p), w2, k);
  }

  // A bare `;` keeps two statements apart exactly when no line comment is open at the end of the first.
  lemma BareJoin(t: string, u: string)
    requires WholeClosed(t) && Whole(u)
    ensures Output(t + (";" + u)) == [t, u] <==> Through(FRESH, t, "").value.mode == Code
  {
    hide TrimLeft, TrimRight, Output, Keep;
    var st := Through(FRESH, t, "").value;
    var r := ";" + u;
    assert t + r == t + "" + r && t + "" == t;
    ThroughTrimmed(FRESH, t, "", r);
    RestThrough(FRESH, t, r);
    if st.mode == Code {
      assert Rest(st, r) == r && r[1..] == u;
      OutputFirst(t + r, t, "", r);
      SplitAgain(u);
    } else {
      CommentSwallows(t, u, st);
    }
  }

  lemma CommentSwallows(t: string, u: string, st: State)
    requires t != "" && Trimmed(t) && st.mode == LineComment && Rest(FRESH, t + (";" + u)) == Rest(st, ";" + u)
    ensures Output(t + (";" + u)) != [t, u]
  {
    hide TrimLeft, TrimRight, Output;
    var x, r := t + (";" + u), Rest(st, ";" + u);
    assert (";" + u)[1..] == u;
    assert r == Rest(Step(st, ";" + u).1, u);
    var p := x[..|x| - |r|];
    TrimLong(p, |t|);
    OutputStep(x, p, r);
    assert Keep(p)[0] != t;
    assert Output(x)[0] == Keep(p)[0];
  }

  // ------------------------------------------------------------------------------------------
  // The scanner itself, with its flags

  function ModeOf(inStr: bool, inLineCmt: bool, inBlockCmt: bool): Mode {
    if inLineCmt then LineComment else if inBlockCmt then BlockComment else if inStr then Literal else Code
  }

  function StateAt(input: string, i: nat, inStr: bool, inLineCmt: bool, inBlockCmt: bool, beginDepth: nat): State
    requires i <= |input|
  {
    State(ModeOf(inStr, inLineCmt, inBlockCmt), beginDepth, WbLeft(input, i))
  }

  // The loop at position i, with the current statement begun at b
  ghost predicate Scanning(input: string, stmts: seq<string>, cur: string, st: State, b: nat, i: nat) {
    && b <= i <= |input| && cur == input[b..i]
    && Rest(FRESH, input[b..]) == Rest(st, input[i..])
    && stmts + Output(input[b..]) == Output(input)
  }

  lemma ScanOn(input: string, stmts: seq<string>, cur: string, st: State, b: nat, i: nat)
    requires Scanning(input, stmts, cur, st, b, i) && i < |input| && !Cuts(st, input[i..])
    ensures var (n, st') := Step(st, input[i..]);
            i + n <= |input| && Scanning(input, stmts, cur + input[i..i + n], st', b, i + n)
  {
    hide Output, Step;
    var (n, st') := Step(st, input[i..]);
    assert input[i..][n..] == input[i + n..];
    assert Rest(st, input[i..]) == Rest(st', input[i + n..]);
  }

  lemma ScanCut(input: string, stmts: seq<string>, cur: string, st: State, b: nat, i: nat)
    requires Scanning(input, stmts, cur, st, b, i) && i < |input| && Cuts(st, input[i..])
    ensures Scanning(input, stmts + Keep(cur), "", FRESH, i + 1, i + 1)
  {
    hide Output, Step, TrimLeft, TrimRight;
    var r := input[i..];
    assert Rest(st, r) == r;
    assert input[b..][..|input[b..]| - |r|] == cur && r[1..] == input[i + 1..];
    OutputStep(input[b..], cur, r);
    assert stmts + Keep(cur) + Output(input[i + 1..]) == stmts + (Keep(cur) + Output(input[i + 1..]));
  }

  lemma ScanEnd(input: string, stmts: seq<string>, cur: string, st: State, b: nat)
    requires Scanning(input, stmts, cur, st, b, |input|)
    ensures stmts + Keep(cur) == Output(input)
  {
    hide Output, Step, TrimLeft, TrimRight;
    assert input[|input|..] == "" && Rest(st, "") == "";
    assert input[b..][..|input[b..]| - 0] == cur;
    OutputStep(input[b..], cur, "");
  }

  // What a round of the loop finds at position i
  lemma Round(input: string, i: nat, st: State)
    requires i < |input| && st.lb == WbLeft(input, i)
    ensures var c, next := input[i], if i + 1 < |input| then input[i + 1] else '\0';
            var (n, st') := Step(st, input[i..]);
            i + n <= |input| && st'.lb == WbLeft(input, i + n)
            && match st.mode
               case LineComment => n == 1 && st'.mode == if c == '\n' then Code else LineComment
               case BlockComment =>
                 if c == '*' && next == '/' then n == 2 && st'.mode == Code else n == 1 && st'.mode == BlockComment
               case Literal =>
                 if c == '\'' && next == '\'' then n == 2 && st'.mode == Literal
                 else n == 1 && st'.mode == if c == '\'' then Code else Literal
               case Code =>
                 if c == '-' && next == '-' then n == 1 && st'.mode == LineComment
                 else if c == '/' && next == '*' then n == 1 && st'.mode == BlockComment
                 else if c == '\'' then n == 1 && st'.mode == Literal
                 else st'.mode == Code
    ensures st.mode != Code ==> Step(st, input[i..]).1.depth == st.depth
    ensures st.mode == Code && input[i] in "-/';" ==> Step(st, input[i..]).1.depth == st.depth && Step(st, input[i..]).0 == 1
  {
    var x := input[i..];
    assert x[0] == input[i] && (i + 1 < |input| ==> x[1] == input[i + 1]);
    var (n, st') := Step(st, x);
    assert forall k :: 0 <= k < |x| ==> x[k] == input[i + k];
    assert input[i + n - 1] == x[n - 1];
  }

  // BEGIN and END at position i
  lemma WordRound(input: string, i: nat, st: State)
    requires i < |input| && st.lb == WbLeft(input, i) && st.mode == Code
    requires !Pair(input[i..], '-', '-') && !Pair(input[i..], '/', '*') && input[i] != '\''
    ensures var begins := Reads(input, i, "BEGIN") && WbLeft(input, i) && WbRight(input, i, 5);
            var ends := st.depth > 0 && Reads(input, i, "END") && WbLeft(input, i) && WbRight(input, i, 3);
            var (n, st') := Step(st, input[i..]);
            if begins then n == 5 && st'.depth == st.depth + 1
            else if ends then
              i + 3 <= |input| && n == 3
              && st'.depth == if ClosesOther(NextWord(input[i + 3..])) then st.depth else st.depth - 1
            else n == 1 && st'.depth == st.depth
  {
    ReadsAt(input, i, "BEGIN");
    ReadsAt(input, i, "END");
    if WordAt(input[i..], "END") { assert input[i..][3..] == input[i + 3..]; }
  }

  // The peek after END
  method PeekWord(input: string, from: nat) returns (nw: string)
    requires from <= |input|
    ensures nw == NextWord(input[from..])
  {
    var nx := from;
    while nx < |input| && input[nx] == ' '
      invariant from <= nx <= |input| && SkipBlanks(input[from..]) == SkipBlanks(input[nx..])
    {
      assert input[nx..][1..] == input[nx + 1..];
      nx := nx + 1;
    }
    assert SkipBlanks(input[nx..]) == input[nx..];
    nw := "";
    var j := nx;
    while j < |input| && IsAlpha(input[j])
      invariant nx <= j <= |input| && Letters(input[nx..]) == nw + Letters(input[j..])
    {
      assert input[j..][1..] == input[j + 1..];
      nw := nw + [Upper(input[j])];
      j := j + 1;
    }
  }

  method SplitStatements(input: string) returns (stmts: seq<string>)
    ensures stmts == Output(input)
  {
    hide Step, Output, Rest, Scanning, TrimLeft, TrimRight, Cuts;
    stmts := [];
    var cur := "";
    var beginDepth: nat := 0;
    var inStr, inLineCmt, inBlockCmt := false, false, false;
    var i: nat := 0;
    ghost var b: nat := 0;
    ScanStart(input);
    while i < |input|
      invariant i <= |input| && (inStr ==> !inLineCmt && !inBlockCmt) && (inLineCmt ==> !inBlockCmt)
      invariant Scanning(input, stmts, cur, StateAt(input, i, inStr, inLineCmt, inBlockCmt, beginDepth), b, i)
    {
      ghost var st := StateAt(input, i, inStr, inLineCmt, inBlockCmt, beginDepth);
      var c := input[i];
      Round(input, i, st);
      CutHere(input, i, st);
      if st.mode == Code && st.depth == 0 && c == ';' {
        ScanCut(input, stmts, cur, st, b, i);
      } else {
        ScanOn(input, stmts, cur, st, b, i);
      }
      if !inStr && !inBlockCmt && !inLineCmt && c == '-' && i + 1 < |input| && input[i + 1] == '-' {
        inLineCmt := true;
        cur, i := cur + input[i..i + 1], i + 1;
        continue;
      }
      if inLineCmt {
        if c == '\n' { inLineCmt := false; }
        cur, i := cur + input[i..i + 1], i + 1;
        continue;
      }
      if !inStr && !inBlockCmt && c == '/' && i + 1 < |input| && input[i + 1] == '*' {
        inBlockCmt := true;
        cur, i := cur + input[i..i + 1], i + 1;
        continue;
      }
      if inBlockCmt {
        if c == '*' && i + 1 < |input| && input[i + 1] == '/' {
          cur, i, inBlockCmt := cur + input[i..i + 2], i + 2, false;
        } else {
          cur, i := cur + input[i..i + 1], i + 1;
        }
        continue;
      }
      if !inStr && c == '\'' {
        inStr := true;
        cur, i := cur + input[i..i + 1], i + 1;
        continue;
      }
      if inStr {
        if c == '\'' && i + 1 < |input| && input[i + 1] == '\'' {
          cur, i := cur + input[i..i + 2], i + 2;
        } else {
          if c == '\'' { inStr := false; }
          cur, i := cur + input[i..i + 1], i + 1;
        }
        continue;
      }
      WordRound(input, i, st);
      if Reads(input, i, "BEGIN") && WbLeft(input, i) && WbRight(input, i, 5) {
        beginDepth := beginDepth + 1;
        cur, i := cur + input[i..i + 5], i + 5;
        continue;
      }
      if beginDepth > 0 && Reads(input, i, "END") && WbLeft(input, i) && WbRight(input, i, 3) {
        var nw := PeekWord(input, i + 3);
        if nw != "IF" && nw != "LOOP" && nw != "WHILE" && nw != "CASE" { beginDepth := beginDepth - 1; }
        cur, i := cur + input[i..i + 3], i + 3;
        continue;
      }
      if c == ';' && beginDepth == 0 {
        var s := PTrim(cur);
        assert stmts + [] == stmts;
        if s != "" { stmts := stmts + [s]; }
        cur, i, b := "", i + 1, i + 1;
      } else {
        cur, i := cur + input[i..i + 1], i + 1;
      }
    }
    ScanEnd(input, stmts, cur, StateAt(input, i, inStr, inLineCmt, inBlockCmt, beginDepth), b);
    var s := PTrim(cur);
    if s != "" { stmts := stmts + [s]; }
  }

  lemma ScanStart(input: string)
    ensures Scanning(input, [], "", FRESH, 0, 0)
  {
    assert input[0..] == input;
  }

  lemma CutHere(input: string, i: nat, st: State)
    requires i < |input|
    ensures Cuts(st, input[i..]) <==> st.mode == Code && st.depth == 0 && input[i] == ';'
  {
  }
}
