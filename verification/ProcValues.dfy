/** What the simple statements of a procedure leave behind, told of their texts: the value of every variable, and where
    every cursor stands. */
module ProcValues {
  import opened Text
  import opened ProcText
  import opened ProcSubst
  import Fields

  // ------------------------------------------------------------------------------------------
  // Variables

  // The variable holds the value, and every other variable what it held before.
  ghost predicate Assigned(after: seq<Var>, before: seq<Var>, name: string, val: string) {
    Sorted(after) && forall v: Var :: v in after <==> v == Var(name, val) || (v.name != name && v in before)
  }

  lemma {:induction false} PutHolds(vars: seq<Var>, name: string, val: string, v: Var)
    requires Sorted(vars)
    ensures v in Put(vars, name, val) <==> v == Var(name, val) || (v.name != name && v in vars)
  {
    hide Less, Sorted;
    if vars != [] {
      var head, rest := vars[0], vars[1..];
      assert vars == [head] + rest;
      SortedCons(head, rest);
      if head.name == name {
        if v in rest { AboveFirst(head, rest, v); }
      } else if Less(name, head.name) {
        if v in rest { AboveFirst(head, rest, v); LessTrans(name, head.name, v.name); }
        NotBelowItself(name);
      } else {
        PutHolds(rest, name, val, v);
      }
    }
  }

  lemma AboveFirst(head: Var, rest: seq<Var>, v: Var)
    requires Under(head.name, rest) && v in rest
    ensures Less(head.name, v.name) && head.name != v.name
  {
    hide Less;
    NotBelowItself(head.name);
  }

  lemma {:induction false} NotBelowItself(a: string)
    ensures !Less(a, a)
    decreases |a|
  {
    if a != "" { NotBelowItself(a[1..]); }
  }

  // The map stores one value under the name and keeps all others.
  lemma PutAssigns(vars: seq<Var>, name: string, val: string)
    requires Sorted(vars)
    ensures Assigned(Put(vars, name, val), vars, name, val)
  {
    hide Put, Sorted;
    PutSorted(vars, name, val);
    forall v: Var
      ensures v in Put(vars, name, val) <==> v == Var(name, val) || (v.name != name && v in vars)
    {
      PutHolds(vars, name, val, v);
    }
  }

  // Looking a name up finds exactly the value that it holds.
  lemma {:induction false} ValueHolds(vars: seq<Var>, name: string, val: string)
    requires Sorted(vars)
    ensures ValueOf(vars, name) == Some(val) <==> Var(name, val) in vars
  {
    hide Less, Sorted;
    if vars != [] {
      var head, rest := vars[0], vars[1..];
      assert vars == [head] + rest;
      SortedCons(head, rest);
      if head.name == name {
        if Var(name, val) in rest { AboveFirst(head, rest, Var(name, val)); }
      } else {
        ValueHolds(rest, name, val);
      }
    }
  }

  lemma {:induction false} ValueMissing(vars: seq<Var>, name: string)
    ensures ValueOf(vars, name).None? <==> forall val :: Var(name, val) !in vars
  {
    if vars != [] {
      ValueMissing(vars[1..], name);
      assert vars == [vars[0]] + vars[1..];
      if vars[0].name == name { assert Var(name, vars[0].val) in vars; }
    }
  }

  // Exactly a text in a pair of equal quotes loses them.
  lemma QuotesDropped(t: string)
    ensures StripQ("'" + t + "'") == t && StripQ("\"" + t + "\"") == t
  {
  }

  lemma QuotesKept(t: string)
    requires forall u :: t != "'" + u + "'" && t != "\"" + u + "\""
    ensures StripQ(t) == t
  {
    if |t| >= 2 {
      var u := t[1..|t| - 1];
      assert t == [t[0]] + u + [t[|t| - 1]];
    }
  }

  // ------------------------------------------------------------------------------------------
  // SET

  // Everything but the variables is as it was.
  ghost predicate OnlyVars<D>(p: Progress<State<D>>, s: State<D>) { p.Live? && p.s == s.(vars := p.s.vars) }

  lemma TrimLeftMid(a: string, c: char, b: string)
    requires !IsSpace(c)
    ensures TrimLeft(a + [c] + b) == TrimLeft(a) + [c] + b
  {
    TrimLeftCut(a);
    var w := a[..|a| - |TrimLeft(a)|];
    var t := TrimLeft(a) + [c] + b;
    assert a + [c] + b == w + t;
    TrimLeftPad(w, t);
    assert t[0] == if TrimLeft(a) == "" then c else TrimLeft(a)[0];
  }

  lemma TrimRightMid(a: string, c: char, b: string)
    requires !IsSpace(c)
    ensures TrimRight(a + [c] + b) == a + [c] + TrimRight(b)
  {
    TrimRightCut(b);
    var w := b[|TrimRight(b)|..];
    var t := a + [c] + TrimRight(b);
    assert a + [c] + b == t + w;
    TrimRightPad(t, w);
    assert t[|t| - 1] == if TrimRight(b) == "" then c else TrimRight(b)[|TrimRight(b)| - 1];
  }

  lemma {:induction false} TrimLeftAgain(a: string)
    ensures Trim(TrimLeft(a)) == Trim(a)
  {
  }

  lemma SpaceBoth(a: string, b: string)
    requires AllSpace(a) && AllSpace(b)
    ensures AllSpace(a + b)
  {
  }

  lemma TrimRightAgain(a: string)
    ensures Trim(TrimRight(a)) == Trim(a)
  {
    hide TrimLeft, TrimRight, Trim, AllSpace;
    TrimRightCut(a);
    var w := a[|TrimRight(a)|..];
    var u1, u2 := TrimSplit(TrimRight(a));
    var t := Trim(TrimRight(a));
    assert a == TrimRight(a) + w == u1 + t + (u2 + w);
    SpaceBoth(u2, w);
    TrimPad(u1, t, u2 + w);
  }

  // SET x = e: the variable named before the first equals sign holds the value, whatever white space there is.
  lemma SetAssigns<D>(host: Host<D>, kw: string, left: string, right: string, s: State<D>)
    requires Sorted(s.vars) && Pu(kw) == "SET " && '=' !in left
    ensures var p := Step(host, kw + (left + "=" + right), s);
            OnlyVars(p, s) && Assigned(p.s.vars, s.vars, Trim(left), SetValue(host, Trim(right), s.vars))
  {
    hide Put, TrimLeft, TrimRight, SetValue, Sorted, Declare, Fetch, Open, Assigned, SubstAll, Pu, CursorName;
    var stmt := kw + (left + "=" + right);
    KwAt(kw, "SET ", left + "=" + right);
    assert |kw| == 4 by { PuLength(kw); }
    assert stmt[4..] == left + "=" + right;
    var rest := Trim(stmt[4..]);
    TrimLeftMid(left, '=', right);
    TrimRightMid(TrimLeft(left), '=', right);
    var l, r := TrimLeft(left), TrimRight(right);
    assert rest == l + ("=" + r);
    TrimLeftKeeps(left, '=');
    FindPart(l, '=', "=" + r);
    assert rest[..|l|] == l && rest[|l| + 1..] == r;
    TrimLeftAgain(left);
    TrimRightAgain(right);
    NotPrefixed(stmt, "SET ", "DECLARE ", 0);
    PutAssigns(s.vars, Trim(left), SetValue(host, Trim(right), s.vars));
  }

  lemma {:induction false} TrimLeftKeeps(a: string, c: char)
    requires c !in a
    ensures c !in TrimLeft(a)
  {
    if a != "" && IsSpace(a[0]) { TrimLeftKeeps(a[1..], c); }
  }

  lemma PuLength(s: string)
    ensures |Pu(s)| == |s|
  {
  }

  // A statement that starts with kw
  lemma KwAt(kw: string, upper: string, t: string)
    requires Pu(kw) == upper && t != ""
    ensures Prefixed(kw + t, upper)
  {
    forall i | 0 <= i < |upper| ensures Upper((kw + t)[i]) == upper[i] { assert Pu(kw)[i] == upper[i]; }
  }

  lemma NotPrefixed(stmt: string, kw: string, other: string, i: nat)
    requires Prefixed(stmt, kw) && i < |kw| && i < |other| && kw[i] != other[i]
    ensures !Prefixed(stmt, other)
  {
  }

  // SET without an equals sign changes nothing.
  lemma SetNothing<D>(host: Host<D>, kw: string, t: string, s: State<D>)
    requires Pu(kw) == "SET " && t != "" && '=' !in t
    ensures Step(host, kw + t, s) == Live(s)
  {
    KwAt(kw, "SET ", t);
    hide TrimLeft, TrimRight, Declare, Fetch, Open;
    assert (kw + t)[4..] == t;
    NotPrefixed(kw + t, "SET ", "DECLARE ", 0);
    TrimKeeps(t, '=');
  }

  lemma TrimKeeps(a: string, c: char)
    requires c !in a
    ensures c !in Trim(a)
  {
    hide Trim;
    var w1, w2 := TrimSplit(a);
    forall i | 0 <= i < |Trim(a)| ensures Trim(a)[i] != c { assert Trim(a)[i] == a[|w1| + i]; }
  }

  // One word: the value of the variable of that name, or the word itself, without its quotes
  lemma SetWord<D>(host: Host<D>, w: string, vars: seq<Var>)
    requires Sorted(vars) && IsToken(w)
    ensures forall val :: Var(w, val) in vars ==> SetValue(host, w, vars) == StripQ(val)
    ensures (forall val :: Var(w, val) !in vars) ==> SetValue(host, w, vars) == StripQ(w)
  {
    hide Words, StripQ, ValueOf;
    OneWord(w);
    forall val | Var(w, val) in vars ensures SetValue(host, w, vars) == StripQ(val) { ValueHolds(vars, w, val); }
    ValueMissing(vars, w);
  }

  // Two operands and an arithmetic operator between them: the result, the text itself on a division by zero, and the left
  // operand when one of them is no number
  lemma SetArithmetic<D>(host: Host<D>, a: string, op: string, b: string, gap: string, vars: seq<Var>)
    requires IsToken(a) && IsToken(b) && op in ["+", "-", "*", "/"] && gap != "" && AllSpace(gap)
    ensures SetValue(host, a + gap + op + gap + b, vars) ==
            match host.arith(op, Resolve(a, vars), Resolve(b, vars))
            case Number(text) => text
            case ByZero => a + gap + op + gap + b
            case NoNumber => Resolve(a, vars)
  {
    hide Words, Resolve;
    assert IsToken(op);
    var ws := [a, op, b];
    assert ws[1..] == [op, b] && ws[1..][1..] == [b] && Spaced([b], gap) == b;
    assert Spaced(ws[1..], gap) == op + (gap + b);
    assert Spaced(ws, gap) == a + gap + op + gap + b;
    WordsSpaced(ws, gap);
  }

  // ------------------------------------------------------------------------------------------
  // Conditions

  // The condition of two operands with op between them
  predicate Holds<D>(host: Host<D>, a: string, op: string, b: string, gap: string, vars: seq<Var>) {
    EvalCond(host, Spaced([a, op, b], gap), vars)
  }

  lemma CondRead<D>(host: Host<D>, a: string, op: string, b: string, gap: string, vars: seq<Var>)
    requires IsToken(a) && IsToken(b) && IsToken(op) && gap != "" && AllSpace(gap)
    requires host.compare(op, Resolve(a, vars), Resolve(b, vars)) == None
    ensures var l, r := Resolve(a, vars), Resolve(b, vars);
            && (op == "=" ==> (Holds(host, a, op, b, gap, vars) <==> l == r))
            && (op == "!=" || op == "<>" ==> (Holds(host, a, op, b, gap, vars) <==> l != r))
            && (op == "<" ==> (Holds(host, a, op, b, gap, vars) <==> Less(l, r)))
            && (op == ">" ==> (Holds(host, a, op, b, gap, vars) <==> Less(r, l)))
            && (op == "<=" ==> (Holds(host, a, op, b, gap, vars) <==> !Less(r, l)))
            && (op == ">=" ==> (Holds(host, a, op, b, gap, vars) <==> !Less(l, r)))
  {
    hide Words, Resolve, Less, Spaced;
    WordsSpaced([a, op, b], gap);
  }

  // Without two numbers the texts are compared: <= is the opposite of >, >= of <, and != of =; and exactly one of <, = and
  // > holds.
  lemma CondOpposites<D>(host: Host<D>, a: string, b: string, gap: string, vars: seq<Var>)
    requires IsToken(a) && IsToken(b) && gap != "" && AllSpace(gap)
    requires forall op :: host.compare(op, Resolve(a, vars), Resolve(b, vars)) == None
    ensures var holds := (op: string) => Holds(host, a, op, b, gap, vars);
            && (holds("=") <==> Resolve(a, vars) == Resolve(b, vars))
            && (holds("!=") <==> !holds("=")) && (holds("<>") <==> !holds("="))
            && (holds("<=") <==> holds("<") || holds("=")) && (holds(">=") <==> holds(">") || holds("="))
            && (holds("<=") <==> !holds(">")) && (holds(">=") <==> !holds("<"))
  {
    hide Words, Resolve, Less, Holds;
    var l, r := Resolve(a, vars), Resolve(b, vars);
    CondRead(host, a, "=", b, gap, vars);
    CondRead(host, a, "!=", b, gap, vars);
    CondRead(host, a, "<>", b, gap, vars);
    CondRead(host, a, "<", b, gap, vars);
    CondRead(host, a, ">", b, gap, vars);
    CondRead(host, a, "<=", b, gap, vars);
    CondRead(host, a, ">=", b, gap, vars);
    LessTotal(l, r);
    NotBelowItself(l);
    if Less(l, r) && Less(r, l) { LessTrans(l, r, l); }
  }

  // A single word is a condition: it holds unless its value is empty or 0.
  lemma CondWord<D>(host: Host<D>, w: string, vars: seq<Var>)
    requires IsToken(w)
    ensures EvalCond(host, w, vars) <==> Resolve(w, vars) != "" && Resolve(w, vars) != "0"
  {
    hide Words, Resolve;
    OneWord(w);
  }

  // No word or two are no condition that holds; of more than three words only the first three count.
  lemma CondLength<D>(host: Host<D>, ws: seq<string>, gap: string, vars: seq<Var>)
    requires AllTokens(ws) && gap != "" && AllSpace(gap)
    ensures |ws| == 0 || |ws| == 2 ==> !EvalCond(host, Spaced(ws, gap), vars)
    ensures |ws| >= 3 ==> EvalCond(host, Spaced(ws, gap), vars) == EvalCond(host, Spaced(ws[..3], gap), vars)
  {
    hide Words, Resolve, Spaced, Less;
    WordsSpaced(ws, gap);
    if |ws| >= 3 { WordsSpaced(ws[..3], gap); }
  }

  // The order of texts: a proper prefix comes first, and else the first character that differs decides.
  lemma {:induction false} LessOrder(p: string, c: char, x: string, d: char, y: string)
    requires c != d
    ensures Less(p + ([c] + x), p + ([d] + y)) <==> c < d
    ensures Less(p, p + ([c] + x)) && !Less(p + ([c] + x), p)
    decreases |p|
  {
    if p == "" {
      assert p + ([c] + x) == [c] + x && p + ([d] + y) == [d] + y;
    } else {
      LessOrder(p[1..], c, x, d, y);
      assert (p + ([c] + x))[1..] == p[1..] + ([c] + x) && (p + ([d] + y))[1..] == p[1..] + ([d] + y);
    }
  }

  // ------------------------------------------------------------------------------------------
  // DECLARE

  // CONTINUE HANDLER FOR NOT FOUND SET, in any letter case
  predicate HandlerWords(ws: seq<string>) {
    && |ws| >= 10 && Pu(ws[1]) == "CONTINUE" && Pu(ws[2]) == "HANDLER" && Pu(ws[3]) == "FOR" && Pu(ws[4]) == "NOT"
    && Pu(ws[5]) == "FOUND" && Pu(ws[6]) == "SET"
  }

  predicate ForCursor(stmt: string) { exists q :: 0 <= q < |stmt| && OccursAt(Pu(stmt), q, " CURSOR FOR ") }

  predicate AllTokens(ws: seq<string>) { forall i :: 0 <= i < |ws| ==> IsToken(ws[i]) }

  lemma SpacedPrefix(ws: seq<string>, gap: string, kw: string)
    requires |ws| >= 2 && AllTokens(ws) && AllSpace(gap) && gap != "" && gap[0] == ' ' && Pu(ws[0]) == kw
    ensures Prefixed(Spaced(ws, gap), kw + " ")
  {
    assert ws[1] != "" && Spaced(ws, gap) == ws[0] + (gap + Spaced(ws[1..], gap));
    assert |Spaced(ws[1..], gap)| >= 1 by { assert ws[1..][0] == ws[1]; }
    forall i | 0 <= i < |kw| ensures Upper(Spaced(ws, gap)[i]) == kw[i] { assert Pu(ws[0])[i] == kw[i]; }
  }

  // DECLARE x TYPE ...: the variable starts with the value that its type and DEFAULT give.
  lemma DeclareAssigns<D>(host: Host<D>, ws: seq<string>, gap: string, s: State<D>)
    requires Sorted(s.vars) && |ws| >= 3 && AllTokens(ws) && AllSpace(gap) && gap != "" && gap[0] == ' '
    requires Pu(ws[0]) == "DECLARE" && !HandlerWords(ws) && !ForCursor(Spaced(ws, gap))
    ensures var p := Step(host, Spaced(ws, gap), s);
            OnlyVars(p, s) && Assigned(p.s.vars, s.vars, ws[1], Initial(ws))
  {
    hide Words, Put, Sorted, Initial, Spaced;
    WordsSpaced(ws, gap);
    SpacedPrefix(ws, gap, "DECLARE");
    PutAssigns(s.vars, ws[1], Initial(ws));
    NoCursor(Spaced(ws, gap));
  }

  lemma NoCursor(stmt: string)
    requires !ForCursor(stmt)
    ensures FindFrom(Pu(stmt), " CURSOR FOR ", 0).None?
  {
  }

  // The handler remembers the variable and the value behind SET.
  lemma DeclareHandler<D>(host: Host<D>, ws: seq<string>, gap: string, s: State<D>)
    requires AllTokens(ws) && AllSpace(gap) && gap != "" && gap[0] == ' '
    requires HandlerWords(ws) && Pu(ws[0]) == "DECLARE"
    ensures Step(host, Spaced(ws, gap), s) == Live(s.(notFoundVar := ws[7], notFoundVal := ws[9], hasHandler := true))
  {
    hide Words, Spaced;
    WordsSpaced(ws, gap);
    SpacedPrefix(ws, gap, "DECLARE");
  }

  // A type whose name holds CHAR or TEXT in any letter case
  predicate CharType(ty: string) {
    exists q :: 0 <= q < |ty| && (OccursAt(Pu(ty), q, "CHAR") || OccursAt(Pu(ty), q, "TEXT"))
  }

  lemma TypeOfText(ty: string)
    ensures TextType(ty) <==> CharType(ty)
  {
    var t := Pu(ty);
    var v, c, x := FindFrom(t, "VARCHAR", 0), FindFrom(t, "CHAR", 0), FindFrom(t, "TEXT", 0);
    if v.Some? { assert t[v.value + 3..v.value + 7] == t[v.value..v.value + 7][3..] == "CHAR"; }
    if v.Some? { assert OccursAt(t, v.value + 3, "CHAR"); }
    if c.Some? { assert OccursAt(t, c.value, "CHAR"); }
    if x.Some? { assert OccursAt(t, x.value, "TEXT"); }
  }

  predicate DefaultAt(ws: seq<string>, k: nat) { 2 <= k && k + 1 < |ws| && Pu(ws[k]) == "DEFAULT" }

  // Without DEFAULT a variable starts at 0, or empty when its type is one of texts; the first DEFAULT counts, and a text
  // with the default 0 starts empty.
  lemma InitialValue(ws: seq<string>)
    requires |ws| >= 3
    ensures (forall k :: 2 <= k < |ws| ==> !DefaultAt(ws, k)) ==> Initial(ws) == if CharType(ws[2]) then "" else "0"
    ensures forall k :: 2 <= k < |ws| && DefaultAt(ws, k) && (forall j :: 2 <= j < k ==> !DefaultAt(ws, j)) ==>
              Initial(ws) == if CharType(ws[2]) && StripQ(ws[k + 1]) == "0" then "" else StripQ(ws[k + 1])
  {
    hide StripQ, TextType, CharType;
    TypeOfText(ws[2]);
    if forall k :: 2 <= k < |ws| ==> !DefaultAt(ws, k) { NoDefault(ws, 2); }
    forall k | 2 <= k < |ws| && DefaultAt(ws, k) && (forall j :: 2 <= j < k ==> !DefaultAt(ws, j))
      ensures DefaultOf(ws, 2) == StripQ(ws[k + 1])
    {
      FirstDefault(ws, 2, k);
    }
  }

  lemma {:induction false} NoDefault(ws: seq<string>, from: nat)
    requires from >= 2 && forall k :: from <= k < |ws| ==> !DefaultAt(ws, k)
    ensures DefaultOf(ws, from) == "0"
    decreases |ws| - from
  {
    hide StripQ;
    if from + 1 < |ws| {
      assert !DefaultAt(ws, from);
      NoDefault(ws, from + 1);
    }
  }

  lemma {:induction false} FirstDefault(ws: seq<string>, from: nat, k: nat)
    requires 2 <= from <= k && DefaultAt(ws, k) && forall j :: from <= j < k ==> !DefaultAt(ws, j)
    ensures DefaultOf(ws, from) == StripQ(ws[k + 1])
    decreases k - from
  {
    hide StripQ;
    if from < k {
      assert !DefaultAt(ws, from);
      FirstDefault(ws, from + 1, k);
    }
  }

  lemma PuConcat(a: string, b: string)
    ensures Pu(a + b) == Pu(a) + Pu(b)
  {
  }

  // A part that starts with a blank is found behind a text without blanks, unless it starts in front of it.
  lemma {:induction false} FoundBehind(s: string, part: string, from: nat, at: nat)
    requires from <= at && OccursAt(s, at, part) && forall q :: from <= q < at ==> !OccursAt(s, q, part)
    ensures FindFrom(s, part, from) == Some(at)
  {
  }

  // DECLARE c CURSOR FOR query: a closed cursor with the query, under the name in upper case
  lemma DeclareCursor<D>(host: Host<D>, kw: string, name: string, cf: string, sql: string, s: State<D>)
    requires Pu(kw) == "DECLARE " && IsToken(name) && Pu(cf) == " CURSOR FOR "
    ensures Step(host, kw + (name + (cf + sql)), s)
         == Live(s.(cursors := s.cursors[Pu(name) := Cursor(Trim(sql), [], 0, false)]))
  {
    hide Words, Put, TrimLeft, TrimRight, Trim, Initial, SetVar, Fetch, Open, SubstAll, Pu, OccursAt;
    PuLength(kw);
    PuLength(cf);
    PuLength(name);
    PuLength(sql);
    var stmt := kw + (name + (cf + sql));
    KwAt(kw, "DECLARE ", name + (cf + sql));
    PuConcat(kw, name + (cf + sql));
    PuConcat(name, cf + sql);
    PuConcat(cf, sql);
    var up := "DECLARE " + (Pu(name) + (" CURSOR FOR " + Pu(sql)));
    var at := 8 + |name|;
    assert Pu(stmt) == up && up[at..at + 12] == " CURSOR FOR ";
    assert OccursAt(up, at, " CURSOR FOR ") by { OccursHere(up, at, " CURSOR FOR "); }
    PuToken(name);
    NoEarlier(Pu(name), Pu(sql));
    FoundBehind(up, " CURSOR FOR ", 0, at);
    assert stmt[8..at] == name && stmt[at + 12..] == sql;
    assert Trim(name) == name by { TrimPad("", name, ""); assert "" + name + "" == name; }
    NoHandler(stmt, kw, name, cf, sql);
  }

  lemma OccursHere(s: string, p: nat, part: string)
    requires p + |part| <= |s| && s[p..p + |part|] == part
    ensures OccursAt(s, p, part)
  {
  }

  lemma PuToken(w: string)
    requires IsToken(w)
    ensures Pu(w) != "" && forall i :: 0 <= i < |Pu(w)| ==> Pu(w)[i] != ' '
  {
  }

  lemma Differs(s: string, q: nat, part: string, i: nat)
    requires i < |part| && (q + i < |s| ==> s[q + i] != part[i])
    ensures !OccursAt(s, q, part)
  {
    if q + |part| <= |s| { assert s[q..q + |part|][i] == s[q + i]; }
  }

  lemma NoEarlier(n: string, t: string)
    requires n != "" && forall i :: 0 <= i < |n| ==> n[i] != ' '
    ensures forall q :: 0 <= q < 8 + |n| ==> !OccursAt("DECLARE " + (n + (" CURSOR FOR " + t)), q, " CURSOR FOR ")
  {
    hide OccursAt;
    var up, part := "DECLARE " + (n + (" CURSOR FOR " + t)), " CURSOR FOR ";
    assert forall i :: 0 <= i < |n| ==> up[8 + i] == n[i];
    assert up[8 + |n|] == ' ' && up[9 + |n|] == 'C';
    forall q | 0 <= q < 8 + |n| ensures !OccursAt(up, q, part) {
      if q != 7 {
        assert q >= 8 ==> up[q] == n[q - 8];
        Differs(up, q, part, 0);
      } else if |n| < 6 {
        Differs(up, q, part, 1 + |n|);
      } else {
        Differs(up, q, part, if |n| == 6 then 8 else 7);
      }
    }
  }

  lemma NoHandler(stmt: string, kw: string, name: string, cf: string, sql: string)
    requires Pu(kw) == "DECLARE " && IsToken(name) && Pu(cf) == " CURSOR FOR " && stmt == kw + (name + (cf + sql))
    ensures !HandlerWords(Words(stmt))
  {
    hide Words;
    var d, c := kw[..7], cf[1..7];
    assert Pu(kw)[7] == ' ' && Pu(cf)[0] == ' ' && Pu(cf)[7] == ' ';
    forall i | 0 <= i < 7 ensures !IsSpace(d[i]) { assert Upper(d[i]) == Pu(kw)[i]; }
    forall i | 0 <= i < 6 ensures !IsSpace(c[i]) && Upper(c[i]) == "CURSOR"[i] { assert Upper(c[i]) == Pu(cf)[i + 1]; }
    var t := cf[7..] + sql;
    var u := " " + (c + t);
    WordsFirst("", d, " " + (name + u));
    WordsFirst(" ", name, u);
    WordsFirst(" ", c, t);
    assert stmt == "" + (d + (" " + (name + u)));
    assert Words(stmt)[2] == c && Upper(c[0]) == 'C';
    assert Pu(c)[0] == 'C';
  }

  // ------------------------------------------------------------------------------------------
  // Cursors

  // Every variable listed once holds its column of the row, and no other variable has changed.
  ghost predicate Loaded(after: seq<Var>, before: seq<Var>, names: seq<string>, row: seq<string>)
    requires |names| <= |row|
  {
    && Sorted(after)
    && (forall k :: 0 <= k < |names| && names[k] !in names[k + 1..] ==> Var(names[k], StripQ(row[k])) in after)
    && (forall v: Var :: v.name !in names ==> (v in after <==> v in before))
  }

  // Of a list and a row of different lengths, as much as both have
  function Both<T>(a: seq<string>, b: seq<T>): (r: seq<string>)
    ensures |r| <= |a| && |r| <= |b| && r == a[..|r|]
  {
    if |a| <= |b| then a else a[..|b|]
  }

  lemma {:induction false} RowLoads(vars: seq<Var>, names: seq<string>, row: seq<string>)
    requires Sorted(vars)
    ensures Loaded(PutRow(vars, names, row), vars, Both(names, row), row)
    decreases |names|
  {
    hide Sorted, Put, StripQ, Loaded, Both, Assigned;
    if names == [] || row == [] {
      NothingLoaded(vars, names, row);
    } else {
      var first := Put(vars, names[0], StripQ(row[0]));
      PutAssigns(vars, names[0], StripQ(row[0]));
      AssignedSorted(first, vars, names[0], StripQ(row[0]));
      RowLoads(first, names[1..], row[1..]);
      LoadedFirst(PutRow(vars, names, row), first, vars, names, row);
    }
  }

  lemma NothingLoaded(vars: seq<Var>, names: seq<string>, row: seq<string>)
    requires Sorted(vars) && (names == [] || row == [])
    ensures Loaded(vars, vars, Both(names, row), row)
  {
    hide Sorted;
  }

  lemma AssignedSorted(after: seq<Var>, before: seq<Var>, name: string, val: string)
    requires Assigned(after, before, name, val)
    ensures Sorted(after)
  {
  }

  // Storing the first value and then the others
  lemma LoadedFirst(after: seq<Var>, mid: seq<Var>, before: seq<Var>, names: seq<string>, row: seq<string>)
    requires names != [] && row != [] && Assigned(mid, before, names[0], StripQ(row[0]))
    requires Loaded(after, mid, Both(names[1..], row[1..]), row[1..])
    ensures Loaded(after, before, Both(names, row), row)
  {
    hide Sorted, StripQ, Assigned;
    var n, rest := Both(names, row), Both(names[1..], row[1..]);
    assert n == [names[0]] + rest;
    AssignedHolds(mid, before, names[0], StripQ(row[0]));
    forall k | 0 <= k < |n| && n[k] !in n[k + 1..] ensures Var(n[k], StripQ(row[k])) in after {
      if k > 0 {
        assert rest[k - 1] == n[k] && rest[k..] == n[k + 1..] && row[1..][k - 1] == row[k];
      } else {
        assert n[1..] == rest;
      }
    }
    forall v: Var | v.name !in n ensures v in after <==> v in before {
      assert n[0] == names[0] && v.name !in rest;
      AssignedElse(mid, before, names[0], StripQ(row[0]), v);
    }
  }

  lemma AssignedHolds(after: seq<Var>, before: seq<Var>, name: string, val: string)
    requires Assigned(after, before, name, val)
    ensures Var(name, val) in after
  {
  }

  lemma AssignedElse(after: seq<Var>, before: seq<Var>, name: string, val: string, v: Var)
    requires Assigned(after, before, name, val) && v.name != name
    ensures v in after <==> v in before
  {
  }

  // The names in a list cut at commas
  function Trims(parts: seq<string>): (r: seq<string>)
    ensures |r| == |parts| && forall i :: 0 <= i < |parts| ==> r[i] == Trim(parts[i])
  {
    seq(|parts|, i requires 0 <= i < |parts| => Trim(parts[i]))
  }

  lemma FetchSplit(kw: string, cur: string, into: string, list: string)
    requires Pu(kw) == "FETCH " && IsToken(cur) && Pu(into) == " INTO " && Trim(list) != ""
    ensures FetchParts(kw + (cur + (into + list))) == Some((Pu(cur), TrimAll(Fields.GetLines(Trim(list), ','))))
  {
    hide TrimLeft, TrimRight, Trim, Fields.GetLines, TrimAll, Pu, OccursAt;
    PuLength(kw);
    PuLength(cur);
    PuLength(into);
    PuToken(cur);
    var stmt := kw + (cur + (into + list));
    assert stmt[6..] == cur + (into + list);
    var w1, w2 := TrimSplit(list);
    var t := w1 + Trim(list);
    var rest := cur + (into + t);
    assert cur + (into + list) == "" + rest + w2;
    RestTrimmed(cur, into, t);
    TrimPad("", rest, w2);
    PuConcat(cur, into + t);
    PuConcat(into, t);
    NoEarlierInto(Pu(cur), Pu(t));
    assert Pu(rest)[|cur|..|cur| + 6] == " INTO ";
    OccursHere(Pu(rest), |cur|, " INTO ");
    FoundBehind(Pu(rest), " INTO ", 0, |cur|);
    assert rest[..|cur|] == cur && rest[|cur| + 6..] == t;
    TrimWord(cur);
    TrimPad(w1, Trim(list), "");
    assert w1 + Trim(list) + "" == t;
  }

  lemma RestTrimmed(cur: string, into: string, t: string)
    requires IsToken(cur) && t != "" && !IsSpace(t[|t| - 1])
    ensures Trimmed(cur + (into + t))
  {
  }

  lemma TrimWord(w: string)
    requires IsToken(w)
    ensures Trim(w) == w
  {
    TrimPad("", w, "");
    assert "" + w + "" == w;
  }

  lemma NoEarlierInto(n: string, t: string)
    requires n != "" && forall i :: 0 <= i < |n| ==> n[i] != ' '
    ensures forall q :: 0 <= q < |n| ==> !OccursAt(n + (" INTO " + t), q, " INTO ")
  {
    var up := n + (" INTO " + t);
    forall q | 0 <= q < |n| ensures !OccursAt(up, q, " INTO ") { Differs(up, q, " INTO ", 0); }
  }

  // The list without the white space at its two ends
  function CutEnds(parts: seq<string>): (r: seq<string>)
    requires parts != []
    ensures |r| == |parts|
  {
    CutRight(CutLeft(parts))
  }

  function CutLeft(parts: seq<string>): (r: seq<string>)
    requires parts != []
    ensures |r| == |parts|
  {
    [TrimLeft(parts[0])] + parts[1..]
  }

  function CutRight(parts: seq<string>): (r: seq<string>)
    requires parts != []
    ensures |r| == |parts|
  {
    parts[..|parts| - 1] + [TrimRight(parts[|parts| - 1])]
  }

  predicate NoCommas(parts: seq<string>) { forall i :: 0 <= i < |parts| ==> ',' !in parts[i] }

  lemma JoinOnly(p: string)
    ensures Fields.JoinOn([p], ',') == p
  {
  }

  lemma CommaIsNoSpace()
    ensures !IsSpace(',')
  {
  }

  lemma JoinLeft(parts: seq<string>)
    requires parts != [] && NoCommas(parts)
    ensures TrimLeft(Fields.JoinOn(parts, ',')) == Fields.JoinOn(CutLeft(parts), ',') && NoCommas(CutLeft(parts))
  {
    hide TrimLeft, Fields.JoinOn, IsSpace;
    CommaIsNoSpace();
    TrimLeftKeeps(parts[0], ',');
    var rest := parts[1..];
    assert parts == [parts[0]] + rest;
    if rest == [] {
      assert CutLeft(parts) == [TrimLeft(parts[0])] && parts == [parts[0]];
      JoinOnly(parts[0]);
      JoinOnly(TrimLeft(parts[0]));
    } else {
      Fields.JoinFirst(parts[0], rest, ',');
      Fields.JoinFirst(TrimLeft(parts[0]), rest, ',');
      TrimLeftMid(parts[0], ',', Fields.JoinOn(rest, ','));
    }
  }

  lemma JoinRight(parts: seq<string>)
    requires parts != [] && NoCommas(parts)
    ensures TrimRight(Fields.JoinOn(parts, ',')) == Fields.JoinOn(CutRight(parts), ',') && NoCommas(CutRight(parts))
  {
    hide TrimRight, Fields.JoinOn, IsSpace;
    CommaIsNoSpace();
    var n := |parts| - 1;
    TrimRightKeeps(parts[n], ',');
    var init := parts[..n];
    assert parts == init + [parts[n]];
    if init == [] {
      assert CutRight(parts) == [TrimRight(parts[0])];
      JoinOnly(parts[0]);
      JoinOnly(TrimRight(parts[0]));
    } else {
      Fields.JoinLast(init, parts[n], ',');
      Fields.JoinLast(init, TrimRight(parts[n]), ',');
      TrimRightMid(Fields.JoinOn(init, ','), ',', parts[n]);
    }
  }

  lemma TrimRightKeeps(a: string, c: char)
    requires c !in a
    ensures c !in TrimRight(a)
  {
    TrimRightCut(a);
    forall i | 0 <= i < |TrimRight(a)| ensures TrimRight(a)[i] != c { assert TrimRight(a)[i] == a[i]; }
  }

  lemma {:induction false} TrimAllIs(parts: seq<string>)
    ensures TrimAll(parts) == Trims(parts)
  {
    if parts != [] { TrimAllIs(parts[1..]); }
  }

  lemma TrimsCut(parts: seq<string>)
    requires parts != []
    ensures Trims(CutEnds(parts)) == Trims(parts)
  {
    hide TrimLeft, TrimRight, Trim;
    TrimLeftAgain(parts[0]);
    var left := CutLeft(parts);
    var n := |parts| - 1;
    TrimRightAgain(left[n]);
    forall i | 0 <= i <= n ensures Trim(CutEnds(parts)[i]) == Trim(parts[i]) {}
  }

  lemma TrimNone(a: string)
    requires Trim(a) == ""
    ensures TrimRight(a) == ""
  {
    hide TrimLeft, TrimRight;
    var w1, w2 := TrimSplit(a);
    assert a == "" + (w1 + w2);
    TrimRightPad("", w1 + w2);
    assert TrimRight("") == "" by { TrimRightCut(""); }
  }

  // The names written with commas between them, in whatever white space, are the names that are read; an empty one at the
  // end is lost.
  lemma NamesRead(parts: seq<string>)
    requires parts != [] && NoCommas(parts)
    ensures TrimAll(Fields.GetLines(Trim(Fields.JoinOn(parts, ',')), ',')) == Fields.DropEmptyEnd(Trims(parts))
  {
    hide TrimLeft, TrimRight, Fields.JoinOn, Fields.GetLines, Trims, CutLeft, CutRight;
    var cut, left, n := CutEnds(parts), CutLeft(parts), |parts| - 1;
    JoinLeft(parts);
    JoinRight(left);
    Fields.LinesJoined(cut, ',');
    TrimAllIs(Fields.DropEmptyEnd(cut));
    TrimsCut(parts);
    DropTrims(left);
  }

  lemma DropTrims(parts: seq<string>)
    requires parts != []
    ensures var cut := CutRight(parts); Trims(Fields.DropEmptyEnd(cut)) == Fields.DropEmptyEnd(Trims(cut))
  {
    hide TrimLeft, TrimRight, Trim;
    var n := |parts| - 1;
    var last := parts[n];
    TrimRightAgain(last);
    if Trim(last) == "" { TrimNone(last); TrimEmpty(); }
    if TrimRight(last) == "" { TrimEmpty(); }
    var cut := CutRight(parts);
    assert Trims(cut)[n] == Trim(TrimRight(last));
    assert Trims(cut)[..n] == Trims(cut[..n]);
  }

  lemma TrimEmpty()
    ensures Trim("") == ""
  {
  }

  // ------------------------------------------------------------------------------------------
  // FETCH, OPEN, CLOSE

  // FETCH cur INTO the names between the commas
  function FetchText(kw: string, cur: string, into: string, parts: seq<string>): string {
    kw + (cur + (into + Fields.JoinOn(parts, ',')))
  }

  predicate FetchWords(kw: string, cur: string, into: string, parts: seq<string>) {
    && Pu(kw) == "FETCH " && IsToken(cur) && Pu(into) == " INTO "
    && parts != [] && NoCommas(parts) && Trim(Fields.JoinOn(parts, ',')) != ""
  }

  function Names(parts: seq<string>): seq<string> { Fields.DropEmptyEnd(Trims(parts)) }

  lemma FetchIs<D>(host: Host<D>, kw: string, cur: string, into: string, parts: seq<string>, s: State<D>)
    requires FetchWords(kw, cur, into, parts)
    ensures |FetchText(kw, cur, into, parts)| > 6
    ensures FetchParts(FetchText(kw, cur, into, parts)) == Some((Pu(cur), Names(parts)))
    ensures Step(host, FetchText(kw, cur, into, parts), s) == Live(Fetch(FetchText(kw, cur, into, parts), s))
  {
    hide Pu, Trim, Fields.JoinOn, FetchParts, Trims, Declare, SetVar, Fetch, SubstAll, CursorName, Open;
    var list := Fields.JoinOn(parts, ',');
    var stmt := FetchText(kw, cur, into, parts);
    PuLength(kw);
    KwAt(kw, "FETCH ", cur + (into + list));
    NamesRead(parts);
    FetchSplit(kw, cur, into, list);
    NotPrefixed(stmt, "FETCH ", "DECLARE ", 0);
    NotPrefixed(stmt, "FETCH ", "SET ", 0);
    NotPrefixed(stmt, "FETCH ", "OPEN ", 0);
    NotPrefixed(stmt, "FETCH ", "CLOSE ", 0);
  }

  // The row at the cursor goes into the listed variables, and the cursor goes on by one.
  lemma FetchLoads<D>(host: Host<D>, kw: string, cur: string, into: string, parts: seq<string>, s: State<D>)
    requires Sorted(s.vars) && FetchWords(kw, cur, into, parts)
    requires Pu(cur) in s.cursors && s.cursors[Pu(cur)].pos < |s.cursors[Pu(cur)].rows|
    ensures var p, c := Step(host, FetchText(kw, cur, into, parts), s), s.cursors[Pu(cur)];
            && p.Live? && p.s == s.(vars := p.s.vars, cursors := s.cursors[Pu(cur) := c.(pos := c.pos + 1)])
            && Loaded(p.s.vars, s.vars, Both(Names(parts), c.rows[c.pos]), c.rows[c.pos])
  {
    hide Pu, Step, FetchText, FetchWords, FetchParts, PutRow, Loaded, Sorted, Names, Both;
    FetchIs(host, kw, cur, into, parts, s);
    var c := s.cursors[Pu(cur)];
    RowLoads(s.vars, Names(parts), c.rows[c.pos]);
  }

  // When the rows are used up, the handler's variable holds its value; without a handler nothing changes.
  lemma FetchEnds<D>(host: Host<D>, kw: string, cur: string, into: string, parts: seq<string>, s: State<D>)
    requires Sorted(s.vars) && FetchWords(kw, cur, into, parts)
    requires Pu(cur) in s.cursors ==> s.cursors[Pu(cur)].pos >= |s.cursors[Pu(cur)].rows|
    ensures var p := Step(host, FetchText(kw, cur, into, parts), s);
            if Pu(cur) in s.cursors && s.hasHandler && s.notFoundVar != ""
            then OnlyVars(p, s) && Assigned(p.s.vars, s.vars, s.notFoundVar, s.notFoundVal)
            else p == Live(s)
  {
    hide Pu, Step, FetchText, FetchWords, FetchParts, Put, PutRow, Assigned, Sorted, Names;
    FetchIs(host, kw, cur, into, parts, s);
    PutAssigns(s.vars, s.notFoundVar, s.notFoundVal);
  }

  // OPEN puts the cursor in front of the first row of its query's result.
  lemma OpenRewinds<D>(host: Host<D>, kw: string, t: string, s: State<D>, sql: string, rows: seq<seq<string>>)
    requires Pu(kw) == "OPEN " && t != "" && Pu(Trim(t)) in s.cursors
    requires SubstAll(s.cursors[Pu(Trim(t))].sql, s.vars) == Some(sql) && host.query(sql, s.db) == Some(rows)
    ensures Step(host, kw + t, s)
         == Live(s.(cursors := s.cursors[Pu(Trim(t)) := Cursor(s.cursors[Pu(Trim(t))].sql, rows, 0, true)]))
  {
    hide Pu, Trim, Declare, SetVar, Fetch, SubstAll;
    PuLength(kw);
    KwAt(kw, "OPEN ", t);
    assert (kw + t)[5..] == t;
    NotPrefixed(kw + t, "OPEN ", "DECLARE ", 0);
    NotPrefixed(kw + t, "OPEN ", "SET ", 0);
  }

  // CLOSE puts the cursor in front of its first row too, and keeps the rows.
  lemma CloseRewinds<D>(host: Host<D>, kw: string, t: string, s: State<D>)
    requires Pu(kw) == "CLOSE " && t != "" && Pu(Trim(t)) in s.cursors
    ensures var c := s.cursors[Pu(Trim(t))];
            Step(host, kw + t, s) == Live(s.(cursors := s.cursors[Pu(Trim(t)) := Cursor(c.sql, c.rows, 0, false)]))
  {
    hide Pu, Trim, Declare, SetVar, Fetch, SubstAll, Open;
    PuLength(kw);
    KwAt(kw, "CLOSE ", t);
    assert (kw + t)[6..] == t;
    NotPrefixed(kw + t, "CLOSE ", "DECLARE ", 0);
    NotPrefixed(kw + t, "CLOSE ", "SET ", 0);
    NotPrefixed(kw + t, "CLOSE ", "OPEN ", 0);
  }

  // The state after running a statement n times, as long as it comes back
  function Repeated<D>(host: Host<D>, stmt: string, s: State<D>, n: nat): State<D> {
    if n == 0 then s
    else var p := Step(host, stmt, Repeated(host, stmt, s, n - 1)); if p.Live? then p.s else s
  }

  // A cursor in front of its first row gives its rows one by one: fetch number n loads row n, and no row is lost or given
  // twice, whatever the cursor's variables are.
  lemma {:induction false} CursorGivesRows<D>(host: Host<D>, kw: string, cur: string, into: string, parts: seq<string>,
                                              s: State<D>, n: nat)
    requires Sorted(s.vars) && FetchWords(kw, cur, into, parts)
    requires Pu(cur) in s.cursors && s.cursors[Pu(cur)].pos == 0 && n <= |s.cursors[Pu(cur)].rows|
    ensures var stmt, c := FetchText(kw, cur, into, parts), s.cursors[Pu(cur)];
            var t := Repeated(host, stmt, s, n);
            && t == s.(vars := t.vars, cursors := s.cursors[Pu(cur) := c.(pos := n)]) && Sorted(t.vars)
            && (n > 0 ==> Loaded(t.vars, Repeated(host, stmt, s, n - 1).vars, Both(Names(parts), c.rows[n - 1]), c.rows[n - 1]))
  {
    hide Pu, Step, FetchText, FetchWords, Loaded, Sorted, Names, Both;
    var c := s.cursors[Pu(cur)];
    if n == 0 {
      assert s.cursors[Pu(cur) := c.(pos := 0)] == s.cursors;
    } else {
      CursorGivesRows(host, kw, cur, into, parts, s, n - 1);
      var t := Repeated(host, FetchText(kw, cur, into, parts), s, n - 1);
      FetchLoads(host, kw, cur, into, parts, t);
      LoadedSorted(Repeated(host, FetchText(kw, cur, into, parts), s, n).vars, t.vars, Both(Names(parts), c.rows[n - 1]),
                   c.rows[n - 1]);
      assert t.cursors[Pu(cur) := c.(pos := n)] == s.cursors[Pu(cur) := c.(pos := n)];
    }
  }

  lemma LoadedSorted(after: seq<Var>, before: seq<Var>, names: seq<string>, row: seq<string>)
    requires |names| <= |row| && Loaded(after, before, names, row)
    ensures Sorted(after)
  {
  }

  // After as many fetches as there are rows, one more tells the handler.
  lemma CursorEnds<D>(host: Host<D>, kw: string, cur: string, into: string, parts: seq<string>, s: State<D>)
    requires Sorted(s.vars) && FetchWords(kw, cur, into, parts)
    requires Pu(cur) in s.cursors && s.cursors[Pu(cur)].pos == 0 && s.hasHandler && s.notFoundVar != ""
    ensures var stmt, n := FetchText(kw, cur, into, parts), |s.cursors[Pu(cur)].rows|;
            Assigned(Repeated(host, stmt, s, n + 1).vars, Repeated(host, stmt, s, n).vars, s.notFoundVar, s.notFoundVal)
  {
    hide Pu, Step, FetchText, FetchWords, Loaded, Sorted, Names, Both, Assigned;
    var n := |s.cursors[Pu(cur)].rows|;
    CursorGivesRows(host, kw, cur, into, parts, s, n);
    FetchEnds(host, kw, cur, into, parts, Repeated(host, FetchText(kw, cur, into, parts), s, n));
  }
}
