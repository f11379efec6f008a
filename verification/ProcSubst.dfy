/** The simple statements of a procedure: variables, cursors, and the substitution of variables in SQL text, whose loop does
    not always end. */
module ProcSubst {
  import opened Text
  import opened ProcText
  import Fields

  // ------------------------------------------------------------------------------------------
  // subst: one variable

  predicate OccursAt(s: string, p: nat, name: string) { p + |name| <= |s| && s[p..p + |name|] == name }

  function FindFrom(s: string, name: string, pos: nat): (r: Option<nat>)
    requires pos <= |s|
    ensures r.Some? ==> pos <= r.value && OccursAt(s, r.value, name)
    ensures forall q :: pos <= q && (r.Some? ==> q < r.value) ==> !OccursAt(s, q, name)
    decreases |s| - pos
  {
    if OccursAt(s, pos, name) then Some(pos) else if pos == |s| then None else FindFrom(s, name, pos + 1)
  }

  predicate Whole(s: string, p: nat, n: nat)
    requires p <= |s|
  {
    WbLeft(s, p) && WbRight(s, p, n)
  }

  datatype Spot = Spot(out: string, pos: nat)

  // One turn of the loop; leaving it is going to the end of the text.
  function Turn(s: string, name: string, val: string, t: Spot): (r: Spot)
    requires t.pos < |s|
    ensures t.pos <= r.pos <= |s|
  {
    match FindFrom(s, name, t.pos)
    case None => Spot(t.out + s[t.pos..], |s|)
    case Some(p) =>
      if Whole(s, p, |name|) then Spot(t.out + (s[t.pos..p] + val), p + |name|)
      else Spot(t.out + s[t.pos..p + 1], p + 1)
  }

  function Turns(s: string, name: string, val: string, t: Spot, n: nat): Spot
    decreases n
  {
    if n == 0 || t.pos >= |s| then t else Turns(s, name, val, Turn(s, name, val, t), n - 1)
  }

  const FIRST := Spot("", 0)

  // The text from pos on, with every whole-word occurrence of the name replaced
  function Replaced(s: string, name: string, val: string, pos: nat): string
    decreases |s| - pos
  {
    if pos >= |s| then ""
    else if name != "" && OccursAt(s, pos, name) && Whole(s, pos, |name|) then
      val + Replaced(s, name, val, pos + |name|)
    else [s[pos]] + Replaced(s, name, val, pos + 1)
  }

  // A position inside the text with a word boundary on both sides
  predicate Loose(s: string, k: int) { 0 <= k < |s| && WbLeft(s, k) && !IsWord(s[k]) }

  predicate HasLoose(s: string) { exists k :: 0 <= k < |s| && Loose(s, k) }

  predicate Moves(s: string, name: string) { name != "" || !HasLoose(s) }

  lemma {:induction false} CopyTo(s: string, name: string, val: string, pos: nat, p: nat)
    requires pos <= p <= |s| && forall q :: pos <= q < p ==> !OccursAt(s, q, name) || !Whole(s, q, |name|)
    ensures Replaced(s, name, val, pos) == s[pos..p] + Replaced(s, name, val, p)
    decreases p - pos
  {
    if pos < p {
      hide OccursAt, Whole;
      CopyTo(s, name, val, pos + 1, p);
      assert s[pos..p] == [s[pos]] + s[pos + 1..p];
      Regroup([s[pos]], s[pos + 1..p], Replaced(s, name, val, p));
    } else {
      assert s[pos..p] == "";
    }
  }

  // A turn goes on and keeps what the rest will give.
  lemma TurnKeeps(s: string, name: string, val: string, t: Spot)
    requires t.pos < |s| && Moves(s, name)
    ensures var r := Turn(s, name, val, t);
            t.pos < r.pos && t.out + Replaced(s, name, val, t.pos) == r.out + Replaced(s, name, val, r.pos)
  {
    hide Replaced, WbLeft;
    match FindFrom(s, name, t.pos)
    case None =>
      CopyTo(s, name, val, t.pos, |s|);
      ReplacedEnd(s, name, val);
      assert s[t.pos..|s|] == s[t.pos..] && s[t.pos..] + "" == s[t.pos..];
      assert t.out + s[t.pos..] + "" == t.out + s[t.pos..];
    case Some(p) =>
      if Whole(s, p, |name|) {
        assert name == "" ==> Loose(s, t.pos);
        CopyTo(s, name, val, t.pos, p);
        ReplacedHere(s, name, val, p);
        Regroup(s[t.pos..p], val, Replaced(s, name, val, p + |name|));
        Regroup(t.out, s[t.pos..p] + val, Replaced(s, name, val, p + |name|));
      } else {
        CopyTo(s, name, val, t.pos, p + 1);
        Regroup(t.out, s[t.pos..p + 1], Replaced(s, name, val, p + 1));
      }
  }

  lemma ReplacedEnd(s: string, name: string, val: string)
    ensures Replaced(s, name, val, |s|) == ""
  {
  }

  lemma ReplacedHere(s: string, name: string, val: string, p: nat)
    requires p < |s| && name != "" && OccursAt(s, p, name) && Whole(s, p, |name|)
    ensures Replaced(s, name, val, p) == val + Replaced(s, name, val, p + |name|)
  {
  }

  // What the substitution gives, or None when its loop never ends
  function SubstOne(s: string, name: string, val: string): Option<string> {
    if Moves(s, name) then Some(Replaced(s, name, val, 0)) else None
  }

  lemma {:induction false} TurnsEnd(s: string, name: string, val: string, t: Spot) returns (n: nat)
    requires t.pos <= |s| && Moves(s, name)
    ensures Turns(s, name, val, t, n) == Spot(t.out + Replaced(s, name, val, t.pos), |s|)
    decreases |s| - t.pos
  {
    hide Replaced, Moves, Turn;
    if t.pos == |s| {
      n := 0;
      ReplacedEnd(s, name, val);
      assert t.out + "" == t.out;
    } else {
      TurnKeeps(s, name, val, t);
      n := TurnsEnd(s, name, val, Turn(s, name, val, t));
      n := n + 1;
    }
  }

  // Once at a loose position the loop stays there.
  lemma {:induction false} TurnsStay(s: string, val: string, t: Spot, k: nat, n: nat)
    requires Loose(s, k) && t.pos <= k
    ensures Turns(s, "", val, t, n).pos <= k
    decreases n
  {
    if n > 0 {
      var p := t.pos;
      assert s[p..p + 0] == "" && OccursAt(s, p, "");
      TurnsStay(s, val, Turn(s, "", val, t), k, n - 1);
    }
  }

  // The loop ends exactly when the name is not empty or the text has no loose position.
  lemma EndsIff(s: string, name: string, val: string)
    ensures (exists n: nat :: Turns(s, name, val, FIRST, n).pos >= |s|) <==> name != "" || !HasLoose(s)
  {
    hide Turns, HasLoose;
    if Moves(s, name) {
      var n := TurnsEnd(s, name, val, FIRST);
      assert Turns(s, name, val, FIRST, n).pos >= |s|;
    } else {
      var k := LooseAt(s);
      forall n: nat ensures Turns(s, name, val, FIRST, n).pos < |s| { TurnsStay(s, val, FIRST, k, n); }
    }
  }

  lemma LooseAt(s: string) returns (k: nat)
    requires HasLoose(s)
    ensures Loose(s, k)
  {
    k :| Loose(s, k);
  }

  method Substitute(s: string, name: string, val: string) returns (out: string)
    requires Moves(s, name)
    ensures SubstOne(s, name, val) == Some(out)
  {
    hide Replaced, Whole, Moves;
    out := "";
    var pos: nat := 0;
    while pos < |s|
      invariant pos <= |s| && out + Replaced(s, name, val, pos) == Replaced(s, name, val, 0)
      decreases |s| - pos
    {
      TurnKeeps(s, name, val, Spot(out, pos));
      var found := FindFrom(s, name, pos);
      if found.None? {
        ReplacedEnd(s, name, val);
        assert out + s[pos..] + "" == out + s[pos..];
        out := out + s[pos..];
        return;
      }
      if Whole(s, found.value, |name|) {
        out := out + (s[pos..found.value] + val);
        pos := found.value + |name|;
      } else {
        out := out + s[pos..found.value + 1];
        pos := found.value + 1;
      }
    }
    ReplacedEnd(s, name, val);
    assert out + "" == out;
  }

  // Without a whole-word occurrence the text stays as it is.
  lemma Untouched(s: string, name: string, val: string)
    requires forall q :: 0 <= q < |s| ==> !OccursAt(s, q, name) || !Whole(s, q, |name|)
    ensures SubstOne(s, name, val) == Some(s)
  {
    hide Replaced;
    if name == "" {
      forall k | 0 <= k < |s| ensures !Loose(s, k) { assert s[k..k + 0] == "" && OccursAt(s, k, name); }
    }
    CopyTo(s, name, val, 0, |s|);
    ReplacedEnd(s, name, val);
    assert s[0..|s|] == s && s + "" == s;
  }

  // ------------------------------------------------------------------------------------------
  // The variables: an ordered map

  datatype Var = Var(name: string, val: string)

  predicate Less(a: string, b: string)
    decreases |a|
  {
    if a == "" then b != ""
    else b != "" && (a[0] < b[0] || (a[0] == b[0] && Less(a[1..], b[1..])))
  }

  lemma {:induction false} LessTrans(a: string, b: string, c: string)
    requires Less(a, b) && Less(b, c)
    ensures Less(a, c)
    decreases |a|
  {
    if a != "" && a[0] == b[0] && b[0] == c[0] { LessTrans(a[1..], b[1..], c[1..]); }
  }

  lemma {:induction false} LessTotal(a: string, b: string)
    ensures Less(a, b) || Less(b, a) || a == b
    decreases |a|
  {
    if a != "" && b != "" && a[0] == b[0] {
      LessTotal(a[1..], b[1..]);
      assert a == [a[0]] + a[1..] && b == [b[0]] + b[1..];
    }
  }

  predicate Sorted(vars: seq<Var>) { forall i, j :: 0 <= i < j < |vars| ==> Less(vars[i].name, vars[j].name) }

  predicate Stores(vars: seq<Var>, name: string) { exists i :: 0 <= i < |vars| && vars[i].name == name }

  function Put(vars: seq<Var>, name: string, val: string): seq<Var> {
    if vars == [] then [Var(name, val)]
    else if vars[0].name == name then [Var(name, val)] + vars[1..]
    else if Less(name, vars[0].name) then [Var(name, val)] + vars
    else [vars[0]] + Put(vars[1..], name, val)
  }

  lemma {:induction false} PutStores(vars: seq<Var>, name: string, val: string, other: string)
    ensures Stores(Put(vars, name, val), other) <==> other == name || Stores(vars, other)
  {
    hide Less;
    var r := Put(vars, name, val);
    if vars == [] {
      assert r[0].name == name;
    } else if vars[0].name == name {
      assert r[0].name == name && forall i :: 1 <= i < |vars| ==> r[i] == vars[i];
    } else if Less(name, vars[0].name) {
      assert r[0].name == name && forall i :: 0 <= i < |vars| ==> r[i + 1] == vars[i];
      assert forall i :: 1 <= i < |r| ==> r[i] == vars[i - 1];
    } else {
      var rest := vars[1..];
      PutStores(rest, name, val, other);
      StoresCons(vars[0], rest, other);
      StoresCons(vars[0], Put(rest, name, val), other);
      assert vars == [vars[0]] + rest;
    }
  }

  lemma StoresCons(v: Var, rest: seq<Var>, name: string)
    ensures Stores([v] + rest, name) <==> v.name == name || Stores(rest, name)
  {
    var r := [v] + rest;
    assert r[0] == v && forall i :: 0 <= i < |rest| ==> r[i + 1] == rest[i];
    assert forall i :: 1 <= i < |r| ==> r[i] == rest[i - 1];
  }

  // Below every name of the list
  predicate Under(name: string, vars: seq<Var>) { forall i :: 0 <= i < |vars| ==> Less(name, vars[i].name) }

  lemma SortedCons(v: Var, rest: seq<Var>)
    ensures Sorted([v] + rest) <==> Under(v.name, rest) && Sorted(rest)
  {
    hide Less;
    var r := [v] + rest;
    assert r[0] == v && forall i :: 0 <= i < |rest| ==> r[i + 1] == rest[i];
    assert forall i :: 1 <= i < |r| ==> r[i] == rest[i - 1];
  }

  lemma {:induction false} PutSorted(vars: seq<Var>, name: string, val: string)
    requires Sorted(vars)
    ensures Sorted(Put(vars, name, val))
    ensures forall low :: Less(low, name) && Under(low, vars) ==> Under(low, Put(vars, name, val))
  {
    hide Less, Sorted;
    if vars == [] {
      SortedOne(Var(name, val));
    } else {
      var v, rest := vars[0], vars[1..];
      assert vars == [v] + rest;
      SortedCons(v, rest);
      if v.name == name {
        SortedCons(Var(name, val), rest);
      } else if Less(name, v.name) {
        forall i | 0 <= i < |vars| ensures Less(name, vars[i].name) {
          if i > 0 { assert vars[i] == rest[i - 1]; LessTrans(name, v.name, vars[i].name); }
        }
        SortedCons(Var(name, val), vars);
      } else {
        LessTotal(name, v.name);
        PutSorted(rest, name, val);
        SortedCons(v, Put(rest, name, val));
      }
    }
  }

  lemma SortedOne(v: Var)
    ensures Sorted([v])
  {
  }

  // ------------------------------------------------------------------------------------------
  // subst: all variables

  function SubstAll(s: string, vars: seq<Var>): Option<string>
    decreases |vars|
  {
    if vars == [] then Some(s)
    else match SubstOne(s, vars[0].name, vars[0].val)
         case None => None
         case Some(t) => SubstAll(t, vars[1..])
  }

  method Subst(sql: string, vars: seq<Var>) returns (result: string)
    requires SubstAll(sql, vars).Some?
    ensures SubstAll(sql, vars) == Some(result)
  {
    hide Replaced, Moves;
    result := sql;
    assert vars[0..] == vars;
    for i := 0 to |vars|
      invariant SubstAll(result, vars[i..]) == SubstAll(sql, vars)
    {
      assert vars[i..][0] == vars[i] && vars[i..][1..] == vars[i + 1..];
      result := Substitute(result, vars[i].name, vars[i].val);
    }
  }

  lemma {:induction false} NamedEnds(s: string, vars: seq<Var>)
    requires !Stores(vars, "")
    ensures SubstAll(s, vars).Some?
    decreases |vars|
  {
    hide Replaced;
    if vars != [] {
      var t := SubstOne(s, vars[0].name, vars[0].val).value;
      assert forall i :: 0 <= i < |vars[1..]| ==> vars[1..][i] == vars[i + 1];
      NamedEnds(t, vars[1..]);
    }
  }

  // The substitution never ends exactly when an empty name is stored and the text has a loose position: the empty name
  // comes first, when the text is still as it was.
  lemma HangsIff(s: string, vars: seq<Var>)
    requires Sorted(vars)
    ensures SubstAll(s, vars).None? <==> Stores(vars, "") && HasLoose(s)
  {
    hide HasLoose, Replaced;
    if Stores(vars, "") {
      EmptyFirst(vars);
      var rest := vars[1..];
      if !HasLoose(s) { NamedEnds(SubstOne(s, "", vars[0].val).value, rest); }
    } else {
      NamedEnds(s, vars);
    }
  }

  lemma EmptyFirst(vars: seq<Var>)
    requires Sorted(vars) && Stores(vars, "")
    ensures vars[0].name == "" && !Stores(vars[1..], "")
  {
    var i :| 0 <= i < |vars| && vars[i].name == "";
    forall a: string ensures !Less(a, "") {}
    assert i > 0 ==> Less(vars[0].name, vars[i].name);
    assert forall j :: 0 < j < |vars| ==> Less(vars[0].name, vars[j].name);
  }

  // ------------------------------------------------------------------------------------------
  // The statements

  datatype Cursor = Cursor(sql: string, rows: seq<seq<string>>, pos: nat, isOpen: bool)

  datatype State<D> = State(vars: seq<Var>, cursors: map<string, Cursor>, notFoundVar: string, notFoundVal: string,
                            hasHandler: bool, db: D)

  // What arithmetic on two texts gives: the result as text, a division by zero, or no number on one side
  datatype Calc = Number(text: string) | ByZero | NoNumber

  // What floating point and the database do: parameters of the model
  datatype Host<!D> = Host(
    arith: (string, string, string) -> Calc,                  // operator, left, right
    compare: (string, string, string) -> Option<bool>,        // the same for comparisons; None without two numbers
    query: (string, D) -> Option<seq<seq<string>>>,           // the rows of a cursor; None for an exception
    run: (string, D) -> D)                                    // any other SQL; exceptions are caught

  // Hung: the substitution never came back. Thrown: an exception left the procedure.
  datatype Progress<S> = Live(s: S) | Hung | Thrown

  function StripQ(s: string): string {
    if |s| >= 2 && ((s[0] == '\'' && s[|s| - 1] == '\'') || (s[0] == '"' && s[|s| - 1] == '"')) then s[1..|s| - 1] else s
  }

  // What is stored under a name
  function ValueOf(vars: seq<Var>, name: string): Option<string> {
    if vars == [] then None else if vars[0].name == name then Some(vars[0].val) else ValueOf(vars[1..], name)
  }

  // A stored name stands for its value, every other text for itself; quotes are dropped.
  function Resolve(tok: string, vars: seq<Var>): string {
    StripQ(if ValueOf(vars, tok).Some? then ValueOf(vars, tok).value else tok)
  }

  // What SET stores
  function SetValue<D>(host: Host<D>, expr: string, vars: seq<Var>): string {
    var toks := Words(expr);
    var plain := Resolve(if toks == [] then expr else toks[0], vars);
    if |toks| == 3 && toks[1] in ["+", "-", "*", "/"] then
      match host.arith(toks[1], Resolve(toks[0], vars), Resolve(toks[2], vars))
      case Number(text) => text
      case ByZero => expr
      case NoNumber => plain
    else plain
  }

  // The condition of an IF
  function EvalCond<D>(host: Host<D>, cond: string, vars: seq<Var>): bool {
    var toks := Words(cond);
    if |toks| == 1 then Resolve(toks[0], vars) != "" && Resolve(toks[0], vars) != "0"
    else if |toks| < 3 then false
    else
      var op, l, r := toks[1], Resolve(toks[0], vars), Resolve(toks[2], vars);
      match host.compare(op, l, r)
      case Some(b) => b
      case None =>
        if op == "=" then l == r
        else if op == "!=" || op == "<>" then l != r
        else if op == "<" then Less(l, r)
        else if op == ">" then Less(r, l)
        else if op == "<=" then !Less(r, l)
        else if op == ">=" then !Less(l, r)
        else false
  }

  // The value after the first DEFAULT from word k on, or 0
  function DefaultOf(toks: seq<string>, k: nat): string
    decreases |toks| - k
  {
    if k + 1 >= |toks| then "0" else if Pu(toks[k]) == "DEFAULT" then StripQ(toks[k + 1]) else DefaultOf(toks, k + 1)
  }

  predicate Contains(s: string, part: string) { FindFrom(s, part, 0).Some? }

  predicate TextType(ty: string) { Contains(Pu(ty), "VARCHAR") || Contains(Pu(ty), "CHAR") || Contains(Pu(ty), "TEXT") }

  // What DECLARE stores: texts start empty, everything else at 0
  function Initial(toks: seq<string>): string
    requires |toks| >= 3
  {
    var val := DefaultOf(toks, 2);
    if TextType(toks[2]) && val == "0" then "" else val
  }

  function Declare<D>(stmt: string, s: State<D>): State<D>
    requires |stmt| > 8
  {
    var toks := Words(stmt);
    var at := FindFrom(Pu(stmt), " CURSOR FOR ", 0);
    if |toks| >= 10 && Pu(toks[1]) == "CONTINUE" && Pu(toks[2]) == "HANDLER" && Pu(toks[3]) == "FOR" && Pu(toks[4]) == "NOT"
       && Pu(toks[5]) == "FOUND" && Pu(toks[6]) == "SET" then
      s.(notFoundVar := toks[7], notFoundVal := toks[9], hasHandler := true)
    else if at.Some? then
      // " CURSOR FOR " may start at the blank after DECLARE; the name is then all the rest.
      var name := Pu(Trim(if at.value < 8 then stmt[8..] else stmt[8..at.value]));
      s.(cursors := s.cursors[name := Cursor(Trim(stmt[at.value + 12..]), [], 0, false)])
    else if |toks| >= 3 then s.(vars := Put(s.vars, toks[1], Initial(toks)))
    else s
  }

  // The variable that a SET statement stores, if it has an equals sign
  function SetTarget(stmt: string): Option<string>
    requires |stmt| > 4
  {
    var rest := Trim(stmt[4..]);
    if Find(rest, '=') < |rest| then Some(Trim(rest[..Find(rest, '=')])) else None
  }

  function SetVar<D>(host: Host<D>, stmt: string, s: State<D>): State<D>
    requires |stmt| > 4
  {
    var rest := Trim(stmt[4..]);
    match SetTarget(stmt)
    case None => s
    case Some(name) => s.(vars := Put(s.vars, name, SetValue(host, Trim(rest[Find(rest, '=') + 1..]), s.vars)))
  }

  function TrimAll(parts: seq<string>): (r: seq<string>)
    ensures |r| == |parts|
  {
    if parts == [] then [] else [Trim(parts[0])] + TrimAll(parts[1..])
  }

  // FETCH: the cursor and the variables it names
  function FetchParts(stmt: string): Option<(string, seq<string>)>
    requires |stmt| > 6
  {
    var rest := Trim(stmt[6..]);
    match FindFrom(Pu(rest), " INTO ", 0)
    case None => None
    case Some(at) => Some((Pu(Trim(rest[..at])), TrimAll(Fields.GetLines(Trim(rest[at + 6..]), ','))))
  }

  function PutRow(vars: seq<Var>, names: seq<string>, row: seq<string>): seq<Var>
    decreases |names|
  {
    if names == [] || row == [] then vars else PutRow(Put(vars, names[0], StripQ(row[0])), names[1..], row[1..])
  }

  function Fetch<D>(stmt: string, s: State<D>): State<D>
    requires |stmt| > 6
  {
    match FetchParts(stmt)
    case None => s
    case Some((name, names)) =>
      if name !in s.cursors then s
      else
        var c := s.cursors[name];
        if c.pos >= |c.rows| then
          if s.hasHandler && s.notFoundVar != "" then s.(vars := Put(s.vars, s.notFoundVar, s.notFoundVal)) else s
        else s.(cursors := s.cursors[name := c.(pos := c.pos + 1)], vars := PutRow(s.vars, names, c.rows[c.pos]))
  }

  function CursorName(stmt: string, n: nat): string
    requires n <= |stmt|
  {
    Pu(Trim(stmt[n..]))
  }

  // The text that a statement substitutes variables in
  function SqlOf<D>(stmt: string, s: State<D>): Option<string> {
    if Prefixed(stmt, "DECLARE ") || Prefixed(stmt, "SET ") then None
    else if Prefixed(stmt, "OPEN ") then
      var name := CursorName(stmt, 5);
      if name in s.cursors then Some(s.cursors[name].sql) else None
    else if Prefixed(stmt, "CLOSE ") || Prefixed(stmt, "FETCH ") then None
    else Some(stmt)
  }

  function Open<D>(host: Host<D>, name: string, s: State<D>): Progress<State<D>>
    requires name in s.cursors
  {
    var c := s.cursors[name];
    match SubstAll(c.sql, s.vars)
    case None => Hung
    case Some(sql) =>
      match host.query(sql, s.db)
      case None => Thrown
      case Some(rows) => Live(s.(cursors := s.cursors[name := c.(rows := rows, pos := 0, isOpen := true)]))
  }

  function Step<D>(host: Host<D>, stmt: string, s: State<D>): Progress<State<D>> {
    if Prefixed(stmt, "DECLARE ") then Live(Declare(stmt, s))
    else if Prefixed(stmt, "SET ") then Live(SetVar(host, stmt, s))
    else if Prefixed(stmt, "OPEN ") then
      var name := CursorName(stmt, 5);
      if name in s.cursors then Open(host, name, s) else Live(s)
    else if Prefixed(stmt, "CLOSE ") then
      var name := CursorName(stmt, 6);
      if name in s.cursors then Live(s.(cursors := s.cursors[name := s.cursors[name].(isOpen := false, pos := 0)]))
      else Live(s)
    else if Prefixed(stmt, "FETCH ") then Live(Fetch(stmt, s))
    else
      match SubstAll(stmt, s.vars)
      case None => Hung
      case Some(sql) => Live(s.(db := host.run(sql, s.db)))
  }

  // An empty name is stored, and the text to substitute in has a loose position.
  predicate Stuck<D>(stmt: string, s: State<D>) {
    Stores(s.vars, "") && SqlOf(stmt, s).Some? && HasLoose(SqlOf(stmt, s).value)
  }

  lemma StepHangsIff<D>(host: Host<D>, stmt: string, s: State<D>)
    requires Sorted(s.vars)
    ensures Step(host, stmt, s).Hung? <==> Stuck(stmt, s)
  {
    hide SubstAll, Stores, HasLoose, Sorted, Declare, SetVar, Fetch, CursorName;
    if SqlOf(stmt, s).Some? { HangsIff(SqlOf(stmt, s).value, s.vars); }
  }

  // ------------------------------------------------------------------------------------------
  // What a step keeps

  lemma WordsFilled(s: string)
    ensures forall i :: 0 <= i < |Words(s)| ==> Words(s)[i] != ""
    decreases |s|
  {
    var t := TrimLeft(s);
    if t != "" {
      assert Word(t) != "";
      hide TrimLeft;
      WordsFilled(t[|Word(t)|..]);
    }
  }

  lemma {:induction false} RowSorted(vars: seq<Var>, names: seq<string>, row: seq<string>)
    requires Sorted(vars)
    ensures Sorted(PutRow(vars, names, row))
    decreases |names|
  {
    hide Sorted, Put, StripQ;
    if names != [] && row != [] {
      PutSorted(vars, names[0], StripQ(row[0]));
      RowSorted(Put(vars, names[0], StripQ(row[0])), names[1..], row[1..]);
    }
  }

  lemma {:induction false} RowNamed(vars: seq<Var>, names: seq<string>, row: seq<string>)
    requires !Stores(vars, "") && "" !in names
    ensures !Stores(PutRow(vars, names, row), "")
    decreases |names|
  {
    hide Stores, Put, StripQ;
    if names != [] && row != [] {
      PutStores(vars, names[0], StripQ(row[0]), "");
      RowNamed(Put(vars, names[0], StripQ(row[0])), names[1..], row[1..]);
    }
  }

  // The variables stay an ordered map.
  lemma StepSorted<D>(host: Host<D>, stmt: string, s: State<D>)
    requires Sorted(s.vars)
    ensures Step(host, stmt, s).Live? ==> Sorted(Step(host, stmt, s).s.vars)
  {
    hide Sorted, Put, PutRow, SubstAll, Words, Trim, FindFrom, SetTarget, FetchParts, CursorName;
    if Prefixed(stmt, "DECLARE ") {
      DeclareSorted(stmt, s);
    } else if Prefixed(stmt, "SET ") {
      SetSorted(host, stmt, s);
    } else if Prefixed(stmt, "FETCH ") {
      FetchSorted(stmt, s);
    }
  }

  lemma DeclareSorted<D>(stmt: string, s: State<D>)
    requires Sorted(s.vars) && |stmt| > 8
    ensures Sorted(Declare(stmt, s).vars)
  {
    hide Sorted, Put, Words, Trim, FindFrom;
    var toks := Words(stmt);
    if |toks| >= 3 { PutSorted(s.vars, toks[1], Initial(toks)); }
  }

  lemma SetSorted<D>(host: Host<D>, stmt: string, s: State<D>)
    requires Sorted(s.vars) && |stmt| > 4
    ensures Sorted(SetVar(host, stmt, s).vars)
  {
    hide Sorted, Put, Trim, SetTarget, Find;
    var rest := Trim(stmt[4..]);
    if SetTarget(stmt).Some? {
      TargetFound(stmt);
      PutSorted(s.vars, SetTarget(stmt).value, SetValue(host, Trim(rest[Find(rest, '=') + 1..]), s.vars));
    }
  }

  lemma TargetFound(stmt: string)
    requires |stmt| > 4 && SetTarget(stmt).Some?
    ensures var rest := Trim(stmt[4..]); Find(rest, '=') < |rest|
  {
    hide Trim;
  }

  lemma FetchSorted<D>(stmt: string, s: State<D>)
    requires Sorted(s.vars) && |stmt| > 6
    ensures Sorted(Fetch(stmt, s).vars)
  {
    hide Sorted, Put, PutRow, FetchParts;
    PutSorted(s.vars, s.notFoundVar, s.notFoundVal);
    match FetchParts(stmt)
    case None =>
    case Some((name, names)) =>
      if name in s.cursors && s.cursors[name].pos < |s.cursors[name].rows| {
        RowSorted(s.vars, names, s.cursors[name].rows[s.cursors[name].pos]);
      }
  }

  // SET without a name in front of the equals sign, or FETCH with an empty name in its list
  predicate StoresEmpty(stmt: string) {
    || (Prefixed(stmt, "SET ") && SetTarget(stmt) == Some(""))
    || (Prefixed(stmt, "FETCH ") && FetchParts(stmt).Some? && "" in FetchParts(stmt).value.1)
  }

  // Only such a statement stores an empty name; without one, every step comes back.
  lemma StepNamed<D>(host: Host<D>, stmt: string, s: State<D>)
    requires !Stores(s.vars, "") && !StoresEmpty(stmt)
    ensures !Step(host, stmt, s).Hung?
    ensures Step(host, stmt, s).Live? ==> !Stores(Step(host, stmt, s).s.vars, "")
  {
    hide Stores, Put, PutRow, SubstAll, Words, Trim, FindFrom, SetTarget, FetchParts, CursorName;
    if Prefixed(stmt, "DECLARE ") {
      DeclareNamed(stmt, s);
    } else if Prefixed(stmt, "SET ") {
      SetNamed(host, stmt, s);
    } else if Prefixed(stmt, "FETCH ") {
      FetchNamed(stmt, s);
    } else if SqlOf(stmt, s).Some? {
      NamedEnds(SqlOf(stmt, s).value, s.vars);
    }
  }

  lemma DeclareNamed<D>(stmt: string, s: State<D>)
    requires !Stores(s.vars, "") && |stmt| > 8
    ensures !Stores(Declare(stmt, s).vars, "")
  {
    hide Stores, Put, Words, Trim, FindFrom;
    var toks := Words(stmt);
    WordsFilled(stmt);
    if |toks| >= 3 { PutStores(s.vars, toks[1], Initial(toks), ""); }
  }

  lemma SetNamed<D>(host: Host<D>, stmt: string, s: State<D>)
    requires !Stores(s.vars, "") && |stmt| > 4 && SetTarget(stmt) != Some("")
    ensures !Stores(SetVar(host, stmt, s).vars, "")
  {
    hide Stores, Put, Trim, SetTarget, Find;
    var rest := Trim(stmt[4..]);
    if SetTarget(stmt).Some? {
      TargetFound(stmt);
      PutStores(s.vars, SetTarget(stmt).value, SetValue(host, Trim(rest[Find(rest, '=') + 1..]), s.vars), "");
    }
  }

  lemma FetchNamed<D>(stmt: string, s: State<D>)
    requires !Stores(s.vars, "") && |stmt| > 6 && (FetchParts(stmt).Some? ==> "" !in FetchParts(stmt).value.1)
    ensures !Stores(Fetch(stmt, s).vars, "")
  {
    hide Stores, Put, PutRow, FetchParts;
    PutStores(s.vars, s.notFoundVar, s.notFoundVal, "");
    match FetchParts(stmt)
    case None =>
    case Some((name, names)) =>
      if name in s.cursors && s.cursors[name].pos < |s.cursors[name].rows| {
        RowNamed(s.vars, names, s.cursors[name].rows[s.cursors[name].pos]);
      }
  }

  method FindDefault(toks: seq<string>) returns (val: string)
    ensures val == DefaultOf(toks, 2)
  {
    hide StripQ;
    val := "0";
    var k: nat := 2;
    while k + 1 < |toks|
      invariant DefaultOf(toks, 2) == DefaultOf(toks, k)
    {
      if Pu(toks[k]) == "DEFAULT" { return StripQ(toks[k + 1]); }
      k := k + 1;
    }
  }

  // ------------------------------------------------------------------------------------------
  // The state in place

  class ProcState<D> {
    var vars: seq<Var>
    var cursors: map<string, Cursor>
    var notFoundVar: string
    var notFoundVal: string
    var hasHandler: bool
    var db: D

    constructor (start: D)
      ensures Value() == State([], map[], "", "1", false, start)
    {
      vars, cursors, notFoundVar, notFoundVal, hasHandler, db := [], map[], "", "1", false, start;
    }

    function Value(): State<D>
      reads this
    {
      State(vars, cursors, notFoundVar, notFoundVal, hasHandler, db)
    }

    // A simple statement, if it comes back: the new state, or an exception
    method ExecSimple(host: Host<D>, stmt: string) returns (threw: bool)
      requires !Step(host, stmt, Value()).Hung?
      modifies this
      ensures threw ==> Step(host, stmt, old(Value())) == Thrown
      ensures !threw ==> Step(host, stmt, old(Value())) == Live(Value())
    {
      hide SubstAll, Put, PutRow, FetchParts, SetTarget, CursorName, FindFrom, Words, Trim, Declare, SetVar;
      threw := false;
      if Prefixed(stmt, "DECLARE ") {
        ExecDeclare(stmt);
      } else if Prefixed(stmt, "SET ") {
        ExecSet(host, stmt);
      } else if Prefixed(stmt, "OPEN ") {
        var name := CursorName(stmt, 5);
        if name !in cursors { return; }
        var sql := Subst(cursors[name].sql, vars);
        match host.query(sql, db) {
          case None => threw := true;
          case Some(rows) => cursors := cursors[name := cursors[name].(rows := rows, pos := 0, isOpen := true)];
        }
      } else if Prefixed(stmt, "CLOSE ") {
        var name := CursorName(stmt, 6);
        if name in cursors { cursors := cursors[name := cursors[name].(isOpen := false, pos := 0)]; }
      } else if Prefixed(stmt, "FETCH ") {
        ExecFetch(stmt);
      } else {
        var sql := Subst(stmt, vars);
        db := host.run(sql, db);
      }
    }

    method ExecDeclare(stmt: string)
      requires |stmt| > 8
      modifies this
      ensures Value() == Declare(stmt, old(Value()))
    {
      hide Put, Words, Trim, TextType;
      var toks := Words(stmt);
      if |toks| >= 10 && Pu(toks[1]) == "CONTINUE" && Pu(toks[2]) == "HANDLER" && Pu(toks[3]) == "FOR"
         && Pu(toks[4]) == "NOT" && Pu(toks[5]) == "FOUND" && Pu(toks[6]) == "SET" {
        notFoundVar, notFoundVal, hasHandler := toks[7], toks[9], true;
        return;
      }
      var at := FindFrom(Pu(stmt), " CURSOR FOR ", 0);
      if at.Some? {
        var name := Pu(Trim(if at.value < 8 then stmt[8..] else stmt[8..at.value]));
        cursors := cursors[name := Cursor(Trim(stmt[at.value + 12..]), [], 0, false)];
        return;
      }
      if |toks| >= 3 {
        var val := FindDefault(toks);
        if TextType(toks[2]) && val == "0" { val := ""; }
        vars := Put(vars, toks[1], val);
      }
    }

    method ExecSet(host: Host<D>, stmt: string)
      requires |stmt| > 4
      modifies this
      ensures Value() == SetVar(host, stmt, old(Value()))
    {
      hide Put, Trim, SetValue;
      var rest := Trim(stmt[4..]);
      var eq := Find(rest, '=');
      if eq < |rest| { vars := Put(vars, Trim(rest[..eq]), SetValue(host, Trim(rest[eq + 1..]), vars)); }
    }

    method ExecFetch(stmt: string)
      requires |stmt| > 6
      modifies this
      ensures Value() == Fetch(stmt, old(Value()))
    {
      hide Put, FetchParts, StripQ;
      var parts := FetchParts(stmt);
      if parts.None? { return; }
      var (name, varNames) := parts.value;
      if name !in cursors { return; }
      var c := cursors[name];
      if c.pos >= |c.rows| {
        if hasHandler && notFoundVar != "" { vars := Put(vars, notFoundVar, notFoundVal); }
        return;
      }
      var row := c.rows[c.pos];
      cursors := cursors[name := c.(pos := c.pos + 1)];
      var k: nat := 0;
      assert varNames[0..] == varNames && row[0..] == row;
      while k < |varNames| && k < |row|
        modifies this`vars
        invariant k <= |varNames| && k <= |row|
        invariant PutRow(vars, varNames[k..], row[k..]) == PutRow(old(vars), varNames, row)
        invariant cursors == old(cursors)[name := c.(pos := c.pos + 1)]
      {
        assert varNames[k..][1..] == varNames[k + 1..] && row[k..][1..] == row[k + 1..];
        vars := Put(vars, varNames[k], StripQ(row[k]));
        k := k + 1;
      }
    }
  }
}
