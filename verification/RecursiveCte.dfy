/** WITH RECURSIVE: the working-set loop against the fixpoint it is meant to compute. */
module RecursiveCte {
  import opened Text

  type Row = seq<string>

  type Tables = map<string, seq<Row>>

  // Unreadable: a literal SELECT that cannot be evaluated. Throws: the query ends in an exception.
  datatype Answer = Rows(rows: seq<Row>) | Unreadable | Throws

  // Runs a query text against the temp tables.
  type Evaluator = (string, Tables) -> Answer

  // The recursive part: its text, what evaluates it, the other temp tables and the name of the CTE
  datatype Cte = Cte(eval: Evaluator, sql: string, tables: Tables, name: string)

  // What the recursive query gives when the CTE's table holds w
  function Query(c: Cte, w: seq<Row>): Answer { c.eval(c.sql, c.tables[c.name := w]) }

  // Its rows; a query that cannot be read ends the loop like no rows do.
  function Next(c: Cte, w: seq<Row>): seq<Row> {
    match Query(c, w) case Rows(rows) => rows case _ => []
  }

  // ------------------------------------------------------------------------------------------
  // Finding the top-level UNION ALL

  function Joined(words: seq<string>): string
    decreases |words|
  {
    if words == [] then "" else if |words| == 1 then words[0] else Joined(words[..|words| - 1]) + " " + words[|words| - 1]
  }

  function Depth(words: seq<string>): int
    decreases |words|
  {
    if words == [] then 0
    else Depth(words[..|words| - 1]) + Turn(words[|words| - 1])
  }

  function Turn(word: string): int { if word == "(" then 1 else if word == ")" then -1 else 0 }

  // UNION ALL at place i, outside all parentheses
  predicate UnionAllAt(words: seq<string>, i: int)
  {
    0 <= i && i + 1 < |words| && Depth(words[..i + 1]) == 0 && Pu(words[i]) == "UNION" && Pu(words[i + 1]) == "ALL"
  }

  ghost predicate FirstUnionAll(words: seq<string>, i: int) {
    UnionAllAt(words, i) && forall j :: j < i ==> !UnionAllAt(words, j)
  }

  // The texts before and after the first top-level UNION ALL, or two empty texts
  ghost function Halves(words: seq<string>): (string, string) {
    if exists i :: FirstUnionAll(words, i) then
      var i :| FirstUnionAll(words, i);
      (Joined(words[..i]), Joined(words[i + 2..]))
    else ("", "")
  }

  lemma HalvesAt(words: seq<string>, i: int)
    requires FirstUnionAll(words, i)
    ensures Halves(words) == (Joined(words[..i]), Joined(words[i + 2..]))
  {
    forall j | FirstUnionAll(words, j) ensures j == i { }
  }

  method SplitUnionAll(sql: string) returns (left: string, right: string)
    ensures (left, right) == Halves(Words(sql))
  {
    hide Words, Joined;
    var toks := Words(sql);
    var depth := 0;
    var i := 0;
    assert toks[..0] == [];
    while i + 1 < |toks|
      invariant 0 <= i <= |toks| && depth == Depth(toks[..i])
      invariant forall j :: j < i ==> !UnionAllAt(toks, j)
    {
      assert toks[..i + 1][..i] == toks[..i];
      if toks[i] == "(" { depth := depth + 1; }
      else if toks[i] == ")" { depth := depth - 1; }
      if depth == 0 && Pu(toks[i]) == "UNION" && Pu(toks[i + 1]) == "ALL" {
        HalvesAt(toks, i);
        left := JoinWords(toks[..i]);
        right := JoinWords(toks[i + 2..]);
        return left, right;
      }
      i := i + 1;
    }
    return "", "";
  }

  // A body "anchor UNION ALL rest" splits at that UNION ALL when the anchor's parentheses are balanced and it has no
  // top-level UNION ALL of its own; whatever stands inside parentheses does not count.
  lemma SplitsAtUnion(a: seq<string>, union: string, all: string, r: seq<string>)
    requires Depth(a) == 0 && Pu(union) == "UNION" && Pu(all) == "ALL" && (forall i :: !UnionAllAt(a, i))
    ensures Halves(a + [union, all] + r) == (Joined(a), Joined(r))
  {
    hide Joined;
    var words := a + [union, all] + r;
    var n := |a|;
    assert words[..n] == a && words[n + 2..] == r;
    assert words[..n + 1][..n] == a && words[n] == union && words[n + 1] == all;
    assert union != "(" && union != ")" by { assert Pu("(") != "UNION" && Pu(")") != "UNION"; }
    assert UnionAllAt(words, n);
    forall j | 0 <= j < n ensures !UnionAllAt(words, j) {
      assert words[..j + 1] == a[..j + 1] && words[j] == a[j];
      if j + 1 < n {
        assert words[j + 1] == a[j + 1] && !UnionAllAt(a, j);
      } else {
        assert words[j + 1] == union;
      }
    }
    HalvesAt(words, n);
  }

  // The rebuilt texts are the words with a blank between them.
  lemma {:induction false} JoinedSpaced(words: seq<string>)
    ensures Joined(words) == Spaced(words, " ")
    decreases |words|
  {
    if |words| > 1 {
      var n := |words| - 1;
      JoinedSpaced(words[..n]);
      SpacedNext(words[..n], words[n]);
      assert words == words[..n] + [words[n]];
    }
  }

  lemma {:induction false} SpacedNext(ws: seq<string>, w: string)
    requires ws != []
    ensures Spaced(ws + [w], " ") == Spaced(ws, " ") + " " + w
  {
    assert (ws + [w])[1..] == ws[1..] + [w];
    if |ws| > 1 {
      SpacedNext(ws[1..], w);
      var t := Spaced(ws[1..], " ");
      assert ws[0] + (" " + (t + " " + w)) == ws[0] + (" " + t) + " " + w;
    } else {
      assert Spaced([w], " ") == w && ws[1..] + [w] == [w];
      assert ws[0] + (" " + w) == ws[0] + " " + w;
    }
  }

  // ------------------------------------------------------------------------------------------
  // Queries with parentheses

  // A word, or a list in parentheses
  datatype Piece = Plain(word: string) | Nested(inner: seq<Piece>)

  function WordsOf(p: Piece): seq<string>
    decreases p, 1
  {
    match p case Plain(word) => [word] case Nested(inner) => ["("] + Flat(inner) + [")"]
  }

  function Flat(ps: seq<Piece>): seq<string>
    decreases ps, 0
  {
    if ps == [] then [] else WordsOf(ps[0]) + Flat(ps[1..])
  }

  // No word is a parenthesis.
  predicate Written(p: Piece)
    decreases p, 1
  {
    match p case Plain(word) => word != "(" && word != ")" case Nested(inner) => AllWritten(inner)
  }

  predicate AllWritten(ps: seq<Piece>)
    decreases ps, 0
  {
    ps == [] || (Written(ps[0]) && AllWritten(ps[1..]))
  }

  // UNION ALL stands nowhere outside parentheses.
  predicate NoTopUnion(ps: seq<Piece>) {
    forall i :: 0 <= i < |ps| - 1 && ps[i].Plain? && Pu(ps[i].word) == "UNION" ==>
      !(ps[i + 1].Plain? && Pu(ps[i + 1].word) == "ALL")
  }

  lemma {:induction false} DepthConcat(a: seq<string>, b: seq<string>)
    ensures Depth(a + b) == Depth(a) + Depth(b)
    decreases |b|
  {
    if b == [] {
      assert a + b == a;
    } else {
      var n := |b| - 1;
      assert (a + b)[..|a + b| - 1] == a + b[..n];
      DepthConcat(a, b[..n]);
    }
  }

  lemma DepthOne(w: string)
    ensures Depth([w]) == Turn(w)
  {
    assert [w][..0] == [];
  }

  lemma DepthIn(inner: seq<string>)
    ensures Depth(["("] + inner) == 1 + Depth(inner) && Depth(["("] + inner + [")"]) == Depth(inner)
  {
    hide Depth;
    DepthConcat(["("], inner);
    DepthConcat(["("] + inner, [")"]);
    DepthOne("(");
    DepthOne(")");
  }

  // Written pieces are balanced, and no part of them closes more than it opens.
  lemma {:induction false} PieceDepth(p: Piece, k: nat)
    requires Written(p) && k <= |WordsOf(p)|
    ensures Depth(WordsOf(p)) == 0 && Depth(WordsOf(p)[..k]) >= 0
    ensures p.Nested? && 1 <= k < |WordsOf(p)| ==> Depth(WordsOf(p)[..k]) >= 1
    decreases p, 1
  {
    var ws := WordsOf(p);
    assert ws[..0] == [] && ws[..|ws|] == ws;
    match p
    case Plain(word) => DepthOne(word);
    case Nested(inner) =>
      var f := Flat(inner);
      FlatDepth(inner, if 1 <= k <= |f| + 1 then k - 1 else 0);
      DepthIn(f);
      if 1 <= k < |ws| {
        assert ws[..k] == ["("] + f[..k - 1];
        DepthIn(f[..k - 1]);
      }
  }

  lemma {:induction false} FlatDepth(ps: seq<Piece>, k: nat)
    requires AllWritten(ps) && k <= |Flat(ps)|
    ensures Depth(Flat(ps)) == 0 && Depth(Flat(ps)[..k]) >= 0
    decreases ps, 0
  {
    hide Depth;
    if ps == [] {
      NoDepth();
      assert Flat(ps)[..k] == [];
    } else {
      var a, b := WordsOf(ps[0]), Flat(ps[1..]);
      PieceDepth(ps[0], if k <= |a| then k else |a|);
      FlatDepth(ps[1..], if k <= |a| then 0 else k - |a|);
      DepthConcat(a, b);
      if k <= |a| { assert (a + b)[..k] == a[..k]; }
      else { assert (a + b)[..k] == a + b[..k - |a|]; DepthConcat(a, b[..k - |a|]); }
    }
  }

  lemma NoDepth()
    ensures Depth([]) == 0
  {
  }

  lemma NoTopLater(ps: seq<Piece>)
    requires NoTopUnion(ps) && ps != []
    ensures NoTopUnion(ps[1..])
  {
    forall i | 0 <= i < |ps[1..]| - 1 && ps[1..][i].Plain? && Pu(ps[1..][i].word) == "UNION"
      ensures !(ps[1..][i + 1].Plain? && Pu(ps[1..][i + 1].word) == "ALL")
    {
      assert ps[1..][i] == ps[i + 1] && ps[1..][i + 1] == ps[i + 2];
    }
  }

  // The UNION ALLs inside parentheses are not found.
  lemma {:induction false} NoneFound(ps: seq<Piece>, i: int)
    requires AllWritten(ps) && NoTopUnion(ps)
    ensures !UnionAllAt(Flat(ps), i)
    decreases |ps|
  {
    if ps != [] && 0 <= i && i + 1 < |Flat(ps)| {
      hide Depth;
      var a, b := WordsOf(ps[0]), Flat(ps[1..]);
      var words := a + b;
      PieceDepth(ps[0], if i + 1 <= |a| then i + 1 else |a|);
      if i + 1 < |a| {
        assert words[..i + 1] == a[..i + 1];
      } else if i + 1 == |a| {
        if ps[0].Nested? { assert words[i] == ")" && Pu(")")[0] == ')'; } else { NextWord(ps); }
      } else {
        NoTopLater(ps);
        NoneFound(ps[1..], i - |a|);
        assert words[..i + 1] == a + b[..i + 1 - |a|] && words[i] == b[i - |a|] && words[i + 1] == b[i + 1 - |a|];
        DepthConcat(a, b[..i + 1 - |a|]);
      }
    }
  }

  lemma NextWord(ps: seq<Piece>)
    requires ps != [] && ps[0].Plain? && NoTopUnion(ps) && |Flat(ps)| > 1
    ensures Pu(Flat(ps)[0]) != "UNION" || Pu(Flat(ps)[1]) != "ALL"
  {
    var rest := ps[1..];
    assert Flat(ps) == [ps[0].word] + Flat(rest);
    assert rest != [] && ps[1] == rest[0];
    assert Flat(rest) == WordsOf(rest[0]) + Flat(rest[1..]);
    if rest[0].Nested? { assert Flat(rest)[0] == "(" && |Pu("(")| == 1; }
  }

  // An anchor with nested parentheses, UNION ALL and the rest: the texts of both sides with single blanks; without a UNION
  // ALL outside parentheses there are none.
  lemma AnchorFound(anchor: seq<Piece>, union: string, all: string, r: seq<string>)
    requires AllWritten(anchor) && NoTopUnion(anchor) && Pu(union) == "UNION" && Pu(all) == "ALL"
    ensures Halves(Flat(anchor) + [union, all] + r) == (Spaced(Flat(anchor), " "), Spaced(r, " "))
    ensures Halves(Flat(anchor)) == ("", "")
  {
    hide Joined, Flat, AllWritten, NoTopUnion, Spaced, Halves, UnionAllAt;
    FlatDepth(anchor, 0);
    forall i ensures !UnionAllAt(Flat(anchor), i) { NoneFound(anchor, i); }
    SplitsAtUnion(Flat(anchor), union, all, r);
    JoinedSpaced(Flat(anchor));
    JoinedSpaced(r);
    NoHalves(Flat(anchor));
  }

  lemma NoHalves(words: seq<string>)
    requires forall i :: !UnionAllAt(words, i)
    ensures Halves(words) == ("", "")
  {
    hide UnionAllAt;
  }

  method JoinWords(words: seq<string>) returns (s: string)
    ensures s == Joined(words)
  {
    s := "";
    for j := 0 to |words|
      invariant s == Joined(words[..j])
    {
      assert words[..j + 1][..j] == words[..j];
      if j > 0 { s := s + " "; }
      s := s + words[j];
    }
    assert words[..|words|] == words;
  }

  // ------------------------------------------------------------------------------------------
  // The loop

  // Level n of the recursion: the recursive query applied n times to the anchor
  function Level(c: Cte, anchor: seq<Row>, n: nat): seq<Row> {
    if n == 0 then anchor else Next(c, Level(c, anchor, n - 1))
  }

  // anchor ++ Q(anchor) ++ ... up to level n
  function Upto(c: Cte, anchor: seq<Row>, n: nat): seq<Row> {
    if n == 0 then anchor else Upto(c, anchor, n - 1) + Level(c, anchor, n)
  }

  // The loop ends after n rounds: every level up to n has rows, and the next has none unless the limit is reached.
  predicate EndsAfter(c: Cte, anchor: seq<Row>, maxIter: int, n: nat) {
    && (forall j: nat :: 1 <= j <= n ==> Level(c, anchor, j) != [])
    && n <= (if maxIter < 0 then 0 else maxIter)
    && (n < maxIter ==> Level(c, anchor, n + 1) == [] && Query(c, Level(c, anchor, n)) != Throws)
  }

  // The recursive query throws on level n, after every level up to it had rows.
  predicate ThrowsAfter(c: Cte, anchor: seq<Row>, maxIter: int, n: nat) {
    && (forall j: nat :: 1 <= j <= n ==> Level(c, anchor, j) != [])
    && n < maxIter && Query(c, Level(c, anchor, n)) == Throws
  }

  lemma SameButOne(m: Tables, n: Tables, name: string, rows: seq<Row>)
    requires m - {name} == n - {name}
    ensures m[name := rows] == n[name := rows] && m[name := rows] - {name} == n - {name}
  {
    var a, b := m[name := rows], n[name := rows];
    forall k | k in a ensures k in b && a[k] == b[k] {
      if k != name { assert k in m - {name} && (m - {name})[k] == (n - {name})[k]; }
    }
    forall k | k in b ensures k in a {
      if k != name { assert k in n - {name}; }
    }
    assert a - {name} == n - {name};
  }

  class Engine {
    var temp: Tables
    const eval: Evaluator

    constructor (eval: Evaluator)
      ensures temp == map[] && this.eval == eval
    {
      temp := map[];
      this.eval := eval;
    }

    // Without UNION ALL and when the anchor fails, the temp tables are left alone. When the recursive query throws, the
    // CTE's name is left with the level it threw on. Otherwise the result is the anchor and the levels after it, and it
    // is what the main query finds under the CTE's name.
    method ExecuteRecursiveCte(cteName: string, innerSql: string, maxIter: int) returns (result: Option<seq<Row>>, rounds: nat)
      modifies this
      ensures var (anchorSql, recursiveSql) := Halves(Words(innerSql));
              var anchor := eval(anchorSql, old(temp));
              var c := Cte(eval, recursiveSql, old(temp), cteName);
              if anchorSql == "" || !anchor.Rows? then result.None? && temp == old(temp)
              else if result.None? then
                ThrowsAfter(c, anchor.rows, maxIter, rounds) && temp == old(temp)[cteName := Level(c, anchor.rows, rounds)]
              else && result == Some(Upto(c, anchor.rows, rounds)) && EndsAfter(c, anchor.rows, maxIter, rounds)
                   && temp == old(temp)[cteName := result.value]
    {
      var anchorSql, recursiveSql := SplitUnionAll(innerSql);
      if anchorSql == "" { return None, 0; }
      var evaluated := eval(anchorSql, temp);
      if !evaluated.Rows? { return None, 0; }
      var anchor := evaluated.rows;
      var ok, accumulated, n := Iterate(cteName, recursiveSql, anchor, maxIter);
      if !ok { return None, n; }
      SameButOne(temp, old(temp), cteName, accumulated);
      temp := temp[cteName := accumulated];
      return Some(accumulated), n;
    }

    method Iterate(cteName: string, recursiveSql: string, anchor: seq<Row>, maxIter: int)
      returns (ok: bool, accumulated: seq<Row>, rounds: nat)
      modifies this
      ensures var c := Cte(eval, recursiveSql, old(temp), cteName);
              if ok then EndsAfter(c, anchor, maxIter, rounds) && accumulated == Upto(c, anchor, rounds)
              else ThrowsAfter(c, anchor, maxIter, rounds) && temp == old(temp)[cteName := Level(c, anchor, rounds)]
      ensures temp - {cteName} == old(temp) - {cteName}
    {
      ghost var c := Cte(eval, recursiveSql, temp, cteName);
      accumulated := [];
      for i := 0 to |anchor|
        invariant accumulated == anchor[..i]
      {
        accumulated := accumulated + [anchor[i]];
      }
      var working := anchor;
      rounds := 0;
      while rounds < maxIter
        invariant rounds <= (if maxIter < 0 then 0 else maxIter)
        invariant working == Level(c, anchor, rounds) && accumulated == Upto(c, anchor, rounds)
        invariant forall j: nat :: 1 <= j <= rounds ==> Level(c, anchor, j) != []
        invariant temp - {cteName} == c.tables - {cteName}
      {
        SameButOne(temp, c.tables, cteName, working);
        temp := temp[cteName := working];
        var newRows := eval(recursiveSql, temp);
        match newRows {
          case Throws => return false, [], rounds;
          case Unreadable => return true, accumulated, rounds;
          case Rows(rows) =>
            if |rows| == 0 { return true, accumulated, rounds; }
            accumulated := accumulated + rows;
            working := rows;
            rounds := rounds + 1;
        }
      }
      return true, accumulated, rounds;
    }
  }

  lemma NotSooner(c: Cte, anchor: seq<Row>, maxIter: int, m: nat, n: nat)
    requires m < n && EndsAfter(c, anchor, maxIter, n)
    ensures !EndsAfter(c, anchor, maxIter, m)
  {
    assert Level(c, anchor, m + 1) != [];
  }

  // A run that throws does not end, after any number of rounds.
  lemma ThrowsOrEnds(c: Cte, anchor: seq<Row>, maxIter: int, m: nat, n: nat)
    requires ThrowsAfter(c, anchor, maxIter, m)
    ensures !EndsAfter(c, anchor, maxIter, n)
  {
    if m < n { assert Level(c, anchor, m + 1) == []; }
    if n < m { assert Level(c, anchor, n + 1) != []; }
  }

  // The number of rounds, and with it the result, is determined.
  lemma RoundsUnique(c: Cte, anchor: seq<Row>, maxIter: int, m: nat, n: nat)
    requires EndsAfter(c, anchor, maxIter, m) && EndsAfter(c, anchor, maxIter, n)
    ensures m == n
  {
    if m < n { NotSooner(c, anchor, maxIter, m, n); }
    if n < m { NotSooner(c, anchor, maxIter, n, m); }
  }

  // ------------------------------------------------------------------------------------------
  // The fixpoint

  // The recursive query does not look at the order of rows and distributes over UNION ALL.
  ghost predicate Distributes(c: Cte) {
    && (forall a, b :: multiset(a) == multiset(b) ==> multiset(Next(c, a)) == multiset(Next(c, b)))
    && (forall a, b :: multiset(Next(c, a + b)) == multiset(Next(c, a)) + multiset(Next(c, b)))
  }

  // X == anchor UNION ALL Q(X), as multisets of rows
  predicate Solves(c: Cte, anchor: seq<Row>, x: seq<Row>) { multiset(x) == multiset(anchor) + multiset(Next(c, x)) }

  lemma DistributesAt(c: Cte, a: seq<Row>, b: seq<Row>)
    requires Distributes(c)
    ensures multiset(Next(c, a + b)) == multiset(Next(c, a)) + multiset(Next(c, b))
  {
  }

  // One more level is the anchor plus the query on everything so far.
  lemma {:induction false} UptoUnrolled(c: Cte, anchor: seq<Row>, n: nat)
    requires Distributes(c)
    ensures multiset(Upto(c, anchor, n + 1)) == multiset(anchor) + multiset(Next(c, Upto(c, anchor, n)))
  {
    hide Distributes, Next;
    if n == 0 {
      assert Upto(c, anchor, 1) == anchor + Next(c, anchor);
    } else {
      UptoUnrolled(c, anchor, n - 1);
      DistributesAt(c, Upto(c, anchor, n - 1), Level(c, anchor, n));
      assert multiset(Upto(c, anchor, n + 1)) == multiset(Upto(c, anchor, n)) + multiset(Level(c, anchor, n + 1));
    }
  }

  lemma {:induction false} Listing(m: multiset<Row>) returns (s: seq<Row>)
    ensures multiset(s) == m
    decreases |m|
  {
    if m == multiset{} {
      s := [];
    } else {
      var x :| x in m;
      var rest := Listing(m - multiset{x});
      s := [x] + rest;
      assert m == multiset{x} + (m - multiset{x});
    }
  }

  lemma OrderFree(c: Cte, a: seq<Row>, b: seq<Row>)
    requires Distributes(c) && multiset(a) == multiset(b)
    ensures multiset(Next(c, a)) == multiset(Next(c, b))
  {
  }

  lemma NextMonotone(c: Cte, a: seq<Row>, x: seq<Row>)
    requires Distributes(c) && multiset(a) <= multiset(x)
    ensures multiset(Next(c, a)) <= multiset(Next(c, x))
  {
    hide Distributes, Next;
    var rest := Listing(multiset(x) - multiset(a));
    assert multiset(a + rest) == multiset(x);
    OrderFree(c, a + rest, x);
    DistributesAt(c, a, rest);
  }

  // A solution holds the anchor and the query of every part of it.
  lemma SolutionHolds(c: Cte, anchor: seq<Row>, part: seq<Row>, x: seq<Row>)
    requires Distributes(c) && Solves(c, anchor, x) && multiset(part) <= multiset(x)
    ensures multiset(anchor) + multiset(Next(c, part)) <= multiset(x)
  {
    hide Distributes, Next;
    NextMonotone(c, part, x);
  }

  lemma SolutionHasAnchor(c: Cte, anchor: seq<Row>, x: seq<Row>)
    requires Solves(c, anchor, x)
    ensures multiset(Upto(c, anchor, 0)) <= multiset(x)
  {
  }

  // Whatever the loop has collected is part of every solution.
  lemma {:induction false} BelowEverySolution(c: Cte, anchor: seq<Row>, n: nat, x: seq<Row>)
    requires Distributes(c) && Solves(c, anchor, x)
    ensures multiset(Upto(c, anchor, n)) <= multiset(x)
  {
    hide Distributes, Next, Upto, Solves;
    if n == 0 {
      SolutionHasAnchor(c, anchor, x);
    } else {
      BelowEverySolution(c, anchor, n - 1, x);
      UptoUnrolled(c, anchor, n - 1);
      SolutionHolds(c, anchor, Upto(c, anchor, n - 1), x);
    }
  }

  // The collected rows solve the equation exactly when the next level is empty.
  lemma SolvesIff(c: Cte, anchor: seq<Row>, n: nat)
    requires Distributes(c)
    ensures Solves(c, anchor, Upto(c, anchor, n)) <==> Level(c, anchor, n + 1) == []
  {
    hide Distributes, Next;
    UptoUnrolled(c, anchor, n);
    var now, next := Upto(c, anchor, n), Level(c, anchor, n + 1);
    assert multiset(now + next) == multiset(now) + multiset(next);
    assert |multiset(now + next)| == |now| + |next|;
  }

  // When the loop exits on an empty level, its result is the least solution.
  lemma LeastSolution(c: Cte, anchor: seq<Row>, maxIter: int, n: nat)
    requires Distributes(c) && EndsAfter(c, anchor, maxIter, n) && n < maxIter
    ensures Solves(c, anchor, Upto(c, anchor, n))
    ensures forall x :: Solves(c, anchor, x) ==> multiset(Upto(c, anchor, n)) <= multiset(x)
  {
    SolvesIff(c, anchor, n);
    forall x | Solves(c, anchor, x) ensures multiset(Upto(c, anchor, n)) <= multiset(x) {
      BelowEverySolution(c, anchor, n, x);
    }
  }

  lemma {:induction false} EveryRoundAdds(c: Cte, anchor: seq<Row>, n: nat)
    requires forall j: nat :: 1 <= j <= n ==> Level(c, anchor, j) != []
    ensures |Upto(c, anchor, n)| >= |anchor| + n
  {
    if n > 0 {
      EveryRoundAdds(c, anchor, n - 1);
    }
  }

  lemma UnfinishedIsSmaller(c: Cte, anchor: seq<Row>, maxIter: int, n: nat, x: seq<Row>)
    requires Distributes(c) && EndsAfter(c, anchor, maxIter, n) && Level(c, anchor, n + 1) != []
    requires Solves(c, anchor, x)
    ensures |x| > |anchor| + maxIter
  {
    hide Distributes, Next, Upto, Solves;
    EveryRoundAdds(c, anchor, n + 1);
    BelowEverySolution(c, anchor, n + 1, x);
    var all := Upto(c, anchor, n + 1);
    assert multiset(x) == multiset(all) + (multiset(x) - multiset(all));
    assert |multiset(x)| == |x| && |multiset(all)| == |all|;
  }

  // If the equation has a solution with at most maxIter rows beyond the anchor, the loop's result is one.
  lemma FiniteSolutionIsFound(c: Cte, anchor: seq<Row>, maxIter: int, n: nat, x: seq<Row>)
    requires Distributes(c) && EndsAfter(c, anchor, maxIter, n)
    requires Solves(c, anchor, x) && |x| <= |anchor| + maxIter
    ensures Solves(c, anchor, Upto(c, anchor, n))
  {
    hide Distributes, Next, Upto, Solves;
    SolvesIff(c, anchor, n);
    if Level(c, anchor, n + 1) != [] {
      UnfinishedIsSmaller(c, anchor, maxIter, n, x);
    }
  }
}
