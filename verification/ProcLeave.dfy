/** Where a LEAVE stops and how often a loop runs, told of the labels alone. */
module ProcLeave {
  import opened Text
  import opened ProcText
  import opened ProcProgram
  import Printed = ProcRefinement

  // ------------------------------------------------------------------------------------------
  // Nests

  // One statement around another: a loop, or the branch of an IF, with statements before and behind
  datatype Layer =
    | InLoop(tag: string, before: seq<Stmt>, behind: seq<Stmt>, y: Style)
    | InThen(cond: string, before: seq<Stmt>, behind: seq<Stmt>, hasElse: bool, els: seq<Stmt>, y: Style)
    | InElse(cond: string, thn: seq<Stmt>, before: seq<Stmt>, behind: seq<Stmt>, y: Style)

  function Wrap(layer: Layer, p: Stmt): Stmt {
    var body := layer.before + [p] + layer.behind;
    match layer
    case InLoop(tag, _, _, y) => Stmt.Loop(tag, body, y)
    case InThen(cond, _, _, hasElse, els, y) => If(cond, body, hasElse, els, y)
    case InElse(cond, thn, _, _, y) => If(cond, thn, true, body, y)
  }

  // The statement inside all layers, the outermost layer first
  function Nest(layers: seq<Layer>, p: Stmt): Stmt {
    if layers == [] then p else Wrap(layers[0], Nest(layers[1..], p))
  }

  // The run enters every layer and comes to the statement in the middle.
  predicate Reached<S>(env: Env<S>, layers: seq<Layer>, s: S)
    decreases |layers|
  {
    layers == [] ||
    (&& (layers[0].InThen? ==> env.test(layers[0].cond, s)) && (layers[0].InElse? ==> !env.test(layers[0].cond, s))
     && ExecAll(env, layers[0].before, s).1 == ""
     && Reached(env, layers[1..], ExecAll(env, layers[0].before, s).0))
  }

  // The state there
  function Inside<S>(env: Env<S>, layers: seq<Layer>, s: S): S
    decreases |layers|
  {
    if layers == [] then s else Inside(env, layers[1..], ExecAll(env, layers[0].before, s).0)
  }

  // A loop without a label, or with the label in any letter case
  predicate Stops(layer: Layer, m: string) { layer.InLoop? && (layer.tag == "" || Pu(layer.tag) == Pu(m)) }

  predicate NoneStops(layers: seq<Layer>, m: string) { forall i :: 0 <= i < |layers| ==> !Stops(layers[i], m) }

  lemma {:induction false} ExecConcat<S>(env: Env<S>, a: seq<Stmt>, b: seq<Stmt>, s: S)
    ensures ExecAll(env, a + b, s) ==
            if ExecAll(env, a, s).1 == "" then ExecAll(env, b, ExecAll(env, a, s).0) else ExecAll(env, a, s)
  {
    hide Exec;
    if a == [] {
      assert a + b == b;
    } else {
      assert (a + b)[1..] == a[1..] + b;
      ExecConcat(env, a[1..], b, Exec(env, a[0], s).0);
    }
  }

  // What leaves a statement in the middle of a body leaves the body at once.
  lemma BodyLeft<S>(env: Env<S>, a: seq<Stmt>, p: Stmt, b: seq<Stmt>, s: S)
    requires ExecAll(env, a, s).1 == ""
    ensures var (t, res) := Exec(env, p, ExecAll(env, a, s).0);
            ExecAll(env, a + [p] + b, s) == if res == "" then ExecAll(env, b, t) else (t, res)
  {
    hide Exec;
    var s1 := ExecAll(env, a, s).0;
    assert a + [p] + b == a + ([p] + b) && ([p] + b)[1..] == b;
    ExecConcat(env, a, [p] + b, s);
  }

  lemma LoopLeft<S>(env: Env<S>, tag: string, body: seq<Stmt>, y: Style, s: S)
    requires ExecAll(env, body, s).1 != ""
    ensures var (t, m) := ExecAll(env, body, s);
            Exec(env, Stmt.Loop(tag, body, y), s) == (t, if tag == "" || Pu(tag) == Pu(m) then "" else m)
  {
    hide ExecAll;
  }

  // A LEAVE that no loop of the nest stops comes out of it; nothing written behind any layer runs.
  lemma {:induction false} LeaveComesOut<S>(env: Env<S>, layers: seq<Layer>, m: string, y: Style, s: S)
    requires m != "" && Reached(env, layers, s) && NoneStops(layers, m)
    ensures Exec(env, Nest(layers, Leave(m, y)), s) == (Inside(env, layers, s), m)
    decreases |layers|
  {
    if layers != [] {
      var layer, inner := layers[0], layers[1..];
      var p := Nest(inner, Leave(m, y));
      var s1 := ExecAll(env, layer.before, s).0;
      assert !Stops(layer, m) && forall i :: 0 <= i < |inner| ==> !Stops(inner[i], m) by {
        assert forall i :: 0 <= i < |inner| ==> inner[i] == layers[i + 1];
      }
      hide ExecAll, Stops;
      LeaveComesOut(env, inner, m, y, s1);
      BodyLeft(env, layer.before, p, layer.behind, s);
      WrapLeft(env, layer, p, m, s);
    }
  }

  lemma WrapLeft<S>(env: Env<S>, layer: Layer, p: Stmt, m: string, s: S)
    requires (layer.InThen? ==> env.test(layer.cond, s)) && (layer.InElse? ==> !env.test(layer.cond, s))
    requires m != "" && ExecAll(env, layer.before + [p] + layer.behind, s).1 == m
    ensures Exec(env, Wrap(layer, p), s)
         == (ExecAll(env, layer.before + [p] + layer.behind, s).0, if Stops(layer, m) then "" else m)
  {
    hide ExecAll;
    if layer.InLoop? { LoopLeft(env, layer.tag, layer.before + [p] + layer.behind, layer.y, s); }
  }

  // The innermost loop that stops a LEAVE ends there: it gives "", and nothing behind the layers inside it, nor behind it
  // in itself, has run.
  lemma LeaveStops<S>(env: Env<S>, layers: seq<Layer>, m: string, y: Style, s: S)
    requires m != "" && Reached(env, layers, s) && layers != []
    requires Stops(layers[0], m) && NoneStops(layers[1..], m)
    ensures Exec(env, Nest(layers, Leave(m, y)), s) == (Inside(env, layers, s), "")
  {
    var layer, inner := layers[0], layers[1..];
    var p := Nest(inner, Leave(m, y));
    hide ExecAll, Exec, Stops, NoneStops;
    LeaveComesOut(env, inner, m, y, ExecAll(env, layer.before, s).0);
    BodyLeft(env, layer.before, p, layer.behind, s);
    WrapLeft(env, layer, p, m, s);
  }

  // The run then goes on behind that loop, wherever the loop stands.
  lemma GoesOnBehind<S>(env: Env<S>, a: seq<Stmt>, layers: seq<Layer>, m: string, y: Style, b: seq<Stmt>, s: S)
    requires ExecAll(env, a, s).1 == "" && m != "" && Reached(env, layers, ExecAll(env, a, s).0) && layers != []
    requires Stops(layers[0], m) && NoneStops(layers[1..], m)
    ensures ExecAll(env, a + [Nest(layers, Leave(m, y))] + b, s)
         == ExecAll(env, b, Inside(env, layers, ExecAll(env, a, s).0))
  {
    hide ExecAll, Exec, Nest, Reached, Inside, Stops, NoneStops;
    LeaveStops(env, layers, m, y, ExecAll(env, a, s).0);
    BodyLeft(env, a, Nest(layers, Leave(m, y)), b, s);
  }

  // Loops with nothing around the LEAVE but each other: it comes out exactly when every loop has a label, and all their
  // labels are other ones.
  predicate Bare(layers: seq<Layer>) {
    forall i :: 0 <= i < |layers| ==> layers[i].InLoop? && layers[i].before == [] && layers[i].behind == []
  }

  lemma {:induction false} BareNest<S>(env: Env<S>, layers: seq<Layer>, m: string, y: Style, s: S)
    requires m != "" && Bare(layers)
    ensures Exec(env, Nest(layers, Leave(m, y)), s)
         == (s, if exists i :: 0 <= i < |layers| && (layers[i].tag == "" || Pu(layers[i].tag) == Pu(m)) then "" else m)
    decreases |layers|
  {
    if layers != [] {
      hide ExecAll, Pu;
      var layer, inner := layers[0], layers[1..];
      var p := Nest(inner, Leave(m, y));
      assert layers == [layer] + inner && layer.before + [p] + layer.behind == [p];
      BareNest(env, inner, m, y, s);
      OneStmt(env, p, s);
      assert forall i :: 0 <= i < |inner| ==> inner[i] == layers[i + 1];
      if Exec(env, p, s).1 == "" {
        IdleLoop(env, layer.tag, [p], ROUNDS, s);
        var i :| 0 <= i < |inner| && (inner[i].tag == "" || Pu(inner[i].tag) == Pu(m));
        assert layers[i + 1].tag == inner[i].tag;
      } else {
        LoopLeft(env, layer.tag, [p], layer.y, s);
        assert layers[0] == layer;
      }
    }
  }

  lemma OneStmt<S>(env: Env<S>, p: Stmt, s: S)
    ensures ExecAll(env, [p], s) == Exec(env, p, s)
  {
    hide Exec;
    assert [p][1..] == [];
  }

  lemma {:induction false} IdleLoop<S>(env: Env<S>, tag: string, body: seq<Stmt>, rounds: nat, s: S)
    requires ExecAll(env, body, s) == (s, "")
    ensures ExecLoop(env, tag, body, rounds, s) == (s, "")
    decreases rounds
  {
    hide ExecAll;
    if rounds > 0 { IdleLoop(env, tag, body, rounds - 1, s); }
  }

  // `a: LOOP b: LOOP LEAVE a; END LOOP; x; END LOOP`: x never runs.
  lemma LeaveOuter<S>(env: Env<S>, a: string, b: string, x: string, y: Style, s: S)
    requires a != "" && b != "" && Pu(a) != Pu(b)
    ensures Exec(env, Stmt.Loop(a, [Stmt.Loop(b, [Leave(a, y)], y), Atom(x, y)], y), s) == (s, "")
  {
    var outer, inner := InLoop(a, [], [Atom(x, y)], y), InLoop(b, [], [], y);
    var layers, m := [outer, inner], Leave(a, y);
    assert layers[1..] == [inner] && [inner][1..] == [];
    NestNone(m);
    assert Nest([inner], m) == Wrap(inner, m) && Nest(layers, m) == Wrap(outer, Wrap(inner, m));
    assert [] + [m] + [] == [m];
    assert [] + [Wrap(inner, m)] + [Atom(x, y)] == [Wrap(inner, m), Atom(x, y)];
    hide Exec;
    assert ExecAll(env, [], s) == (s, "") && Reached(env, [], s) && Inside(env, [], s) == s;
    assert Reached(env, [inner], s) && Inside(env, [inner], s) == s;
    assert Reached(env, layers, s) && Inside(env, layers, s) == s;
    assert Stops(outer, a) && !Stops(inner, a);
    LeaveStops(env, layers, a, y, s);
  }

  lemma NestNone(p: Stmt)
    ensures Nest([], p) == p
  {
  }

  // ------------------------------------------------------------------------------------------
  // Rounds

  // The state after n runs of a body
  function Times<S>(env: Env<S>, body: seq<Stmt>, s: S, n: nat): S {
    if n == 0 then s else ExecAll(env, body, Times(env, body, s, n - 1)).0
  }

  // The first n runs of the body do not leave it.
  predicate Stays<S>(env: Env<S>, body: seq<Stmt>, s: S, n: nat) {
    forall k :: 0 <= k < n ==> ExecAll(env, body, Times(env, body, s, k)).1 == ""
  }

  lemma {:induction false} LoopRounds<S>(env: Env<S>, tag: string, body: seq<Stmt>, s: S, rounds: nat, n: nat)
    requires n <= rounds && Stays(env, body, s, n)
    ensures ExecLoop(env, tag, body, rounds, s) == ExecLoop(env, tag, body, rounds - n, Times(env, body, s, n))
    decreases n
  {
    if n > 0 {
      hide ExecAll, Catches;
      LoopRounds(env, tag, body, s, rounds, n - 1);
    }
  }

  // A loop whose body is never left runs it a million times and then ends.
  lemma MillionRounds<S>(env: Env<S>, tag: string, body: seq<Stmt>, y: Style, s: S, n: nat)
    requires n == 1_000_000 && Stays(env, body, s, n)
    ensures Exec(env, Stmt.Loop(tag, body, y), s) == (Times(env, body, s, n), "")
  {
    hide ExecAll, Stays, Times;
    LoopRounds(env, tag, body, s, ROUNDS, n);
  }

  // A loop whose body is first left in round n ends there, with the label unless it stops it.
  lemma LeftInRound<S>(env: Env<S>, tag: string, body: seq<Stmt>, y: Style, s: S, n: nat)
    requires n < 1_000_000 && Stays(env, body, s, n) && ExecAll(env, body, Times(env, body, s, n)).1 != ""
    ensures var m := ExecAll(env, body, Times(env, body, s, n)).1;
            Exec(env, Stmt.Loop(tag, body, y), s)
            == (Times(env, body, s, n + 1), if tag == "" || Pu(tag) == Pu(m) then "" else m)
  {
    hide ExecAll, Stays;
    LoopRounds(env, tag, body, s, ROUNDS, n);
  }

  // ------------------------------------------------------------------------------------------
  // Labels

  // A label is what stands before the first colon, if that is fewer than 64 characters and, trimmed, one word.
  lemma LabelRead(pre: string, rest: string)
    requires ':' !in pre
    ensures SplitLabel(pre + ":" + rest) ==
            if |pre| < 64 && Trim(pre) != "" && AllWord(Trim(pre)) then (Trim(pre), Trim(rest)) else ("", pre + ":" + rest)
    ensures SplitLabel(pre) == ("", pre)
  {
    hide Trim;
    var s := pre + ":" + rest;
    assert s == pre + (":" + rest) && s[|pre| + 1..] == rest;
    FindPart(pre, ':', ":" + rest);
    FindPart(pre, ':', "");
    assert pre + "" == pre;
  }

  // ------------------------------------------------------------------------------------------
  // Text

  // The same for the text of any loop, well formed or not
  function TextTimes<S>(env: Env<S>, body: string, s: S, n: nat): S {
    if n == 0 then s else RunBody(env, body, TextTimes(env, body, s, n - 1)).0
  }

  predicate TextStays<S>(env: Env<S>, body: string, s: S, n: nat) {
    forall k :: 0 <= k < n ==> RunBody(env, body, TextTimes(env, body, s, k)).1 == ""
  }

  lemma {:induction false} TextRounds<S>(env: Env<S>, tag: string, body: string, s: S, rounds: nat, n: nat)
    requires n <= rounds && TextStays(env, body, s, n)
    ensures RunLoop(env, tag, body, rounds, s) == RunLoop(env, tag, body, rounds - n, TextTimes(env, body, s, n))
    decreases n
  {
    if n > 0 {
      hide RunBody, Catches;
      TextRounds(env, tag, body, s, rounds, n - 1);
    }
  }

  lemma TextMillion<S>(env: Env<S>, stmt: string, tag: string, body: string, s: S, n: nat)
    requires Classify(Trim(stmt)) == LoopForm(tag, body) && n == 1_000_000 && TextStays(env, body, s, n)
    ensures RunStmt(env, stmt, s) == (TextTimes(env, body, s, n), "")
  {
    hide RunBody, TextStays, TextTimes;
    NotEmpty(stmt);
    hide Classify, Trim;
    TextRounds(env, tag, body, s, ROUNDS, n);
  }

  lemma NotEmpty(stmt: string)
    requires Classify(Trim(stmt)).LoopForm?
    ensures Trim(stmt) != ""
  {
    hide Trim;
  }

  lemma TextLeft<S>(env: Env<S>, stmt: string, tag: string, body: string, s: S, n: nat)
    requires Classify(Trim(stmt)) == LoopForm(tag, body) && n < 1_000_000
    requires TextStays(env, body, s, n) && RunBody(env, body, TextTimes(env, body, s, n)).1 != ""
    ensures var m := RunBody(env, body, TextTimes(env, body, s, n)).1;
            RunStmt(env, stmt, s) == (TextTimes(env, body, s, n + 1), if tag == "" || Pu(tag) == Pu(m) then "" else m)
  {
    hide RunBody, TextStays;
    NotEmpty(stmt);
    hide Classify, Trim;
    TextRounds(env, tag, body, s, ROUNDS, n);
  }

  // The printed nest, run as text
  lemma TextNest<S>(env: Env<S>, layers: seq<Layer>, m: string, y: Style, rest: seq<Stmt>, s: S)
    requires m != "" && Reached(env, layers, s) && layers != [] && Stops(layers[0], m) && NoneStops(layers[1..], m)
    requires AllPrintable([Nest(layers, Leave(m, y))] + rest)
    ensures RunBody(env, Listing([Nest(layers, Leave(m, y))] + rest), s) == ExecAll(env, rest, Inside(env, layers, s))
  {
    hide RunBody, Listing, Exec, Nest, Reached, Inside, Stops, NoneStops, AllPrintable;
    var p := Nest(layers, Leave(m, y));
    Printed.RunsBody(env, [p] + rest, s);
    assert ExecAll(env, [], s) == (s, "");
    assert [] + [p] + rest == [p] + rest;
    GoesOnBehind(env, [], layers, m, y, rest, s);
  }
}
