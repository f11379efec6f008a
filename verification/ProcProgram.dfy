/** Structured procedure programs, their meaning, and their text. The theorem is that the text interpreter,
    which re-finds every bracket by scanning, runs a printed program exactly as the program means. */
module ProcProgram {
  import opened Text
  import opened ProcText

  // Each statement says how it is written; its meaning does not depend on that.
  datatype Stmt =
    | Atom(text: string, y: Style)
    | Leave(target: string, y: Style)
    | Loop(tag: string, body: seq<Stmt>, y: Style)          // tag "" for a loop without a label
    | If(cond: string, thn: seq<Stmt>, hasElse: bool, els: seq<Stmt>, y: Style)

  // How a writer spells the keywords of a statement, what white space separates its parts and follows it, and what more
  // than one blank there is behind IF and LEAVE
  datatype Style = Style(leave: string, loop: string, endLoop: string, ifKw: string, thenKw: string,
                         elseKw: string, endIf: string, gap: string, pad: string)

  // ------------------------------------------------------------------------------------------
  // Meaning

  function Exec<S>(env: Env<S>, p: Stmt, s: S): (S, string)
    decreases p, 1, 0
  {
    match p
    case Atom(text, _) => (env.step(text, s), "")
    case Leave(target, _) => (s, target)
    case Loop(tag, body, _) => ExecLoop(env, tag, body, ROUNDS, s)
    case If(cond, thn, hasElse, els, _) =>
      if env.test(cond, s) then ExecAll(env, thn, s)
      else if hasElse then ExecAll(env, els, s)
      else (s, "")
  }

  function ExecAll<S>(env: Env<S>, ps: seq<Stmt>, s: S): (S, string)
    decreases ps, 0, 0
  {
    if ps == [] then (s, "")
    else
      var (s', res) := Exec(env, ps[0], s);
      if res != "" then (s', res) else ExecAll(env, ps[1..], s')
  }

  function ExecLoop<S>(env: Env<S>, tag: string, body: seq<Stmt>, rounds: nat, s: S): (S, string)
    decreases body, 1, rounds
  {
    if rounds == 0 then (s, "")
    else
      var (s', res) := ExecAll(env, body, s);
      if res == "" then ExecLoop(env, tag, body, rounds - 1, s')
      else if Catches(tag, res) then (s', "")
      else (s', res)
  }

  // The labels, in upper case, of the LEAVEs in a program that no loop around them stops
  function Escapes(p: Stmt): set<string>
    decreases p, 1
  {
    match p
    case Atom(_, _) => {}
    case Leave(target, _) => {Pu(target)}
    case Loop(tag, body, _) => if tag == "" then {} else EscapesAll(body) - {Pu(tag)}
    case If(_, thn, hasElse, els, _) => EscapesAll(thn) + if hasElse then EscapesAll(els) else {}
  }

  function EscapesAll(ps: seq<Stmt>): set<string>
    decreases ps, 0
  {
    if ps == [] then {} else Escapes(ps[0]) + EscapesAll(ps[1..])
  }

  // A LEAVE comes out of a program only when no loop around it has its label or no label.
  lemma {:induction false} LeaveEscapes<S>(env: Env<S>, p: Stmt, s: S)
    ensures Exec(env, p, s).1 == "" || Pu(Exec(env, p, s).1) in Escapes(p)
    decreases p, 1, 0
  {
    match p
    case Atom(_, _) =>
    case Leave(_, _) =>
    case Loop(tag, body, _) => LeaveEscapesLoop(env, tag, body, ROUNDS, s);
    case If(_, thn, hasElse, els, _) =>
      LeaveEscapesAll(env, thn, s);
      if hasElse { LeaveEscapesAll(env, els, s); }
  }

  lemma {:induction false} LeaveEscapesAll<S>(env: Env<S>, ps: seq<Stmt>, s: S)
    ensures ExecAll(env, ps, s).1 == "" || Pu(ExecAll(env, ps, s).1) in EscapesAll(ps)
    decreases ps, 0, 0
  {
    if ps != [] {
      LeaveEscapes(env, ps[0], s);
      LeaveEscapesAll(env, ps[1..], Exec(env, ps[0], s).0);
    }
  }

  lemma {:induction false} LeaveEscapesLoop<S>(env: Env<S>, tag: string, body: seq<Stmt>, rounds: nat, s: S)
    ensures var res := ExecLoop(env, tag, body, rounds, s).1;
            res == "" || (tag != "" && Pu(res) != Pu(tag) && Pu(res) in EscapesAll(body))
    decreases body, 1, rounds
  {
    if rounds > 0 {
      LeaveEscapesAll(env, body, s);
      LeaveEscapesLoop(env, tag, body, rounds - 1, ExecAll(env, body, s).0);
    }
  }

  // ------------------------------------------------------------------------------------------
  // Text

  // w is the keyword kw in some letter case.
  predicate Spells(w: string, kw: string) { |w| == |kw| && At(w, kw) }

  predicate Spelled(y: Style) {
    && Spells(y.leave, "LEAVE") && Spells(y.loop, "LOOP") && Spells(y.endLoop, "END LOOP")
    && Spells(y.ifKw, "IF") && Spells(y.thenKw, "THEN") && Spells(y.elseKw, "ELSE") && Spells(y.endIf, "END IF")
    && y.gap != "" && AllSpace(y.gap) && AllSpace(y.pad)
  }

  // The text of one statement, followed by k
  function Print(p: Stmt, k: string): string
    decreases p, 1
  {
    match p
    case Atom(text, _) => text + k
    case Leave(target, y) => y.leave + (" " + (y.pad + (target + k)))
    case Loop(tag, body, y) =>
      if tag == "" then PrintLoop(y, body, k) else tag + (":" + (y.gap + PrintLoop(y, body, k)))
    case If(cond, thn, hasElse, els, y) =>
      y.ifKw + (" " + (y.pad + (cond + (y.gap + (y.thenKw + (y.gap + PrintBlock(y, thn, PrintTail(y, hasElse, els, k))))))))
  }

  function PrintLoop(y: Style, body: seq<Stmt>, k: string): string
    decreases body, 2
  {
    y.loop + (y.gap + PrintBlock(y, body, y.endLoop + k))
  }

  function PrintTail(y: Style, hasElse: bool, els: seq<Stmt>, k: string): string
    decreases els, 3
  {
    if hasElse then PrintElse(y, els, y.endIf + k) else y.endIf + k
  }

  function PrintElse(y: Style, els: seq<Stmt>, k: string): string
    decreases els, 2
  {
    y.elseKw + (y.gap + PrintBlock(y, els, k))
  }

  // A nested body, with the white space that separates it from the keyword after it
  function PrintBlock(y: Style, ps: seq<Stmt>, k: string): string
    decreases ps, 1
  {
    PrintAll(ps, y.gap + k)
  }

  // A body: every statement closed by `;`, white space in between
  function PrintAll(ps: seq<Stmt>, k: string): string
    decreases ps, 0
  {
    if ps == [] then k
    else Print(ps[0], ";" + (if |ps| == 1 then k else ps[0].y.gap + PrintAll(ps[1..], k)))
  }

  function Listing(ps: seq<Stmt>): string { PrintAll(ps, "") }

  // ------------------------------------------------------------------------------------------
  // Which programs

  // One of the words the scanners look for stands at the front of `rest`.
  predicate Keyword(lb: bool, rest: string) {
    lb && (WordAt(rest, "END LOOP") || At(rest, "END IF") || WordAt(rest, "LOOP")
           || WordAt(rest, "THEN") || WordAt(rest, "IF") || WordAt(rest, "ELSE"))
  }

  // No keyword and no `;` anywhere
  predicate Clean(lb: bool, t: string)
    decreases |t|
  {
    t == "" || (!Keyword(lb, t) && t[0] != ';' && Clean(!IsWord(t[0]), t[1..]))
  }

  predicate Fragment(t: string) { t != "" && Trimmed(t) && Clean(true, t) && t[0] != ':' }

  predicate Printable(p: Stmt)
    decreases p
  {
    Spelled(p.y) &&
    match p
    case Atom(text, _) => Fragment(text) && !Prefixed(text, "LEAVE ") && !At(SplitLabel(text).1, "LOOP")
    case Leave(target, _) => Fragment(target)
    case Loop(tag, body, _) => |tag| < 64 && AllWord(tag) && Clean(true, tag) && forall q <- body :: Printable(q)
    case If(cond, thn, hasElse, els, _) =>
      Fragment(cond) && (forall q <- thn :: Printable(q)) && (hasElse ==> forall q <- els :: Printable(q))
  }

  predicate AllPrintable(ps: seq<Stmt>) { forall q <- ps :: Printable(q) }
}
