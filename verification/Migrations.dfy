/** The migration store: its file must load back to the store that was saved. */
module Migrations {
  import opened Text
  import opened Fields

  datatype Migration = Migration(name: string, sql: string, rollbackSql: string, appliedAt: string)

  // The migrations by name, and their names in the order of creation
  datatype Store = Store(migrations: map<string, Migration>, order: seq<string>)

  const EMPTY := Store(map[], [])

  // ------------------------------------------------------------------------------------------
  // Escaping tabs and newlines

  function EscapeTab(s: string): string {
    if s == "" then ""
    else Escaped(s[0]) + EscapeTab(s[1..])
  }

  function Escaped(c: char): string { if c == '\t' then "\\t" else if c == '\n' then "\\n" else [c] }

  function UnescapeTab(s: string): string
    decreases |s|
  {
    if s == "" then ""
    else if s[0] == '\\' && |s| > 1 && s[1] == 't' then "\t" + UnescapeTab(s[2..])
    else if s[0] == '\\' && |s| > 1 && s[1] == 'n' then "\n" + UnescapeTab(s[2..])
    else [s[0]] + UnescapeTab(s[1..])
  }

  // No backslash directly before a 't' or an 'n'
  predicate Safe(s: string) { forall i :: 0 <= i < |s| - 1 && s[i] == '\\' ==> s[i + 1] != 't' && s[i + 1] != 'n' }

  method Escape(s: string) returns (r: string)
    ensures r == EscapeTab(s)
  {
    assert EscapeTab("") == "";
    hide EscapeTab;
    r := "";
    assert s[0..] == s;
    for i := 0 to |s|
      invariant EscapeTab(s) == r + EscapeTab(s[i..])
    {
      ghost var before, rest := r, EscapeTab(s[i + 1..]);
      assert s[i..][1..] == s[i + 1..];
      EscapeFirst(s[i..]);
      if s[i] == '\t' { r := r + "\\t"; }
      else if s[i] == '\n' { r := r + "\\n"; }
      else { r := r + [s[i]]; }
      Regroup(before, Escaped(s[i]), rest);
      assert r == before + Escaped(s[i]);
    }
  }

  lemma EscapeFirst(s: string)
    requires s != ""
    ensures EscapeTab(s) == Escaped(s[0]) + EscapeTab(s[1..])
  {
  }

  // What the loop consumes and produces in one round
  function Unit(s: string): (string, nat)
    requires s != ""
  {
    if s[0] == '\\' && |s| > 1 && s[1] == 't' then ("\t", 2)
    else if s[0] == '\\' && |s| > 1 && s[1] == 'n' then ("\n", 2)
    else ([s[0]], 1)
  }

  lemma UnescapeUnit(s: string)
    requires s != ""
    ensures Unit(s).1 <= |s| && UnescapeTab(s) == Unit(s).0 + UnescapeTab(s[Unit(s).1..])
  {
  }

  lemma UnescapeFirst(r: string, s: string)
    requires s != ""
    ensures Unit(s).1 <= |s| && r + UnescapeTab(s) == r + Unit(s).0 + UnescapeTab(s[Unit(s).1..])
  {
    UnescapeUnit(s);
    hide UnescapeTab, Unit;
    Regroup(r, Unit(s).0, UnescapeTab(s[Unit(s).1..]));
  }

  method Unescape(s: string) returns (r: string)
    ensures r == UnescapeTab(s)
  {
    assert UnescapeTab("") == "";
    hide UnescapeTab;
    r := "";
    var i := 0;
    assert s[0..] == s;
    while i < |s|
      invariant 0 <= i <= |s| && UnescapeTab(s) == r + UnescapeTab(s[i..])
    {
      UnescapeFirst(r, s[i..]);
      ghost var n := Unit(s[i..]).1;
      assert s[i..][n..] == s[i + n..];
      if s[i] == '\\' && i + 1 < |s| {
        if s[i + 1] == 't' { r := r + "\t"; i := i + 1; }
        else if s[i + 1] == 'n' { r := r + "\n"; i := i + 1; }
        else { r := r + [s[i]]; }
      } else {
        r := r + [s[i]];
      }
      i := i + 1;
    }
  }

  lemma {:induction false} EscapedIsClean(s: string)
    ensures Free(EscapeTab(s), '\t') && Free(EscapeTab(s), '\n')
  {
    if s != "" { EscapedIsClean(s[1..]); }
  }

  lemma {:induction false} EscapeStarts(s: string)
    ensures EscapeTab(s) == "" <==> s == ""
    ensures s != "" ==> EscapeTab(s)[0] == if s[0] == '\t' || s[0] == '\n' then '\\' else s[0]
  {
  }

  lemma SafeTail(s: string)
    requires s != ""
    ensures Safe(s) <==> Safe(s[1..]) && !(s[0] == '\\' && |s| > 1 && (s[1] == 't' || s[1] == 'n'))
  {
    if Safe(s[1..]) && !(s[0] == '\\' && |s| > 1 && (s[1] == 't' || s[1] == 'n')) {
      forall i | 0 <= i < |s| - 1 && s[i] == '\\' ensures s[i + 1] != 't' && s[i + 1] != 'n' {
        if i > 0 { assert s[1..][i - 1] == s[i] && s[1..][i] == s[i + 1]; }
      }
    }
  }

  lemma UnescapePlain(c: char, e: string)
    requires c != '\\' || e == "" || (e[0] != 't' && e[0] != 'n')
    ensures UnescapeTab([c] + e) == [c] + UnescapeTab(e)
  {
    assert ([c] + e)[1..] == e;
  }

  lemma UnescapeMark(c: char, e: string)
    requires c == 't' || c == 'n'
    ensures UnescapeTab(['\\', c] + e) == (if c == 't' then "\t" else "\n") + UnescapeTab(e)
  {
    assert (['\\', c] + e)[2..] == e;
  }

  // The round trip fails exactly when a backslash stands directly before a 't' or an 'n'.
  lemma {:induction false} UnescapeEscape(s: string)
    ensures UnescapeTab(EscapeTab(s)) == s <==> Safe(s)
    ensures |UnescapeTab(EscapeTab(s))| <= |s|
  {
    hide EscapeTab, UnescapeTab, Safe;
    if s == "" { UnescapeNothing(); return; }
    var e := EscapeTab(s[1..]);
    UnescapeEscape(s[1..]);
    EscapeFirst(s);
    EscapeStarts(s[1..]);
    SafeTail(s);
    assert s == [s[0]] + s[1..];
    if s[0] == '\t' {
      UnescapeMark('t', e);
      assert "\\t" == ['\\', 't'];
    } else if s[0] == '\n' {
      UnescapeMark('n', e);
      assert "\\n" == ['\\', 'n'];
    } else if s[0] == '\\' && e != "" && (e[0] == 't' || e[0] == 'n') {
      assert [s[0]] + e == ['\\', e[0]] + e[1..];
      UnescapeMark(e[0], e[1..]);
      MarkEaten(s[1..]);
    } else {
      UnescapePlain(s[0], e);
    }
  }

  lemma UnescapeNothing()
    ensures UnescapeTab(EscapeTab("")) == "" && Safe("")
  {
  }

  lemma MarkEaten(s: string)
    requires s != "" && (s[0] == 't' || s[0] == 'n')
    ensures |UnescapeTab(EscapeTab(s)[1..])| <= |s| - 1
  {
    EscapeFirst(s);
    assert EscapeTab(s)[1..] == EscapeTab(s[1..]);
    UnescapeEscape(s[1..]);
  }

  // A backslash and a t come back as a tab.
  lemma UnescapeLoses()
    ensures EscapeTab("\\t") == "\\t" && UnescapeTab(EscapeTab("\\t")) == "\t"
  {
    var s := "\\t";
    assert s == ['\\', 't'] && s[1..] == "t";
    EscapeFirst(s);
    EscapeFirst("t");
    assert EscapeTab("t") == "t" && EscapeTab(s) == s;
    UnescapeMark('t', "");
    assert ['\\', 't'] + "" == s;
  }

  // ------------------------------------------------------------------------------------------
  // Saving and loading

  function FieldsOf(m: Migration): seq<string> { [m.name, EscapeTab(m.sql), EscapeTab(m.rollbackSql), m.appliedAt] }

  function Line(m: Migration): string { JoinOn(FieldsOf(m), '\t') }

  // Names without a record are passed over.
  function SavedLines(s: Store, order: seq<string>): seq<string>
    decreases |order|
  {
    if order == [] then []
    else
      var last := order[|order| - 1];
      SavedLines(s, order[..|order| - 1]) + if last in s.migrations then [Line(s.migrations[last])] else []
  }

  function Saved(s: Store): string { Terminated(SavedLines(s, s.order), '\n') }

  // A later line of the same name replaces the record but keeps its place.
  function LoadLine(s: Store, line: string): Store {
    var fields := SplitOn(line, '\t');
    if line == "" || |fields| < 4 then s
    else
      var m := Migration(fields[0], UnescapeTab(fields[1]), UnescapeTab(fields[2]), fields[3]);
      Store(s.migrations[m.name := m], if m.name in s.migrations then s.order else s.order + [m.name])
  }

  function LoadLines(lines: seq<string>): Store
    decreases |lines|
  {
    if lines == [] then EMPTY else LoadLine(LoadLines(lines[..|lines| - 1]), lines[|lines| - 1])
  }

  function Load(file: string): Store { LoadLines(GetLines(file, '\n')) }

  // `order` lists exactly the stored names, each once, and every record is stored under its own name.
  ghost predicate Valid(s: Store) {
    && (forall i, j :: 0 <= i < j < |s.order| ==> s.order[i] != s.order[j])
    && (forall name :: name in s.order <==> name in s.migrations)
    && (forall name <- s.migrations :: s.migrations[name].name == name)
  }

  predicate Clean(s: string) { Free(s, '\t') && Free(s, '\n') }

  ghost predicate CleanNames(s: Store) {
    forall name <- s.migrations :: Clean(name) && Clean(s.migrations[name].appliedAt)
  }

  predicate Restores(m: Migration) { Safe(m.sql) && Safe(m.rollbackSql) }

  // What a line brings back: the record with its two texts unescaped
  function Reread(m: Migration): Migration {
    m.(sql := UnescapeTab(EscapeTab(m.sql)), rollbackSql := UnescapeTab(EscapeTab(m.rollbackSql)))
  }

  lemma LineIsClean(m: Migration)
    requires Clean(m.name) && Clean(m.appliedAt)
    ensures SplitOn(Line(m), '\t') == FieldsOf(m) && Free(Line(m), '\n') && Line(m) != ""
  {
    EscapedIsClean(m.sql);
    EscapedIsClean(m.rollbackSql);
    hide EscapeTab;
    var f := FieldsOf(m);
    SplitJoined(f, '\t');
    FourJoined(f);
  }

  lemma FourJoined(f: seq<string>)
    requires |f| == 4
    ensures JoinOn(f, '\t') == f[0] + ['\t'] + (f[1] + ['\t'] + (f[2] + ['\t'] + f[3]))
  {
    assert f[1..][1..] == f[2..] && f[2..][1..] == f[3..];
    assert JoinOn(f[2..], '\t') == f[2] + ['\t'] + f[3];
  }

  lemma RereadLine(s: Store, m: Migration)
    requires Clean(m.name) && Clean(m.appliedAt)
    ensures LoadLine(s, Line(m)) ==
            Store(s.migrations[m.name := Reread(m)], if m.name in s.migrations then s.order else s.order + [m.name])
  {
    LineIsClean(m);
    hide Line, SplitOn, EscapeTab, UnescapeTab;
  }

  // The store that saving and loading the first k names gives
  ghost function Reloaded(s: Store, k: nat): Store
    requires Valid(s) && k <= |s.order|
  {
    Store(map name | name in s.migrations && name in s.order[..k] :: Reread(s.migrations[name]), s.order[..k])
  }

  lemma ReloadedNext(s: Store, k: nat)
    requires Valid(s) && k < |s.order|
    ensures var m, r := s.migrations[s.order[k]], Reloaded(s, k);
            && m.name == s.order[k] && m.name !in r.migrations
            && Reloaded(s, k + 1) == Store(r.migrations[m.name := Reread(m)], r.order + [m.name])
  {
    hide Reread;
    assert s.order[..k + 1] == s.order[..k] + [s.order[k]];
    assert s.order[k] in s.order;
  }

  lemma {:induction false} LoadSaved(s: Store, k: nat)
    requires Valid(s) && CleanNames(s) && k <= |s.order|
    ensures LoadLines(SavedLines(s, s.order[..k])) == Reloaded(s, k)
    ensures AllFree(SavedLines(s, s.order[..k]), '\n')
  {
    if k > 0 {
      var lines := SavedLines(s, s.order[..k - 1]);
      LoadSaved(s, k - 1);
      ReloadedNext(s, k - 1);
      var name := s.order[k - 1];
      var m := s.migrations[name];
      hide LoadLine, Line, Reloaded;
      assert s.order[..k][..k - 1] == s.order[..k - 1];
      RereadLine(Reloaded(s, k - 1), m);
      LineIsClean(m);
      assert SavedLines(s, s.order[..k]) == lines + [Line(m)];
      assert (lines + [Line(m)])[..|lines|] == lines;
    }
  }

  lemma RereadSame(m: Migration)
    ensures Reread(m) == m <==> Restores(m)
  {
    hide EscapeTab, UnescapeTab;
    UnescapeEscape(m.sql);
    UnescapeEscape(m.rollbackSql);
  }

  // Loading what was saved gives the store back, with its order, exactly when no stored text has a backslash directly
  // before a 't' or an 'n'.
  lemma LoadSave(s: Store)
    requires Valid(s) && CleanNames(s)
    ensures Load(Saved(s)) == s <==> forall name <- s.migrations :: Restores(s.migrations[name])
  {
    hide SavedLines, LoadLines, Reread, Restores;
    var n := |s.order|;
    LoadSaved(s, n);
    assert s.order[..n] == s.order;
    LinesTerminated(SavedLines(s, s.order), '\n');
    var r := Reloaded(s, n);
    forall name | name in s.migrations ensures Restores(s.migrations[name]) <==> r.migrations[name] == s.migrations[name] {
      RereadSame(s.migrations[name]);
    }
    assert r.order == s.order && r.migrations.Keys == s.migrations.Keys;
    if Load(Saved(s)) == s {
      forall name | name in s.migrations ensures Restores(s.migrations[name]) { assert r.migrations == s.migrations; }
    }
  }

  // Whatever the file says, loaded names and time stamps hold no tab and no line break.
  lemma {:induction false} LoadedClean(lines: seq<string>)
    requires AllFree(lines, '\n')
    ensures CleanNames(LoadLines(lines))
    decreases |lines|
  {
    if lines != [] {
      hide LoadLine, Clean;
      assert Free(lines[|lines| - 1], '\n');
      LoadedClean(lines[..|lines| - 1]);
      LoadLineClean(LoadLines(lines[..|lines| - 1]), lines[|lines| - 1]);
    }
  }

  lemma LoadLineClean(s: Store, line: string)
    requires CleanNames(s) && Free(line, '\n')
    ensures CleanNames(LoadLine(s, line))
  {
    hide SplitOn, UnescapeTab, Free;
    JoinSplit(line, '\t');
    SplitKeeps(line, '\t', '\n');
  }

  // The same for every store: what has a tab or a line break in a name or a time stamp does not come back either.
  lemma LoadSaveIff(s: Store)
    requires Valid(s)
    ensures Load(Saved(s)) == s <==> CleanNames(s) && forall name <- s.migrations :: Restores(s.migrations[name])
  {
    hide LoadLines, SavedLines, GetLines, CleanNames, Restores, Valid;
    LinesFree(Saved(s), '\n');
    LoadedClean(GetLines(Saved(s), '\n'));
    if CleanNames(s) { LoadSave(s); }
  }

  // Whatever the file says, the loaded order lists each loaded name once.
  lemma {:induction false} LoadLinesValid(lines: seq<string>)
    ensures Valid(LoadLines(lines))
    decreases |lines|
  {
    if lines != [] {
      LoadLinesValid(lines[..|lines| - 1]);
      LoadLineValid(LoadLines(lines[..|lines| - 1]), lines[|lines| - 1]);
    }
  }

  lemma LoadLineValid(s: Store, line: string)
    requires Valid(s)
    ensures Valid(LoadLine(s, line))
  {
    hide SplitOn, UnescapeTab;
  }

  // ------------------------------------------------------------------------------------------
  // The rollback text

  predicate Contains(s: string, p: string) { exists i :: 0 <= i <= |s| && p <= s[i..] }

  function DropLast(s: string, c: char): string { if s != "" && s[|s| - 1] == c then s[..|s| - 1] else s }

  function DeriveRollback(sql: string): string {
    var upper, tokens := Pu(sql), Words(sql);
    if Contains(upper, "ALTER TABLE") && Contains(upper, "ADD COLUMN") && |tokens| >= 6 then
      "ALTER TABLE " + DropLast(tokens[2], ';') + " DROP COLUMN " + DropLast(tokens[5], ';')
    else if Contains(upper, "CREATE TABLE") && |tokens| >= 3 then
      "DROP TABLE IF EXISTS " + DropLast(DropLast(tokens[2], '('), ';')
    else ""
  }

  predicate HasAt(s: string, i: nat, p: string) { i + |p| <= |s| && s[i..i + |p|] == p }

  predicate Has(s: string, p: string) { exists i :: 0 <= i <= |s| && HasAt(s, i, p) }

  predicate AddsColumn(sql: string) { Has(Pu(sql), "ALTER TABLE") && Has(Pu(sql), "ADD COLUMN") }

  lemma ContainsHas(s: string, p: string)
    ensures Contains(s, p) <==> Has(s, p)
  {
    forall i | 0 <= i <= |s| ensures p <= s[i..] <==> HasAt(s, i, p) {
      if HasAt(s, i, p) { assert s[i..][..|p|] == p; }
    }
  }

  // What is written in front of one c, or in front of nothing
  lemma DropLastIs(s: string, c: char)
    ensures DropLast(s + [c], c) == s && (s == "" || s[|s| - 1] != c ==> DropLast(s, c) == s)
  {
  }

  lemma AddCase(sql: string, ws: seq<string>)
    requires Words(sql) == ws && |ws| >= 6 && Has(Pu(sql), "ALTER TABLE") && Has(Pu(sql), "ADD COLUMN")
    ensures DeriveRollback(sql) == "ALTER TABLE " + DropLast(ws[2], ';') + " DROP COLUMN " + DropLast(ws[5], ';')
  {
    hide Words, Pu, Contains, Has, DropLast;
    ContainsHas(Pu(sql), "ALTER TABLE");
    ContainsHas(Pu(sql), "ADD COLUMN");
  }

  function Dropped(t: string): string { "DROP TABLE IF EXISTS " + t }

  lemma CreateCase(sql: string, ws: seq<string>)
    requires Words(sql) == ws && |ws| >= 3 && Has(Pu(sql), "CREATE TABLE")
    requires !AddsColumn(sql)
    ensures DeriveRollback(sql) == Dropped(DropLast(DropLast(ws[2], '('), ';'))
  {
    hide Words, Pu, Contains, Has, DropLast;
    ContainsHas(Pu(sql), "ALTER TABLE");
    ContainsHas(Pu(sql), "ADD COLUMN");
    ContainsHas(Pu(sql), "CREATE TABLE");
  }

  // ALTER TABLE t ADD COLUMN c ... is undone by dropping the column, whatever its letter case, and with or without a
  // semicolon behind the names.
  lemma RollbackOfAdd(ws: seq<string>, t: string, c: string)
    requires |ws| >= 6 && (forall i :: 0 <= i < |ws| ==> IsToken(ws[i]))
    requires Pu(ws[0] + " " + ws[1]) == "ALTER TABLE" && Pu(ws[3] + " " + ws[4]) == "ADD COLUMN"
    requires t != "" && t[|t| - 1] != ';' && (ws[2] == t || ws[2] == t + ";")
    requires c != "" && c[|c| - 1] != ';' && (ws[5] == c || ws[5] == c + ";")
    ensures DeriveRollback(Spaced(ws, " ")) == "ALTER TABLE " + t + " DROP COLUMN " + c
  {
    hide Words, Spaced, Pu, Contains, Has, DropLast, DeriveRollback, IsToken;
    WordsSpaced(ws, " ");
    PairHas(ws, 0, "ALTER TABLE");
    PairHas(ws, 3, "ADD COLUMN");
    AddCase(Spaced(ws, " "), ws);
    DropLastIs(t, ';');
    DropLastIs(c, ';');
  }

  lemma {:induction false} PairHas(ws: seq<string>, k: nat, kw: string)
    requires k + 1 < |ws| && Pu(ws[k] + " " + ws[k + 1]) == kw
    ensures Has(Pu(Spaced(ws, " ")), kw)
    decreases k
  {
    hide Has, Pu;
    var rest := ws[1..];
    assert Spaced(ws, " ") == ws[0] + (" " + Spaced(rest, " "));
    if k == 0 {
      var u := if |rest| == 1 then "" else " " + Spaced(rest[1..], " ");
      assert Spaced(ws, " ") == ws[0] + " " + ws[1] + u by { assert Spaced(rest, " ") == ws[1] + u; }
      PuFront(ws[0] + " " + ws[1], u);
    } else {
      PairHas(rest, k - 1, kw);
      PuBehind(ws[0] + " ", Spaced(rest, " "));
      assert ws[0] + " " + Spaced(rest, " ") == Spaced(ws, " ");
      HasBehind(Pu(ws[0] + " "), Pu(Spaced(rest, " ")), kw);
    }
  }

  lemma PuFront(a: string, u: string)
    ensures Has(Pu(a + u), Pu(a))
  {
    assert Pu(a + u)[0..|a|] == Pu(a);
    assert HasAt(Pu(a + u), 0, Pu(a));
  }

  lemma PuBehind(a: string, b: string)
    ensures Pu(a + b) == Pu(a) + Pu(b)
  {
  }

  lemma HasBehind(a: string, b: string, p: string)
    requires Has(b, p)
    ensures Has(a + b, p)
  {
    var i :| 0 <= i <= |b| && HasAt(b, i, p);
    assert (a + b)[|a| + i..|a| + i + |p|] == b[i..i + |p|];
    assert HasAt(a + b, |a| + i, p);
  }

  // CREATE TABLE t ... is undone by dropping the table, with or without a bracket or a semicolon behind the name.
  lemma RollbackOfCreate(ws: seq<string>, t: string)
    requires |ws| >= 3 && (forall i :: 0 <= i < |ws| ==> IsToken(ws[i]))
    requires Pu(ws[0] + " " + ws[1]) == "CREATE TABLE"
    requires !AddsColumn(Spaced(ws, " "))
    requires t != "" && t[|t| - 1] != ';' && t[|t| - 1] != '(' && (ws[2] == t || ws[2] == t + "(" || ws[2] == t + ";")
    ensures DeriveRollback(Spaced(ws, " ")) == "DROP TABLE IF EXISTS " + t
  {
    hide Words, Spaced, Pu, Contains, Has, DropLast, DeriveRollback, IsToken;
    NameAlone(ws[2], t);
    CreateRead(ws);
  }

  lemma CreateRead(ws: seq<string>)
    requires |ws| >= 3 && (forall i :: 0 <= i < |ws| ==> IsToken(ws[i]))
    requires Pu(ws[0] + " " + ws[1]) == "CREATE TABLE"
    requires !AddsColumn(Spaced(ws, " "))
    ensures DeriveRollback(Spaced(ws, " ")) == Dropped(DropLast(DropLast(ws[2], '('), ';'))
  {
    hide Words, Spaced, Pu, Contains, Has, DropLast, DeriveRollback, IsToken, AddsColumn, Dropped;
    WordsSpaced(ws, " ");
    PairHas(ws, 0, "CREATE TABLE");
    CreateCase(Spaced(ws, " "), ws);
  }

  lemma NameAlone(w: string, t: string)
    requires t != "" && t[|t| - 1] != ';' && t[|t| - 1] != '(' && (w == t || w == t + "(" || w == t + ";")
    ensures DropLast(DropLast(w, '('), ';') == t
  {
    hide DropLast;
    DropLastIs(t, ';');
    DropLastIs(t, '(');
    assert (t + ";")[|t|] == ';';
    DropLastIs(t + ";", '(');
  }

  // Any other statement has no rollback.
  lemma RollbackOfOther(sql: string)
    requires !Has(Pu(sql), "CREATE TABLE") && !AddsColumn(sql)
    ensures DeriveRollback(sql) == ""
  {
    hide Words, Pu, Contains, Has, DropLast;
    ContainsHas(Pu(sql), "ALTER TABLE");
    ContainsHas(Pu(sql), "ADD COLUMN");
    ContainsHas(Pu(sql), "CREATE TABLE");
  }

  lemma SafePart(s: string, i: nat, j: nat)
    requires Safe(s) && i <= j <= |s|
    ensures Safe(s[i..j])
  {
  }

  lemma SafeAfterBlank(a: string, b: string)
    requires Safe(a) && Safe(b) && (a == "" || a[|a| - 1] != '\\' || b == "" || (b[0] != 't' && b[0] != 'n'))
    ensures Safe(a + b)
  {
  }

  lemma {:induction false} WordsSafe(s: string)
    requires Safe(s)
    ensures forall i :: 0 <= i < |Words(s)| ==> Safe(Words(s)[i])
    decreases |s|
  {
    if s != "" {
      if IsSpace(s[0]) {
        SafePart(s, 1, |s|);
        WordsSafe(s[1..]);
        assert TrimLeft(s) == TrimLeft(s[1..]) && Words(s) == Words(s[1..]);
      } else {
        SafePart(s, 0, |Word(s)|);
        SafePart(s, |Word(s)|, |s|);
        WordsSafe(s[|Word(s)|..]);
      }
    }
  }

  lemma DropLastSafe(s: string, c: char)
    requires Safe(s)
    ensures Safe(DropLast(s, c))
  {
  }

  // A statement that survives saving has a derived rollback that does too.
  lemma RollbackSafe(sql: string)
    requires Safe(sql)
    ensures Safe(DeriveRollback(sql))
  {
    WordsSafe(sql);
    var tokens := Words(sql);
    var drop, alter, col := "DROP TABLE IF EXISTS ", "ALTER TABLE ", " DROP COLUMN ";
    assert Safe("") && Safe(drop) && Safe(alter) && Safe(col);
    hide Words, Pu, Contains, Safe, DropLast;
    if |tokens| >= 3 {
      DropLastSafe(tokens[2], '(');
      DropLastSafe(DropLast(tokens[2], '('), ';');
      SafeAfterBlank(drop, DropLast(DropLast(tokens[2], '('), ';'));
    }
    if |tokens| >= 6 {
      DropLastSafe(tokens[2], ';');
      DropLastSafe(tokens[5], ';');
      SafeAfterBlank(alter, DropLast(tokens[2], ';'));
      SafeAfterBlank(alter + DropLast(tokens[2], ';'), col);
      SafeAfterBlank(alter + DropLast(tokens[2], ';') + col, DropLast(tokens[5], ';'));
    }
  }

  // ------------------------------------------------------------------------------------------
  // The manager and its runs

  datatype Event = Create(name: string, sql: string) | Apply(name: string, now: string) | Rollback(name: string)

  datatype Answer = Done | AlreadyExists | NotFound | AlreadyApplied(at: string) | NotApplied

  function Step(s: Store, e: Event): (Store, Answer) {
    match e
    case Create(name, sql) =>
      if name in s.migrations then (s, AlreadyExists)
      else (Store(s.migrations[name := Migration(name, sql, DeriveRollback(sql), "")], s.order + [name]), Done)
    case Apply(name, now) =>
      if name !in s.migrations then (s, NotFound)
      else if s.migrations[name].appliedAt != "" then (s, AlreadyApplied(s.migrations[name].appliedAt))
      else (s.(migrations := s.migrations[name := s.migrations[name].(appliedAt := now)]), Done)
    case Rollback(name) =>
      if name !in s.migrations then (s, NotFound)
      else if s.migrations[name].appliedAt == "" then (s, NotApplied)
      else (s.(migrations := s.migrations[name := s.migrations[name].(appliedAt := "")]), Done)
  }

  class MigrationManager {
    var migrations: map<string, Migration>
    var order: seq<string>
    // the text of database.migrations
    var file: string

    ghost function State(): Store
      reads this
    {
      Store(migrations, order)
    }

    constructor (file: string)
      ensures this.file == file && State() == Load(file)
    {
      migrations := map[];
      order := [];
      this.file := file;
      new;
      var lines := GetLines(file, '\n');
      assert lines[..0] == [];
      for i := 0 to |lines|
        invariant this.file == file && State() == LoadLines(lines[..i])
      {
        assert lines[..i + 1][..i] == lines[..i];
        LoadOne(lines[i]);
      }
      assert lines[..|lines|] == lines;
    }

    method LoadOne(line: string)
      modifies this`migrations, this`order
      ensures State() == LoadLine(old(State()), line)
    {
      if line == "" { return; }
      var fields := SplitFields(line, '\t');
      if |fields| < 4 { return; }
      var sql := Unescape(fields[1]);
      var rollbackSql := Unescape(fields[2]);
      var m := Migration(fields[0], sql, rollbackSql, fields[3]);
      if m.name !in migrations { order := order + [m.name]; }
      migrations := migrations[m.name := m];
    }

    method Save()
      modifies this`file
      ensures file == Saved(State())
    {
      hide SavedLines, Terminated;
      file := "";
      assert order[..0] == [];
      NothingSaved(State());
      for i := 0 to |order|
        invariant file == Terminated(SavedLines(State(), order[..i]), '\n')
      {
        SavedNext(State(), order, i);
        if order[i] in migrations {
          var m := migrations[order[i]];
          var sql := Escape(m.sql);
          var rollbackSql := Escape(m.rollbackSql);
          FourJoined(FieldsOf(m));
          file := file + (m.name + "\t" + (sql + "\t" + (rollbackSql + "\t" + m.appliedAt))) + "\n";
          assert file == Terminated(SavedLines(State(), order[..i + 1]), '\n');
        }
      }
      assert order[..|order|] == order;
    }

    method CreateMigration(name: string, sql: string) returns (answer: Answer)
      modifies this
      ensures (State(), answer) == Step(old(State()), Create(name, sql))
      ensures file == if answer == Done then Saved(State()) else old(file)
    {
      if name in migrations { return AlreadyExists; }
      var m := Migration(name, sql, DeriveRollback(sql), "");
      order := order + [name];
      migrations := migrations[name := m];
      Save();
      return Done;
    }

    method MarkApplied(name: string, now: string) returns (answer: Answer)
      modifies this
      ensures (State(), answer) == Step(old(State()), Apply(name, now))
      ensures file == if answer == Done then Saved(State()) else old(file)
    {
      if name !in migrations { return NotFound; }
      if migrations[name].appliedAt != "" { return AlreadyApplied(migrations[name].appliedAt); }
      migrations := migrations[name := migrations[name].(appliedAt := now)];
      Save();
      return Done;
    }

    method MarkRolledBack(name: string) returns (answer: Answer)
      modifies this
      ensures (State(), answer) == Step(old(State()), Rollback(name))
      ensures file == if answer == Done then Saved(State()) else old(file)
    {
      if name !in migrations { return NotFound; }
      if migrations[name].appliedAt == "" { return NotApplied; }
      migrations := migrations[name := migrations[name].(appliedAt := "")];
      Save();
      return Done;
    }
  }

  lemma NothingSaved(s: Store)
    ensures Terminated(SavedLines(s, []), '\n') == ""
  {
  }

  lemma SavedNext(s: Store, order: seq<string>, i: nat)
    requires i < |order|
    ensures Terminated(SavedLines(s, order[..i + 1]), '\n') == Terminated(SavedLines(s, order[..i]), '\n')
            + if order[i] in s.migrations then Line(s.migrations[order[i]]) + "\n" else ""
  {
    hide Line;
    assert order[..i + 1][..i] == order[..i];
    var lines := SavedLines(s, order[..i]);
    if order[i] in s.migrations {
      TerminatedNext(lines, Line(s.migrations[order[i]]), '\n');
    } else {
      assert lines + [] == lines;
    }
  }

  function Run(es: seq<Event>): Store
    decreases |es|
  {
    if es == [] then EMPTY else Step(Run(es[..|es| - 1]), es[|es| - 1]).0
  }

  lemma StepValid(s: Store, e: Event)
    requires Valid(s)
    ensures Valid(Step(s, e).0)
  {
    hide DeriveRollback;
  }

  // Names and time stamps without tabs and newlines, and statements that survive escaping
  predicate Storable(e: Event) {
    match e
    case Create(name, sql) => Clean(name) && Safe(sql)
    case Apply(name, now) => Clean(now)
    case Rollback(_) => true
  }

  ghost predicate Durable(s: Store) {
    Valid(s) && CleanNames(s) && forall name <- s.migrations :: Restores(s.migrations[name])
  }

  lemma StepDurable(s: Store, e: Event)
    requires Durable(s) && Storable(e)
    ensures Durable(Step(s, e).0)
  {
    assert Clean("");
    hide DeriveRollback, Safe, Free, Valid;
    StepValid(s, e);
    if e.Create? {
      RollbackSafe(e.sql);
      AddedDurable(s, Migration(e.name, e.sql, DeriveRollback(e.sql), ""));
    } else if e.name in s.migrations {
      var m := s.migrations[e.name];
      AddedDurable(s, m.(appliedAt := if e.Apply? then e.now else ""));
    }
  }

  lemma AddedDurable(s: Store, m: Migration)
    requires Durable(s) && Clean(m.name) && Clean(m.appliedAt) && Restores(m)
    ensures var s' := s.(migrations := s.migrations[m.name := m]);
            CleanNames(s') && forall name <- s'.migrations :: Restores(s'.migrations[name])
  {
    hide Restores, Clean, Valid;
  }

  // Over every run the order lists exactly the stored names, each once.
  lemma {:induction false} RunValid(es: seq<Event>)
    ensures Valid(Run(es))
    decreases |es|
  {
    if es != [] {
      hide Valid, Step;
      RunValid(es[..|es| - 1]);
      StepValid(Run(es[..|es| - 1]), es[|es| - 1]);
    } else {
      assert Valid(EMPTY);
    }
  }

  lemma {:induction false} RunDurable(es: seq<Event>)
    requires forall i :: 0 <= i < |es| ==> Storable(es[i])
    ensures Durable(Run(es))
    decreases |es|
  {
    if es != [] {
      hide Durable, Step, Storable;
      RunDurable(es[..|es| - 1]);
      StepDurable(Run(es[..|es| - 1]), es[|es| - 1]);
    } else {
      assert Durable(EMPTY);
    }
  }

  // Restarting after any run of storable commands finds the same migrations in the same order.
  lemma RestartKeepsStore(es: seq<Event>)
    requires forall i :: 0 <= i < |es| ==> Storable(es[i])
    ensures Load(Saved(Run(es))) == Run(es)
  {
    hide Load, Saved, Run, Restores, CleanNames;
    RunDurable(es);
    LoadSave(Run(es));
  }

  ghost predicate Derived(s: Store) {
    forall name <- s.migrations :: s.migrations[name].rollbackSql == DeriveRollback(s.migrations[name].sql)
  }

  lemma StepDerived(s: Store, e: Event)
    requires Derived(s)
    ensures Derived(Step(s, e).0)
  {
    hide DeriveRollback;
  }

  lemma {:induction false} RunDerived(es: seq<Event>)
    ensures Derived(Run(es))
    decreases |es|
  {
    if es != [] {
      hide Derived, Step;
      RunDerived(es[..|es| - 1]);
      StepDerived(Run(es[..|es| - 1]), es[|es| - 1]);
    } else {
      assert Derived(EMPTY);
    }
  }

  predicate Kept(m: Migration) { Clean(m.name) && Clean(m.appliedAt) && Safe(m.sql) }

  // After any run of any commands: restarting finds the same store exactly when no stored name or time stamp has a tab or a
  // line break and no stored statement has a backslash directly before a 't' or an 'n'.
  lemma RestartIff(es: seq<Event>)
    ensures Load(Saved(Run(es))) == Run(es) <==> forall name <- Run(es).migrations :: Kept(Run(es).migrations[name])
  {
    hide Load, Saved, Run, DeriveRollback, Safe, Clean;
    var s := Run(es);
    RunValid(es);
    RunDerived(es);
    LoadSaveIff(s);
    forall name | name in s.migrations && Safe(s.migrations[name].sql) ensures Restores(s.migrations[name]) {
      RollbackSafe(s.migrations[name].sql);
    }
    assert forall name <- s.migrations :: Kept(s.migrations[name]) <==>
             Clean(name) && Clean(s.migrations[name].appliedAt) && Restores(s.migrations[name]);
  }
}
