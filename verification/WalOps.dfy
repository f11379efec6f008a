/** Buffered operations as the log prints them, and `parseOpBlock`, which reads them back. */
module WalOps {
  import opened Text
  import opened Decimal
  import opened WalScan

  datatype Op = Op(opType: int, tableName: string, values: seq<string>, setCol: string, setVal: string,
                   whereCol: string, whereVal: string, alter: Alter)

  // ALTER <op> <colName> <colType> <colNew>
  datatype Alter = Alter(op: string, colName: string, colType: string, colNew: string)

  const NO_ALTER := Alter("", "", "", "")
  const NO_OP := Op(0, "", [], "", "", "", "", NO_ALTER)

  // ------------------------------------------------------------------------------------------
  // walEscape and walUnescape

  function EscapeChar(c: char): (r: string)
    ensures 1 <= |r| <= 2 && (|r| == 1 ==> r == [c])
    ensures |r| == 1 <==> c != '\\' && c != '\n' && c != '\r'
  {
    if c == '\\' then "\\\\" else if c == '\n' then "\\n" else if c == '\r' then "\\r" else [c]
  }

  function WalEscape(s: string): string {
    if s == "" then "" else EscapeChar(s[0]) + WalEscape(s[1..])
  }

  // What a backslash in front of c stands for
  function Named(c: char): Option<char> {
    if c == 'n' then Some('\n') else if c == 'r' then Some('\r') else if c == '\\' then Some('\\') else None
  }

  function WalUnescape(s: string): string
    decreases |s|
  {
    if s == "" then ""
    else if s[0] == '\\' && |s| > 1 && Named(s[1]).Some? then [Named(s[1]).value] + WalUnescape(s[2..])
    else [s[0]] + WalUnescape(s[1..])
  }

  method Escape(s: string) returns (out: string)
    ensures out == WalEscape(s)
  {
    out := "";
    assert s[0..] == s && "" + WalEscape(s) == WalEscape(s);
    for i := 0 to |s|
      invariant WalEscape(s) == out + WalEscape(s[i..])
    {
      assert s[i..][0] == s[i] && s[i..][1..] == s[i + 1..];
      Regroup(out, EscapeChar(s[i]), WalEscape(s[i + 1..]));
      if s[i] == '\\' { out := out + "\\\\"; }
      else if s[i] == '\n' { out := out + "\\n"; }
      else if s[i] == '\r' { out := out + "\\r"; }
      else { out := out + [s[i]]; }
    }
    assert s[|s|..] == "" && out + "" == out;
  }

  method Unescape(s: string) returns (out: string)
    ensures out == WalUnescape(s)
  {
    out := "";
    var i: nat := 0;
    assert s[0..] == s && "" + WalUnescape(s) == WalUnescape(s);
    while i < |s|
      invariant i <= |s| && WalUnescape(s) == out + WalUnescape(s[i..])
    {
      UnescapeNext(s, i);
      if s[i] == '\\' && i + 1 < |s| {
        var n := s[i + 1];
        if n == 'n' || n == 'r' || n == '\\' {
          var c := if n == 'n' then '\n' else if n == 'r' then '\r' else '\\';
          Regroup(out, [c], WalUnescape(s[i + 2..]));
          out := out + [c];
          i := i + 2;
          continue;
        }
      }
      Regroup(out, [s[i]], WalUnescape(s[i + 1..]));
      out := out + [s[i]];
      i := i + 1;
    }
    assert s[i..] == "" && out + "" == out;
  }

  lemma UnescapeNext(s: string, i: nat)
    requires i < |s|
    ensures WalUnescape(s[i..]) ==
            if s[i] == '\\' && i + 1 < |s| && Named(s[i + 1]).Some? then [Named(s[i + 1]).value] + WalUnescape(s[i + 2..])
            else [s[i]] + WalUnescape(s[i + 1..])
  {
    var t := s[i..];
    assert t[0] == s[i] && t[1..] == s[i + 1..];
    assert i + 1 < |s| ==> t[1] == s[i + 1] && t[2..] == s[i + 2..];
  }

  lemma UnescapeUnit(c: char, k: string)
    ensures WalUnescape(EscapeChar(c) + k) == [c] + WalUnescape(k)
  {
    var t := EscapeChar(c) + k;
    assert |EscapeChar(c)| == 1 ==> t[1..] == k;
    assert |EscapeChar(c)| == 2 ==> t[2..] == k;
  }

  // Every text survives: walUnescape inverts walEscape.
  lemma {:induction false} UnescapeEscape(s: string)
    ensures WalUnescape(WalEscape(s)) == s
  {
    hide WalUnescape;
    if s == "" {
      UnescapeNone();
    } else {
      UnescapeUnit(s[0], WalEscape(s[1..]));
      UnescapeEscape(s[1..]);
    }
  }

  lemma UnescapeNone()
    ensures WalUnescape("") == ""
  {
  }

  // Without a backslash or a line break
  predicate Clean(s: string) { forall i :: 0 <= i < |s| ==> s[i] != '\\' && s[i] != '\n' && s[i] != '\r' }

  lemma {:induction false} EscapeSame(s: string)
    ensures |s| <= |WalEscape(s)| && (WalEscape(s) == s <==> Clean(s))
  {
    if s != "" {
      var e := WalEscape(s[1..]);
      EscapeSame(s[1..]);
      assert s == [s[0]] + s[1..];
      if |EscapeChar(s[0])| == 1 {
        assert (EscapeChar(s[0]) + e)[1..] == e;
        if WalEscape(s) == s { assert e == s[1..]; }
      }
    }
  }

  // An escaped text stays on its line.
  lemma {:induction false} EscapeOneLine(s: string)
    ensures '\n' !in WalEscape(s) && '\r' !in WalEscape(s)
  {
    if s != "" { EscapeOneLine(s[1..]); }
  }

  // ------------------------------------------------------------------------------------------
  // parseOpBlock

  // src/wal/wal_recovery.hpp unescapes the values it reads; its copy src/wal_recovery.hpp takes them as they stand.
  datatype Reader = Unescaping | Verbatim

  function Taken(rd: Reader, text: string): string { if rd.Unescaping? then WalUnescape(text) else text }

  function ReadAlter(a: Alter, words: seq<string>): Alter {
    Alter(if |words| > 0 then words[0] else a.op, if |words| > 1 then words[1] else a.colName,
          if |words| > 2 then words[2] else a.colType, if |words| > 3 then words[3] else a.colNew)
  }

  // One line of an op block: the operation so far, and whether its OP line has been read
  function ReadLine(rd: Reader, op: Op, hasOp: bool, line: string): (Op, bool) {
    if Tagged(line, "OP ") then
      var rest := line[3..];
      var sp := Find(rest, ' ');
      if sp == |rest| then (op, hasOp)
      else match StoI(rest[..sp])
           case None => (op, hasOp)
           case Some(n) => (op.(opType := n, tableName := rest[sp + 1..]), true)
    else if Tagged(line, "VAL ") then (op.(values := op.values + [Taken(rd, line[4..])]), hasOp)
    else if Tagged(line, "SET ") then
      var rest := line[4..];
      var sp := Find(rest, ' ');
      if sp == |rest| then (op.(setCol := rest), hasOp)
      else (op.(setCol := rest[..sp], setVal := Taken(rd, rest[sp + 1..])), hasOp)
    else if Tagged(line, "WHERE ") then
      var rest := line[6..];
      var sp := Find(rest, ' ');
      if sp == |rest| then (op.(whereCol := rest), hasOp)
      else (op.(whereCol := rest[..sp], whereVal := Taken(rd, rest[sp + 1..])), hasOp)
    else if Tagged(line, "ALTER ") then (op.(alter := ReadAlter(op.alter, Words(line[6..]))), hasOp)
    else (op, hasOp)
  }

  function ReadLines(rd: Reader, op: Op, hasOp: bool, lines: seq<string>): (Op, bool)
    decreases |lines|
  {
    if lines == [] then (op, hasOp)
    else var (op', h) := ReadLine(rd, op, hasOp, lines[0]); ReadLines(rd, op', h, lines[1..])
  }

  function ParseOpBlock(rd: Reader, lines: seq<string>): Option<Op> {
    var (op, hasOp) := ReadLines(rd, NO_OP, false, lines);
    if hasOp then Some(op) else None
  }

  method ReadOpBlock(rd: Reader, lines: seq<string>) returns (op: Op, hasOp: bool)
    ensures if hasOp then ParseOpBlock(rd, lines) == Some(op) else ParseOpBlock(rd, lines) == None
  {
    op, hasOp := NO_OP, false;
    var i: nat := 0;
    assert lines[0..] == lines;
    while i < |lines|
      invariant i <= |lines| && ReadLines(rd, op, hasOp, lines[i..]) == ReadLines(rd, NO_OP, false, lines)
    {
      assert lines[i..][0] == lines[i] && lines[i..][1..] == lines[i + 1..];
      var next := ReadLine(rd, op, hasOp, lines[i]);
      op, hasOp := next.0, next.1;
      i := i + 1;
    }
    assert lines[i..] == [];
  }

  // ------------------------------------------------------------------------------------------
  // appendWal

  function ValueLines(values: seq<string>): seq<string> {
    if values == [] then [] else ["VAL " + WalEscape(values[0])] + ValueLines(values[1..])
  }

  function SetLines(op: Op): seq<string> {
    if op.setCol == "" then [] else ["SET " + op.setCol + " " + WalEscape(op.setVal)]
  }

  function WhereLines(op: Op): seq<string> {
    if op.whereCol == "" then [] else ["WHERE " + op.whereCol + " " + WalEscape(op.whereVal)]
  }

  function AlterText(a: Alter): string { a.op + " " + (a.colName + " " + (a.colType + " " + a.colNew)) }

  function AlterLine(a: Alter): string { "ALTER " + AlterText(a) }

  function AlterLines(op: Op): seq<string> { if op.alter.op == "" then [] else [AlterLine(op.alter)] }

  function OpLine(op: Op): string
    requires op.opType >= 0
  {
    "OP " + Print(op.opType) + " " + op.tableName
  }

  function OpLines(op: Op): seq<string>
    requires op.opType >= 0
  {
    [OpLine(op)] + ValueLines(op.values) + SetLines(op) + WhereLines(op) + AlterLines(op)
  }

  // The lines of an operation and the separator, as appendWal writes them
  method AppendWal(wal: seq<string>, op: Op) returns (r: seq<string>)
    requires op.opType >= 0
    ensures r == wal + OpLines(op) + ["---"]
  {
    hide WalEscape, ValueLines;
    r := wal + ["OP " + Print(op.opType) + " " + op.tableName];
    ghost var start := r;
    assert op.values[0..] == op.values;
    for i := 0 to |op.values|
      invariant start + ValueLines(op.values) == r + ValueLines(op.values[i..])
    {
      ValueLinesNext(op.values, i);
      var text := Escape(op.values[i]);
      Regroup(r, ["VAL " + text], ValueLines(op.values[i + 1..]));
      r := r + ["VAL " + text];
    }
    ValueLinesNone(op.values[|op.values|..]);
    assert r + [] == r && r == wal + ([OpLine(op)] + ValueLines(op.values));
    if op.setCol != "" { var text := Escape(op.setVal); r := r + ["SET " + op.setCol + " " + text]; }
    if op.whereCol != "" { var text := Escape(op.whereVal); r := r + ["WHERE " + op.whereCol + " " + text]; }
    if op.alter.op != "" {
      r := r + ["ALTER " + (op.alter.op + " " + (op.alter.colName + " " + (op.alter.colType + " " + op.alter.colNew)))];
    }
    r := r + ["---"];
  }

  lemma ValueLinesNext(values: seq<string>, i: nat)
    requires i < |values|
    ensures ValueLines(values[i..]) == ["VAL " + WalEscape(values[i])] + ValueLines(values[i + 1..])
  {
    assert values[i..][1..] == values[i + 1..];
  }

  lemma ValueLinesNone(values: seq<string>)
    ensures values == [] ==> ValueLines(values) == []
  {
  }

  // A word, or nothing
  predicate Plain(w: string) { forall i :: 0 <= i < |w| ==> !IsSpace(w[i]) }

  // No line break inside, and no carriage return at the end
  predicate OneLine(s: string) { '\n' !in s && (s == "" || s[|s| - 1] != '\r') }

  predicate ColumnName(s: string) { ' ' !in s && '\n' !in s }

  // What the format can carry: names without blanks, and no field of ALTER missing before another
  predicate Printable(op: Op) {
    && 0 <= op.opType < TWO31 && OneLine(op.tableName)
    && ColumnName(op.setCol) && (op.setCol == "" ==> op.setVal == "")
    && ColumnName(op.whereCol) && (op.whereCol == "" ==> op.whereVal == "")
    && Spoken(op.alter)
  }

  predicate Spoken(a: Alter) {
    && Plain(a.op) && Plain(a.colName) && Plain(a.colType) && Plain(a.colNew)
    && (a.op == "" ==> a.colName == "") && (a.colName == "" ==> a.colType == "") && (a.colType == "" ==> a.colNew == "")
  }

  // ------------------------------------------------------------------------------------------
  // Round trip

  // What comes back of a value
  function Back(rd: Reader, v: string): string { if rd.Unescaping? then v else WalEscape(v) }

  // What comes back of the values: the empty ones are dropped
  function BackAll(rd: Reader, values: seq<string>): seq<string> {
    if values == [] then [] else (if values[0] == "" then [] else [Back(rd, values[0])]) + BackAll(rd, values[1..])
  }

  // What comes back of an operation
  function BackOp(rd: Reader, op: Op): Op {
    op.(values := BackAll(rd, op.values), setVal := Back(rd, op.setVal), whereVal := Back(rd, op.whereVal))
  }

  lemma TakenBack(rd: Reader, v: string)
    ensures Taken(rd, WalEscape(v)) == Back(rd, v) && (WalEscape(v) == "" <==> v == "")
    ensures Back(rd, v) == v <==> rd.Unescaping? || Clean(v)
  {
    UnescapeEscape(v);
    EscapeSame(v);
  }

  lemma {:induction false} ReadConcat(rd: Reader, op: Op, h: bool, a: seq<string>, b: seq<string>)
    ensures ReadLines(rd, op, h, a + b) == var (op', h') := ReadLines(rd, op, h, a); ReadLines(rd, op', h', b)
    decreases |a|
  {
    if a == [] {
      assert a + b == b;
    } else {
      hide ReadLine;
      assert (a + b)[1..] == a[1..] + b;
      var (op', h') := ReadLine(rd, op, h, a[0]);
      ReadConcat(rd, op', h', a[1..], b);
    }
  }

  lemma ReadOne(rd: Reader, op: Op, h: bool, line: string)
    ensures ReadLines(rd, op, h, [line]) == ReadLine(rd, op, h, line)
  {
    hide ReadLine;
    assert [line][1..] == [];
    var (op', h') := ReadLine(rd, op, h, line);
    assert ReadLines(rd, op', h', []) == (op', h');
  }

  lemma DigitsNoBlank(s: string)
    requires AllDigits(s)
    ensures ' ' !in s
  {
  }

  lemma ReadOpLine(rd: Reader, op: Op, h: bool, n: nat, table: string)
    requires n < TWO31
    ensures ReadLine(rd, op, h, "OP " + Print(n) + " " + table) == (op.(opType := n, tableName := table), true)
  {
    hide StoI, Print, Find;
    var line := "OP " + Print(n) + " " + table;
    var rest := Print(n) + [' '] + table;
    assert line[3..] == rest;
    DigitsNoBlank(Print(n));
    FindPart(Print(n), ' ', [' '] + table);
    assert rest == Print(n) + ([' '] + table);
    StoIPrint(n);
    assert rest[..|Print(n)|] == Print(n) && rest[|Print(n)| + 1..] == table;
  }

  // A VAL line with nothing after the blank is dropped.
  lemma ReadValLine(rd: Reader, op: Op, h: bool, v: string)
    ensures ReadLine(rd, op, h, "VAL " + v) == (if v == "" then op else op.(values := op.values + [Taken(rd, v)]), h)
  {
    hide WalUnescape;
    var line := "VAL " + v;
    assert line[4..] == v && line[0] == 'V';
  }

  lemma {:induction false} ReadValues(rd: Reader, op: Op, h: bool, values: seq<string>)
    ensures ReadLines(rd, op, h, ValueLines(values)) == (op.(values := op.values + BackAll(rd, values)), h)
    decreases |values|
  {
    hide ReadLine, Back, Taken, WalEscape;
    if values == [] {
      assert op.values + [] == op.values;
    } else {
      hide ReadLines;
      var kept := if values[0] == "" then [] else [Back(rd, values[0])];
      var op' := op.(values := op.values + kept);
      ReadValLine(rd, op, h, WalEscape(values[0]));
      TakenBack(rd, values[0]);
      assert kept == [] ==> op' == op;
      ReadCons(rd, op, h, "VAL " + WalEscape(values[0]), ValueLines(values[1..]));
      ReadValues(rd, op', h, values[1..]);
      assert BackAll(rd, values) == kept + BackAll(rd, values[1..]);
      Regroup(op.values, kept, BackAll(rd, values[1..]));
    }
  }

  lemma ReadCons(rd: Reader, op: Op, h: bool, line: string, rest: seq<string>)
    ensures ReadLines(rd, op, h, [line] + rest) == var (op', h') := ReadLine(rd, op, h, line); ReadLines(rd, op', h', rest)
  {
    hide ReadLine;
    assert ([line] + rest)[1..] == rest;
  }

  lemma ReadSetLine(rd: Reader, op: Op, h: bool, col: string, v: string)
    requires ' ' !in col
    ensures ReadLine(rd, op, h, "SET " + col + " " + v) == (op.(setCol := col, setVal := Taken(rd, v)), h)
  {
    hide Find, WalUnescape;
    var line := "SET " + col + " " + v;
    var rest := col + [' '] + v;
    assert line[4..] == rest && line[0] == 'S';
    FindPart(col, ' ', [' '] + v);
    assert rest == col + ([' '] + v);
    assert rest[..|col|] == col && rest[|col| + 1..] == v;
  }

  lemma ReadWhereLine(rd: Reader, op: Op, h: bool, col: string, v: string)
    requires ' ' !in col
    ensures ReadLine(rd, op, h, "WHERE " + col + " " + v) == (op.(whereCol := col, whereVal := Taken(rd, v)), h)
  {
    hide Find, WalUnescape;
    var line := "WHERE " + col + " " + v;
    var rest := col + [' '] + v;
    assert line[6..] == rest && line[0] == 'W';
    FindPart(col, ' ', [' '] + v);
    assert rest == col + ([' '] + v);
    assert rest[..|col|] == col && rest[|col| + 1..] == v;
  }

  lemma {:induction false} WordOf(w: string, k: string)
    requires Plain(w) && (k == "" || IsSpace(k[0]))
    ensures Word(w + k) == w
  {
    if w == "" {
      assert w + k == k;
    } else {
      assert (w + k)[1..] == w[1..] + k;
      WordOf(w[1..], k);
    }
  }

  lemma WordsCons(w: string, k: string)
    requires Plain(w) && w != "" && (k == "" || IsSpace(k[0]))
    ensures Words(w + k) == [w] + Words(k)
  {
    WordOf(w, k);
    assert TrimLeft(w + k) == w + k;
    assert (w + k)[|w|..] == k;
  }

  lemma WordsBlank(k: string)
    ensures Words(" " + k) == Words(k)
  {
    TrimLeftPad(" ", k);
  }

  lemma WordsNone()
    ensures Words("") == []
  {
  }

  function Prepend(w: string, words: seq<string>): seq<string> { if w == "" then [] else [w] + words }

  // One more word, if there is one, in front of the rest
  lemma WordsMore(w: string, k: string, words: seq<string>)
    requires Plain(w) && Words(k) == words && (k == "" || IsSpace(k[0])) && (w == "" ==> words == [])
    ensures Words(w + k) == Prepend(w, words)
  {
    hide Words;
    if w == "" { assert w + k == k; } else { WordsCons(w, k); }
  }

  function AlterList(a: Alter): seq<string> {
    Prepend(a.op, Prepend(a.colName, Prepend(a.colType, Prepend(a.colNew, []))))
  }

  lemma ReadAlterList(a: Alter)
    requires Spoken(a)
    ensures ReadAlter(NO_ALTER, AlterList(a)) == a
  {
    var l3 := Prepend(a.colNew, []);
    var l2 := Prepend(a.colType, l3);
    var l1 := Prepend(a.colName, l2);
    assert a.colName != "" ==> l1[1..] == l2;
  }

  lemma AlterWords(a: Alter)
    requires Spoken(a)
    ensures Words(AlterText(a)) == AlterList(a)
  {
    hide Words, TrimLeft, Prepend;
    var k2 := " " + a.colNew;
    var k1 := " " + (a.colType + k2);
    var k0 := " " + (a.colName + k1);
    assert a.colNew + "" == a.colNew;
    PrependNone();
    WordsNone();
    WordsMore(a.colNew, "", []);
    WordsBlank(a.colNew);
    WordsMore(a.colType, k2, Words(k2));
    WordsBlank(a.colType + k2);
    WordsMore(a.colName, k1, Words(k1));
    WordsBlank(a.colName + k1);
    WordsMore(a.op, k0, Words(k0));
    assert AlterText(a) == a.op + k0;
  }

  lemma PrependNone()
    ensures forall words :: Prepend("", words) == []
  {
  }

  lemma ReadAlterLine(rd: Reader, op: Op, h: bool, a: Alter)
    requires op.alter == NO_ALTER && a != NO_ALTER && Spoken(a)
    ensures ReadLine(rd, op, h, AlterLine(a)) == (op.(alter := a), h)
  {
    hide Words, AlterList, ReadAlter;
    AlterWords(a);
    ReadAlterList(a);
    var line := AlterLine(a);
    assert line[6..] == AlterText(a) && line[0] == 'A';
  }

  // A time stamp line, or nothing
  predicate StampLine(front: seq<string>) { front == [] || (|front| == 1 && Tagged(front[0], "TS:")) }

  lemma FrontIgnored(rd: Reader, front: seq<string>)
    requires StampLine(front)
    ensures ReadLines(rd, NO_OP, false, front) == (NO_OP, false)
  {
    if front != [] {
      assert front == [front[0]] && front[0][0] == 'T';
      ReadOne(rd, NO_OP, false, front[0]);
    }
  }

  lemma ReadSetLines(rd: Reader, op: Op, from: Op)
    requires Printable(from) && op.setCol == "" && op.setVal == ""
    ensures ReadLines(rd, op, true, SetLines(from)) == (op.(setCol := from.setCol, setVal := Back(rd, from.setVal)), true)
  {
    hide ReadLine, WalEscape, WalUnescape;
    TakenBack(rd, from.setVal);
    if from.setCol != "" {
      ReadOne(rd, op, true, SetLines(from)[0]);
      ReadSetLine(rd, op, true, from.setCol, WalEscape(from.setVal));
    } else {
      assert Back(rd, "") == "" by { EscapeSame(""); }
    }
  }

  lemma ReadWhereLines(rd: Reader, op: Op, from: Op)
    requires Printable(from) && op.whereCol == "" && op.whereVal == ""
    ensures ReadLines(rd, op, true, WhereLines(from))
         == (op.(whereCol := from.whereCol, whereVal := Back(rd, from.whereVal)), true)
  {
    hide ReadLine, WalEscape, WalUnescape;
    TakenBack(rd, from.whereVal);
    if from.whereCol != "" {
      ReadOne(rd, op, true, WhereLines(from)[0]);
      ReadWhereLine(rd, op, true, from.whereCol, WalEscape(from.whereVal));
    } else {
      assert Back(rd, "") == "" by { EscapeSame(""); }
    }
  }

  lemma ReadAlterLines(rd: Reader, op: Op, from: Op)
    requires Printable(from) && op.alter == NO_ALTER
    ensures ReadLines(rd, op, true, AlterLines(from)) == (op.(alter := from.alter), true)
  {
    hide ReadLine, AlterLine;
    if from.alter.op != "" {
      ReadOne(rd, op, true, AlterLines(from)[0]);
      ReadAlterLine(rd, op, true, from.alter);
    }
  }

  // What parseOpBlock reads of a written operation, with or without a time stamp line in front
  lemma ParsePrinted(rd: Reader, op: Op, front: seq<string>)
    requires Printable(op) && StampLine(front)
    ensures ParseOpBlock(rd, front + OpLines(op)) == Some(BackOp(rd, op))
  {
    var l0 := [OpLine(op)];
    hide ReadLine, ReadLines, ValueLines, SetLines, WhereLines, AlterLines, Back, BackAll;
    var l1, l2, l3, l4 := ValueLines(op.values), SetLines(op), WhereLines(op), AlterLines(op);
    FrontIgnored(rd, front);
    ReadConcat(rd, NO_OP, false, front, OpLines(op));
    ReadConcat(rd, NO_OP, false, l0 + l1 + l2 + l3, l4);
    ReadConcat(rd, NO_OP, false, l0 + l1 + l2, l3);
    ReadConcat(rd, NO_OP, false, l0 + l1, l2);
    ReadConcat(rd, NO_OP, false, l0, l1);
    ReadOne(rd, NO_OP, false, l0[0]);
    ReadOpLine(rd, NO_OP, false, op.opType, op.tableName);
    var o0 := NO_OP.(opType := op.opType, tableName := op.tableName);
    ReadValues(rd, o0, true, op.values);
    assert [] + BackAll(rd, op.values) == BackAll(rd, op.values);
    var o1 := o0.(values := BackAll(rd, op.values));
    ReadSetLines(rd, o1, op);
    var o2 := o1.(setCol := op.setCol, setVal := Back(rd, op.setVal));
    ReadWhereLines(rd, o2, op);
    ReadAlterLines(rd, o2.(whereCol := op.whereCol, whereVal := Back(rd, op.whereVal)), op);
  }

  // The reader gives the value back as it was.
  predicate Kept(rd: Reader, v: string) { rd.Unescaping? || Clean(v) }

  predicate AllKept(rd: Reader, values: seq<string>) { forall i :: 0 <= i < |values| ==> values[i] != "" && Kept(rd, values[i]) }

  predicate Carried(rd: Reader, op: Op) { AllKept(rd, op.values) && Kept(rd, op.setVal) && Kept(rd, op.whereVal) }

  lemma {:induction false} BackKept(rd: Reader, values: seq<string>)
    ensures |BackAll(rd, values)| <= |values|
    ensures BackAll(rd, values) == values <==> AllKept(rd, values)
  {
    hide Back, WalEscape, Clean;
    if values != [] {
      var rest := BackAll(rd, values[1..]);
      BackKept(rd, values[1..]);
      TakenBack(rd, values[0]);
      assert values == [values[0]] + values[1..];
      assert AllKept(rd, values) <==> values[0] != "" && Kept(rd, values[0]) && AllKept(rd, values[1..]);
      if values[0] != "" {
        assert BackAll(rd, values)[0] == Back(rd, values[0]) && BackAll(rd, values)[1..] == rest;
      }
    }
  }

  lemma BackOpSame(rd: Reader, op: Op)
    ensures BackOp(rd, op) == op <==> Carried(rd, op)
  {
    hide BackAll, Back, AllKept, Clean;
    BackKept(rd, op.values);
    TakenBack(rd, op.setVal);
    TakenBack(rd, op.whereVal);
  }

  // What appendWal writes is read back exactly when no value is empty and, by the reader that does not unescape, when no
  // value has a backslash or a line break.
  lemma RoundTrip(rd: Reader, op: Op, front: seq<string>)
    requires Printable(op) && StampLine(front)
    ensures ParseOpBlock(rd, front + OpLines(op)) == Some(op) <==> Carried(rd, op)
  {
    hide ParseOpBlock, OpLines, BackOp, Carried;
    ParsePrinted(rd, op, front);
    BackOpSame(rd, op);
  }

  // An insert of an empty value and a 5 comes back as an insert of the 5 alone.
  lemma EmptyValueLost(rd: Reader)
    ensures var op := Op(0, "t", ["", "5"], "", "", "", "", NO_ALTER);
            Printable(op) && ParseOpBlock(rd, OpLines(op)) == Some(op.(values := ["5"]))
  {
    hide ParseOpBlock, OpLines;
    var op := Op(0, "t", ["", "5"], "", "", "", "", NO_ALTER);
    assert Printable(op) by { hide BackAll; }
    ParsePrinted(rd, op, []);
    assert [] + OpLines(op) == OpLines(op);
    BackFive(rd);
  }

  lemma BackFive(rd: Reader)
    ensures BackAll(rd, ["", "5"]) == ["5"] && Back(rd, "") == ""
  {
    hide WalEscape, BackAll;
    EscapeSame("5");
    EscapeSame("");
    BackAllStep(rd, ["", "5"]);
    BackAllStep(rd, ["5"]);
    assert ["", "5"][1..] == ["5"] && ["5"][1..] == [];
    BackAllNone(rd);
  }

  lemma BackAllStep(rd: Reader, values: seq<string>)
    requires values != []
    ensures BackAll(rd, values)
         == (if values[0] == "" then [] else [Back(rd, values[0])]) + BackAll(rd, values[1..])
  {
  }

  lemma BackAllNone(rd: Reader)
    ensures BackAll(rd, []) == []
  {
  }

  // ------------------------------------------------------------------------------------------
  // Lines

  predicate AllOneLine(lines: seq<string>) { forall i :: 0 <= i < |lines| ==> OneLine(lines[i]) }

  lemma OneLineAppend(a: string, b: string)
    requires '\n' !in a && OneLine(b) && b != ""
    ensures OneLine(a + b)
  {
  }

  lemma EscapedLine(a: string, v: string)
    requires OneLine(a)
    ensures OneLine(a + WalEscape(v))
  {
    hide WalEscape;
    EscapeOneLine(v);
    if WalEscape(v) == "" { assert a + WalEscape(v) == a; } else { OneLineAppend(a, WalEscape(v)); }
  }

  lemma {:induction false} ValuesOneLine(values: seq<string>)
    ensures AllOneLine(ValueLines(values))
  {
    if values != [] {
      hide WalEscape;
      EscapedLine("VAL ", values[0]);
      ValuesOneLine(values[1..]);
    }
  }

  lemma PlainOneLine(w: string)
    requires Plain(w)
    ensures OneLine(w)
  {
    assert forall k :: 0 <= k < |w| ==> !IsSpace(w[k]);
  }

  lemma SpokenOneLine(a: Alter)
    requires Spoken(a)
    ensures OneLine(AlterLine(a))
  {
    hide OneLine, Plain;
    PlainOneLine(a.op);
    PlainOneLine(a.colName);
    PlainOneLine(a.colType);
    PlainOneLine(a.colNew);
    OneLineWords(a.op, a.colName, a.colType, a.colNew);
    assert AlterLine(a) == "ALTER " + a.op + " " + a.colName + " " + a.colType + " " + a.colNew;
  }

  lemma OneLineWords(a: string, b: string, c: string, d: string)
    requires OneLine(a) && OneLine(b) && OneLine(c) && OneLine(d)
    ensures OneLine("ALTER " + a + " " + b + " " + c + " " + d)
  {
    var t := "ALTER " + a + " " + b + " " + c + " ";
    assert '\n' !in t;
    assert d == "" ==> t + d == t;
  }

  lemma OpLineOneLine(op: Op)
    requires Printable(op)
    ensures OneLine(OpLine(op))
  {
    hide Print;
    var p := Print(op.opType);
    assert '\n' !in "OP " + p + " ";
    assert op.tableName == "" ==> OpLine(op) == "OP " + p + " ";
  }

  // Every text the writer puts into the log stays on its line.
  lemma OpOneLine(op: Op)
    requires Printable(op)
    ensures AllOneLine(OpLines(op))
  {
    hide OneLine, ValueLines, AlterLine, OpLine, WalEscape;
    OpLineOneLine(op);
    ValuesOneLine(op.values);
    ColumnLine("SET ", op.setCol);
    ColumnLine("WHERE ", op.whereCol);
    EscapedLine("SET " + op.setCol + " ", op.setVal);
    EscapedLine("WHERE " + op.whereCol + " ", op.whereVal);
    SpokenOneLine(op.alter);
  }

  lemma ColumnLine(tag: string, col: string)
    requires ColumnName(col) && '\n' !in tag
    ensures OneLine(tag + col + " ")
  {
  }
}
