/** The file of logical partitions: one tab-separated line for each partitioned table. */
module PartitionFile {
  import opened Text
  import opened Fields
  import opened Decimal
  import opened Partitions

  // ------------------------------------------------------------------------------------------
  // Saving

  function RangeTokens(rs: seq<RangeDef>): (r: seq<string>)
    ensures |r| == |rs| && forall i :: 0 <= i < |rs| ==> r[i] == rs[i].name + "=" + rs[i].limitStr
  {
    if rs == [] then [] else [rs[0].name + "=" + rs[0].limitStr] + RangeTokens(rs[1..])
  }

  function ListTokens(ls: seq<ListDef>): (r: seq<string>)
    ensures |r| == |ls| && forall i :: 0 <= i < |ls| ==> r[i] == ls[i].name + "=" + JoinOn(ls[i].values, '|')
  {
    if ls == [] then [] else [ls[0].name + "=" + JoinOn(ls[0].values, '|')] + ListTokens(ls[1..])
  }

  function LastField(p: Info): string {
    match p.kind
    case Range => "RANGES:" + JoinOn(RangeTokens(p.ranges), ',')
    case List => "LISTS:" + JoinOn(ListTokens(p.lists), ',')
    case _ => ""
  }

  function LineFields(name: string, p: Info): seq<string> {
    [name, KindText(p.kind), p.column, PrintInt(p.hashCount), LastField(p)]
  }

  // Tables of no known kind are passed over.
  function FileLines(m: Meta, names: seq<string>): seq<string>
    requires forall i :: 0 <= i < |names| ==> names[i] in m
    decreases |names|
  {
    if names == [] then []
    else
      var last := names[|names| - 1];
      FileLines(m, names[..|names| - 1])
      + if m[last].kind == Other then [] else [JoinOn(LineFields(last, m[last]), '\t')]
  }

  // ------------------------------------------------------------------------------------------
  // Loading

  // Tokens without '=' are passed over.
  function ReadRanges(tokens: seq<string>): seq<RangeDef> {
    if tokens == [] then []
    else
      var name := Before(tokens[0], '=');
      (if |name| == |tokens[0]| then []
       else var limit := tokens[0][|name| + 1..]; [CreatedRange(name, "", limit)])
      + ReadRanges(tokens[1..])
  }

  function ReadLists(tokens: seq<string>): seq<ListDef> {
    if tokens == [] then []
    else
      var name := Before(tokens[0], '=');
      (if |name| == |tokens[0]| then [] else [ListDef(name, GetLines(tokens[0][|name| + 1..], '|'))])
      + ReadLists(tokens[1..])
  }

  function ReadFields(f: seq<string>): Info
    requires |f| >= 4
  {
    var hash := StoI(f[3]);
    var count := if hash.Some? then hash.value else 0;
    if f[1] == "RANGE" then
      var rs := if |f| >= 5 && "RANGES:" <= f[4] then ReadRanges(GetLines(f[4][7..], ',')) else [];
      Info(false, Range, f[2], count, [], rs, [])
    else if f[1] == "LIST" then
      var ls := if |f| >= 5 && "LISTS:" <= f[4] then ReadLists(GetLines(f[4][6..], ',')) else [];
      Info(false, List, f[2], count, [], [], ls)
    else Info(false, KindOf(f[1]), f[2], count, [], [], [])
  }

  // m: the record of every table. A line for an unknown table is dropped.
  function LoadInfo(m: Meta, line: string): Meta {
    var f := SplitOn(line, '\t');
    if line == "" || |f| < 4 || f[0] !in m then m else m[f[0] := ReadFields(f)]
  }

  function LoadInfos(m: Meta, lines: seq<string>): Meta
    decreases |lines|
  {
    if lines == [] then m else LoadInfo(LoadInfos(m, lines[..|lines| - 1]), lines[|lines| - 1])
  }

  // ------------------------------------------------------------------------------------------
  // What comes back: no lower bounds and no children, and a list loses an empty last value.

  predicate Tidy(s: string) { Free(s, '\t') && Free(s, '\n') && Free(s, ',') }

  predicate TidyInfo(p: Info) {
    && Free(p.column, '\t') && Free(p.column, '\n') && 0 <= p.hashCount + TWO31 && p.hashCount < TWO31
    && (forall i :: 0 <= i < |p.ranges| ==>
          Tidy(p.ranges[i].name) && Free(p.ranges[i].name, '=') && Tidy(p.ranges[i].limitStr))
    && (forall i :: 0 <= i < |p.lists| ==> TidyList(p.lists[i]))
  }

  predicate TidyList(l: ListDef) {
    Tidy(l.name) && Free(l.name, '=') && forall i :: 0 <= i < |l.values| ==> Tidy(l.values[i]) && Free(l.values[i], '|')
  }

  function BareRanges(rs: seq<RangeDef>): (r: seq<RangeDef>)
    ensures |r| == |rs| && forall i :: 0 <= i < |rs| ==> r[i] == CreatedRange(rs[i].name, "", rs[i].limitStr)
  {
    if rs == [] then []
    else [CreatedRange(rs[0].name, "", rs[0].limitStr)] + BareRanges(rs[1..])
  }

  function BareLists(ls: seq<ListDef>): (r: seq<ListDef>)
    ensures |r| == |ls| && forall i :: 0 <= i < |ls| ==> r[i] == ListDef(ls[i].name, DropEmptyEnd(ls[i].values))
  {
    if ls == [] then [] else [ListDef(ls[0].name, DropEmptyEnd(ls[0].values))] + BareLists(ls[1..])
  }

  function Bare(p: Info): Info {
    Info(false, p.kind, p.column, p.hashCount, [], if p.kind == Range then BareRanges(p.ranges) else [],
         if p.kind == List then BareLists(p.lists) else [])
  }

  // What the format can carry: no children, no lower bound, limits as CREATE TABLE counts them, nothing of another kind,
  // and no list that ends in an empty value
  predicate Carried(p: Info) {
    && !p.physical && p.children == []
    && (p.kind != Range ==> p.ranges == []) && (p.kind != List ==> p.lists == [])
    && (forall i :: 0 <= i < |p.ranges| ==> p.ranges[i] == CreatedRange(p.ranges[i].name, "", p.ranges[i].limitStr))
    && (forall i :: 0 <= i < |p.lists| ==>
          p.lists[i].values == [] || p.lists[i].values[|p.lists[i].values| - 1] != "")
  }

  lemma NothingDropped(parts: seq<string>)
    ensures DropEmptyEnd(parts) == parts <==> parts == [] || parts[|parts| - 1] != ""
  {
    if parts != [] { assert |parts[..|parts| - 1]| != |parts|; }
  }

  lemma BareRangesSame(rs: seq<RangeDef>)
    ensures BareRanges(rs) == rs
            <==> forall i :: 0 <= i < |rs| ==> rs[i] == CreatedRange(rs[i].name, "", rs[i].limitStr)
  {
    hide CreatedRange;
    var r := BareRanges(rs);
    if forall i :: 0 <= i < |rs| ==> rs[i] == CreatedRange(rs[i].name, "", rs[i].limitStr) {
      assert forall i :: 0 <= i < |rs| ==> r[i] == rs[i];
    }
  }

  lemma BareListsSame(ls: seq<ListDef>)
    ensures BareLists(ls) == ls
            <==> forall i :: 0 <= i < |ls| ==> ls[i].values == [] || ls[i].values[|ls[i].values| - 1] != ""
  {
    var r := BareLists(ls);
    forall i | 0 <= i < |ls|
      ensures r[i] == ls[i] <==> ls[i].values == [] || ls[i].values[|ls[i].values| - 1] != ""
    {
      NothingDropped(ls[i].values);
    }
    hide DropEmptyEnd, BareLists;
    if forall i :: 0 <= i < |ls| ==> r[i] == ls[i] { assert r == ls; }
  }

  // A record comes back unchanged exactly when the format can carry it.
  lemma BareSame(p: Info)
    ensures Bare(p) == p <==> Carried(p)
  {
    BareRangesSame(p.ranges);
    BareListsSame(p.lists);
    hide BareRanges, BareLists, CreatedRange;
  }

  lemma FreeSum(a: string, b: string, c: char)
    requires Free(a, c) && Free(b, c)
    ensures Free(a + b, c)
  {
  }

  lemma TokenCut(name: string, rest: string)
    requires Free(name, '=')
    ensures var t := name + "=" + rest; Before(t, '=') == name && |name| < |t| && t[|name| + 1..] == rest
  {
    var t := name + "=" + rest;
    assert t == name + ("=" + rest);
    FindPart(name, '=', "=" + rest);
  }

  lemma {:induction false} RangesReadBack(rs: seq<RangeDef>)
    requires forall i :: 0 <= i < |rs| ==> Free(rs[i].name, '=')
    ensures ReadRanges(RangeTokens(rs)) == BareRanges(rs)
  {
    if rs != [] {
      hide CreatedRange;
      TokenCut(rs[0].name, rs[0].limitStr);
      RangesReadBack(rs[1..]);
      assert RangeTokens(rs)[1..] == RangeTokens(rs[1..]);
    }
  }

  lemma {:induction false} ListsReadBack(ls: seq<ListDef>)
    requires forall i :: 0 <= i < |ls| ==> TidyList(ls[i])
    ensures ReadLists(ListTokens(ls)) == BareLists(ls)
  {
    if ls != [] {
      hide GetLines, JoinOn, DropEmptyEnd;
      var values := JoinOn(ls[0].values, '|');
      TokenCut(ls[0].name, values);
      LinesJoined(ls[0].values, '|');
      ListsReadBack(ls[1..]);
      assert ListTokens(ls)[0] == ls[0].name + "=" + values;
      assert ListTokens(ls)[1..] == ListTokens(ls[1..]);
    }
  }

  lemma TokenTidy(name: string, rest: string, c: char)
    requires c != '=' && Free(name, c) && Free(rest, c)
    ensures Free(name + "=" + rest, c)
  {
    assert Free("=", c);
    hide Free;
    FreeSum(name, "=", c);
    FreeSum(name + "=", rest, c);
  }

  lemma RangeTokensTidy(rs: seq<RangeDef>, c: char)
    requires c != '='
    requires forall i :: 0 <= i < |rs| ==> Free(rs[i].name, c) && Free(rs[i].limitStr, c)
    ensures AllFree(RangeTokens(rs), c)
  {
    hide Free;
    forall i | 0 <= i < |rs| ensures Free(RangeTokens(rs)[i], c) {
      TokenTidy(rs[i].name, rs[i].limitStr, c);
    }
  }

  lemma ListTokensTidy(ls: seq<ListDef>, c: char)
    requires c != '=' && c != '|'
    requires forall i :: 0 <= i < |ls| ==> Free(ls[i].name, c) && AllFree(ls[i].values, c)
    ensures AllFree(ListTokens(ls), c)
  {
    hide Free, JoinOn;
    forall i | 0 <= i < |ls| ensures Free(ListTokens(ls)[i], c) {
      JoinPlain(ls[i].values, '|', c);
      TokenTidy(ls[i].name, JoinOn(ls[i].values, '|'), c);
    }
  }

  // Tokens hold a '=', so getline loses none of them.
  lemma NoEmptyToken(tokens: seq<string>)
    requires AllFree(tokens, ',') && forall i :: 0 <= i < |tokens| ==> tokens[i] != ""
    ensures GetLines(JoinOn(tokens, ','), ',') == tokens
  {
    LinesJoined(tokens, ',');
    hide GetLines, JoinOn;
  }

  lemma RangeFieldReadsBack(p: Info)
    requires TidyInfo(p) && p.kind == Range
    ensures var f := LastField(p); "RANGES:" <= f && ReadRanges(GetLines(f[7..], ',')) == BareRanges(p.ranges)
    ensures Free(LastField(p), '\t') && Free(LastField(p), '\n')
  {
    hide GetLines, JoinOn, ReadRanges, BareRanges;
    var tokens := RangeTokens(p.ranges);
    RangeTokensTidy(p.ranges, ',');
    RangeTokensTidy(p.ranges, '\t');
    RangeTokensTidy(p.ranges, '\n');
    NoEmptyToken(tokens);
    RangesReadBack(p.ranges);
    JoinPlain(tokens, ',', '\t');
    JoinPlain(tokens, ',', '\n');
    var head := "RANGES:";
    assert |head| == 7;
    FreeSum(head, JoinOn(tokens, ','), '\t');
    FreeSum(head, JoinOn(tokens, ','), '\n');
    assert (head + JoinOn(tokens, ','))[7..] == JoinOn(tokens, ',');
  }

  lemma ListFieldReadsBack(p: Info)
    requires TidyInfo(p) && p.kind == List
    ensures var f := LastField(p); "LISTS:" <= f && ReadLists(GetLines(f[6..], ',')) == BareLists(p.lists)
    ensures Free(LastField(p), '\t') && Free(LastField(p), '\n')
  {
    hide GetLines, JoinOn, ReadLists, BareLists;
    var tokens := ListTokens(p.lists);
    forall i | 0 <= i < |p.lists|
      ensures AllFree(p.lists[i].values, ',') && AllFree(p.lists[i].values, '\t') && AllFree(p.lists[i].values, '\n')
    {
      assert TidyList(p.lists[i]);
    }
    ListTokensTidy(p.lists, ',');
    ListTokensTidy(p.lists, '\t');
    ListTokensTidy(p.lists, '\n');
    NoEmptyToken(tokens);
    ListsReadBack(p.lists);
    JoinPlain(tokens, ',', '\t');
    JoinPlain(tokens, ',', '\n');
    var head := "LISTS:";
    assert |head| == 6;
    FreeSum(head, JoinOn(tokens, ','), '\t');
    FreeSum(head, JoinOn(tokens, ','), '\n');
    assert (head + JoinOn(tokens, ','))[6..] == JoinOn(tokens, ',');
  }

  lemma FieldsReadBack(name: string, p: Info)
    requires TidyInfo(p) && p.kind != Other
    ensures ReadFields(LineFields(name, p)) == Bare(p)
    ensures Free(LastField(p), '\t') && Free(LastField(p), '\n')
  {
    StoIPrintInt(p.hashCount);
    if p.kind == Range { RangeFieldReadsBack(p); }
    if p.kind == List { ListFieldReadsBack(p); }
    hide LastField, GetLines, ReadRanges, ReadLists, BareRanges, BareLists, StoI, PrintInt, TidyInfo;
  }

  lemma {:induction false} NumberTidy(v: int)
    ensures Free(PrintInt(v), '\t') && Free(PrintInt(v), '\n')
  {
    var p := Print(if v < 0 then -v else v);
    assert forall i :: 0 <= i < |p| ==> IsDigit(p[i]);
    hide Print;
    if v < 0 { assert PrintInt(v) == "-" + p; }
  }

  lemma FieldsTidy(name: string, p: Info, c: char)
    requires Free(name, c) && Free(p.column, c) && Free(LastField(p), c) && (c == '\t' || c == '\n')
    ensures AllFree(LineFields(name, p), c)
  {
    NumberTidy(p.hashCount);
    hide LastField, PrintInt;
    assert Free(KindText(p.kind), c);
    hide Free, KindText;
  }

  lemma LineReadsBack(m: Meta, name: string, p: Info)
    requires Free(name, '\t') && Free(name, '\n') && TidyInfo(p) && p.kind != Other
    ensures var line := JoinOn(LineFields(name, p), '\t'); LoadInfo(m, line) == (if name in m then m[name := Bare(p)] else m) && Free(line, '\n')
  {
    FieldsReadBack(name, p);
    FieldsTidy(name, p, '\t');
    FieldsTidy(name, p, '\n');
    var f := LineFields(name, p);
    assert |f| == 5 && f[0] == name;
    hide LineFields, ReadFields, Bare, SplitOn, Free, AllFree, TidyInfo;
    SplitJoined(f, '\t');
    JoinPlain(f, '\t', '\n');
    assert JoinOn(f, '\t') == f[0] + ['\t'] + JoinOn(f[1..], '\t');
  }

  // Three fields are too few; with four a record comes without ranges and lists, and with count 0 when the number is none.
  lemma ShortLines(m: Meta, f: seq<string>)
    requires f != [] && AllFree(f, '\t')
    ensures |f| <= 3 ==> LoadInfo(m, JoinOn(f, '\t')) == m
    ensures |f| == 4 && f[0] in m ==>
              var kind := if f[1] == "RANGE" then Range else if f[1] == "LIST" then List else KindOf(f[1]);
              var count := if StoI(f[3]).Some? then StoI(f[3]).value else 0;
              LoadInfo(m, JoinOn(f, '\t')) == m[f[0] := Info(false, kind, f[2], count, [], [], [])]
  {
    hide SplitOn, Free, AllFree, StoI, KindOf, ReadRanges, ReadLists;
    SplitJoined(f, '\t');
    if |f| == 4 { assert JoinOn(f, '\t') == f[0] + ['\t'] + JoinOn(f[1..], '\t'); }
  }

  lemma FreeMore(lines: seq<string>, line: string, c: char)
    requires AllFree(lines, c) && Free(line, c)
    ensures AllFree(lines + [line], c)
  {
    hide Free;
  }

  // The records of the tables known at start, after the lines of m's tables in `names`
  function BareAll(start: Meta, m: Meta, names: seq<string>): Meta {
    map name | name in start :: if name in names && name in m && m[name].kind != Other then Bare(m[name]) else start[name]
  }

  lemma BareNext(start: Meta, m: Meta, names: seq<string>, last: string)
    requires last in m
    ensures var all := BareAll(start, m, names);
            BareAll(start, m, names + [last]) ==
            if m[last].kind == Other || last !in all then all else all[last := Bare(m[last])]
  {
    hide Bare;
  }

  lemma {:induction false} LoadFileLines(start: Meta, m: Meta, names: seq<string>)
    requires forall i :: 0 <= i < |names| ==>
               names[i] in m && Free(names[i], '\t') && Free(names[i], '\n') && TidyInfo(m[names[i]])
    ensures LoadInfos(start, FileLines(m, names)) == BareAll(start, m, names) && AllFree(FileLines(m, names), '\n')
    decreases |names|
  {
    if names == [] {
      assert AllFree(FileLines(m, []), '\n');
      assert BareAll(start, m, []) == start;
    } else {
      var before, last := names[..|names| - 1], names[|names| - 1];
      assert names == before + [last];
      assert forall i :: 0 <= i < |before| ==> before[i] == names[i];
      hide Bare, BareAll, TidyInfo, Free, AllFree, LoadInfo, LineFields, JoinOn;
      LoadFileLines(start, m, before);
      BareNext(start, m, before, last);
      var lines := FileLines(m, before);
      if m[last].kind == Other {
        assert lines + [] == lines;
      } else {
        LineReadsBack(BareAll(start, m, before), last, m[last]);
        var line := JoinOn(LineFields(last, m[last]), '\t');
        assert (lines + [line])[..|lines|] == lines;
        FreeMore(lines, line, '\n');
      }
    }
  }

  // What a start knows after loading the file saved from m
  function Loaded(start: Meta, m: Meta): Meta {
    map name | name in start :: if name in m && m[name].kind != Other then Bare(m[name]) else start[name]
  }

  // Loading the saved file gives every known partitioned table its kind, column, hash count, and its ranges with their
  // limits or its lists with their values, in order. Tables that are no longer there are passed over, and tables without
  // partitions keep the record they have.
  lemma FileRoundTrip(start: Meta, m: Meta, names: seq<string>)
    requires forall name :: name in m <==> name in names
    requires forall name <- m :: Free(name, '\t') && Free(name, '\n') && TidyInfo(m[name])
    ensures LoadInfos(start, GetLines(Terminated(FileLines(m, names), '\n'), '\n')) == Loaded(start, m)
  {
    hide LoadInfos, FileLines, GetLines, Bare, TidyInfo;
    LoadFileLines(start, m, names);
    LinesTerminated(FileLines(m, names), '\n');
  }

  lemma LoadedSame(start: Meta, m: Meta)
    requires start.Keys == m.Keys && forall name <- m :: m[name].kind == Other ==> start[name] == m[name]
    ensures Loaded(start, m) == m <==> forall name <- m :: m[name].kind != Other ==> Carried(m[name])
  {
    forall name | name in m ensures Bare(m[name]) == m[name] <==> Carried(m[name]) { BareSame(m[name]); }
    hide Bare, Carried;
    var r := Loaded(start, m);
    assert r.Keys == m.Keys;
    if forall name <- m :: r[name] == m[name] {
      assert r == m;
    } else {
      var name :| name in m && r[name] != m[name];
      assert !Carried(m[name]);
    }
  }

  // When the same tables are there and the ones without partitions are alike, loading rebuilds every record exactly when
  // the format can carry each partitioned one.
  lemma FileExact(start: Meta, m: Meta, names: seq<string>)
    requires (forall name :: name in m <==> name in names) && start.Keys == m.Keys
    requires forall name <- m :: Free(name, '\t') && Free(name, '\n') && TidyInfo(m[name])
    requires forall name <- m :: m[name].kind == Other ==> start[name] == m[name]
    ensures LoadInfos(start, GetLines(Terminated(FileLines(m, names), '\n'), '\n')) == m
            <==> forall name <- m :: m[name].kind != Other ==> Carried(m[name])
  {
    hide LoadInfos, FileLines, GetLines, Loaded, TidyInfo, Carried, Free;
    FileRoundTrip(start, m, names);
    LoadedSame(start, m);
  }

  // ------------------------------------------------------------------------------------------
  // The saving loops

  method WriteRanges(ranges: seq<RangeDef>) returns (out: string)
    ensures out == JoinOn(RangeTokens(ranges), ',')
  {
    hide JoinOn;
    ghost var tokens := RangeTokens(ranges);
    out := "";
    JoinNothing(',');
    assert tokens[..0] == [];
    for i := 0 to |ranges|
      invariant out == JoinOn(tokens[..i], ',')
    {
      JoinNext(tokens, i, ',');
      if i > 0 { out := out + ","; }
      out := out + (ranges[i].name + "=" + ranges[i].limitStr);
    }
    assert tokens[..|tokens|] == tokens;
  }

  method WriteLists(lists: seq<ListDef>) returns (out: string)
    ensures out == JoinOn(ListTokens(lists), ',')
  {
    hide JoinOn;
    ghost var tokens := ListTokens(lists);
    out := "";
    JoinNothing(',');
    assert tokens[..0] == [];
    for i := 0 to |lists|
      invariant out == JoinOn(tokens[..i], ',')
    {
      JoinNext(tokens, i, ',');
      if i > 0 { out := out + ","; }
      var values := WriteValues(lists[i].values);
      out := out + (lists[i].name + "=" + values);
    }
    assert tokens[..|tokens|] == tokens;
  }

  method WriteValues(values: seq<string>) returns (out: string)
    ensures out == JoinOn(values, '|')
  {
    hide JoinOn;
    out := "";
    JoinNothing('|');
    assert values[..0] == [];
    for j := 0 to |values|
      invariant out == JoinOn(values[..j], '|')
    {
      JoinNext(values, j, '|');
      if j > 0 { out := out + "|"; }
      out := out + values[j];
    }
    assert values[..|values|] == values;
  }

  method WriteLine(name: string, pi: Info) returns (line: string)
    ensures line == JoinOn(LineFields(name, pi), '\t')
  {
    var last := "";
    if pi.kind == Range {
      var ranges := WriteRanges(pi.ranges);
      last := "RANGES:" + ranges;
    } else if pi.kind == List {
      var lists := WriteLists(pi.lists);
      last := "LISTS:" + lists;
    }
    assert last == LastField(pi);
    hide LastField, PrintInt, KindText;
    FiveFields(name, KindText(pi.kind), pi.column, PrintInt(pi.hashCount), last);
    line := name + "\t" + (KindText(pi.kind) + "\t" + (pi.column + "\t" + (PrintInt(pi.hashCount) + "\t" + last)));
  }

  lemma FiveFields(a: string, b: string, c: string, d: string, e: string)
    ensures JoinOn([a, b, c, d, e], '\t') == a + "\t" + (b + "\t" + (c + "\t" + (d + "\t" + e)))
  {
    JoinFirst(d, [e], '\t');
    JoinFirst(c, [d, e], '\t');
    JoinFirst(b, [c, d, e], '\t');
    JoinFirst(a, [b, c, d, e], '\t');
    assert JoinOn([e], '\t') == e;
    hide JoinOn;
    assert [d] + [e] == [d, e] && [c] + [d, e] == [c, d, e] && [b] + [c, d, e] == [b, c, d, e];
    assert [a] + [b, c, d, e] == [a, b, c, d, e];
  }

  // names: all tables
  method SavePartitions(m: Meta, names: seq<string>) returns (file: string)
    requires forall i :: 0 <= i < |names| ==> names[i] in m
    ensures file == Terminated(FileLines(m, names), '\n')
  {
    assert Terminated(FileLines(m, []), '\n') == "";
    hide LineFields, Terminated, JoinOn;
    file := "";
    assert names[..0] == [];
    for i := 0 to |names|
      invariant file == Terminated(FileLines(m, names[..i]), '\n')
    {
      var pi := m[names[i]];
      assert names[..i + 1][..i] == names[..i];
      if pi.kind != Other {
        var line := WriteLine(names[i], pi);
        TerminatedNext(FileLines(m, names[..i]), line, '\n');
        file := file + line + "\n";
      } else {
        assert FileLines(m, names[..i]) + [] == FileLines(m, names[..i]);
      }
    }
    assert names[..|names|] == names;
  }

  // ------------------------------------------------------------------------------------------
  // The loader's loops

  method ReadBound(name: string, limitStr: string) returns (r: RangeDef)
    ensures r == CreatedRange(name, "", limitStr)
  {
    r := RangeDef(name, "", limitStr, MIN_LL, MAX_LL);
    if limitStr == "MAXVALUE" {
      r := r.(limit := MAX_LL);
    } else {
      var v := StoLL(limitStr);
      r := r.(limit := if v.Some? then v.value else 0);
    }
  }

  method ReadRangeTokens(rdata: string) returns (ranges: seq<RangeDef>)
    ensures ranges == ReadRanges(GetLines(rdata, ','))
  {
    hide GetLines, CreatedRange;
    var tokens := GetLines(rdata, ',');
    ranges := [];
    assert tokens[0..] == tokens;
    for i := 0 to |tokens|
      invariant ReadRanges(tokens) == ranges + ReadRanges(tokens[i..])
    {
      assert tokens[i..][1..] == tokens[i + 1..];
      var name := Before(tokens[i], '=');
      if |name| < |tokens[i]| {
        var limitStr := tokens[i][|name| + 1..];
        var r := ReadBound(name, limitStr);
        ranges := ranges + [r];
      }
    }
  }

  // What one token gives
  function ListOf(token: string): seq<ListDef> {
    var name := Before(token, '=');
    if |name| == |token| then [] else [ListDef(name, GetLines(token[|name| + 1..], '|'))]
  }

  lemma ListsFirst(lists: seq<ListDef>, tokens: seq<string>)
    requires tokens != []
    ensures lists + ReadLists(tokens) == lists + ListOf(tokens[0]) + ReadLists(tokens[1..])
  {
    assert ReadLists(tokens) == ListOf(tokens[0]) + ReadLists(tokens[1..]);
    hide ReadLists, ListOf;
    Regroup(lists, ListOf(tokens[0]), ReadLists(tokens[1..]));
  }

  method ReadListTokens(ldata: string) returns (lists: seq<ListDef>)
    ensures lists == ReadLists(GetLines(ldata, ','))
  {
    assert ReadLists([]) == [];
    hide GetLines, ReadLists, Before;
    var tokens := GetLines(ldata, ',');
    lists := [];
    assert tokens[0..] == tokens;
    for i := 0 to |tokens|
      invariant ReadLists(tokens) == lists + ReadLists(tokens[i..])
    {
      ListsFirst(lists, tokens[i..]);
      assert tokens[i..][1..] == tokens[i + 1..];
      var name := Before(tokens[i], '=');
      if |name| < |tokens[i]| {
        lists := lists + [ListDef(name, GetLines(tokens[i][|name| + 1..], '|'))];
      }
    }
  }

  method LoadPartitions(file: string, known: Meta) returns (infos: Meta)
    ensures infos == LoadInfos(known, GetLines(file, '\n'))
  {
    hide GetLines, SplitOn, ReadRanges, ReadLists, StoI;
    var lines := GetLines(file, '\n');
    infos := known;
    assert lines[..0] == [];
    for i := 0 to |lines|
      invariant infos == LoadInfos(known, lines[..i])
    {
      assert lines[..i + 1][..i] == lines[..i];
      if lines[i] != "" {
        var fields := SplitFields(lines[i], '\t');
        if |fields| >= 4 {
          var hash := StoI(fields[3]);
          var pi := Info(false, Other, fields[2], if hash.Some? then hash.value else 0, [], [], []);
          if fields[1] == "RANGE" {
            pi := pi.(kind := Range);
            if |fields| >= 5 && "RANGES:" <= fields[4] {
              var ranges := ReadRangeTokens(fields[4][7..]);
              pi := pi.(ranges := ranges);
            }
          } else if fields[1] == "LIST" {
            pi := pi.(kind := List);
            if |fields| >= 5 && "LISTS:" <= fields[4] {
              var lists := ReadListTokens(fields[4][6..]);
              pi := pi.(lists := lists);
            }
          } else if fields[1] == "HASH" {
            pi := pi.(kind := Hash);
          }
          if fields[0] in infos { infos := infos[fields[0] := pi]; }
        }
      }
    }
    assert lines[..|lines|] == lines;
  }
}
