/** Partition metadata: the two files written at shutdown must load back to the records they were written from. */
module Partitions {
  import opened Text
  import opened Fields
  import opened Decimal

  // Other: a table that is not partitioned
  datatype Kind = Range | List | Hash | Other

  datatype RangeDef = RangeDef(name: string, fromStr: string, limitStr: string, fromVal: int, limit: int)

  datatype ListDef = ListDef(name: string, values: seq<string>)

  datatype Info = Info(physical: bool, kind: Kind, column: string, hashCount: int,
                       children: seq<string>, ranges: seq<RangeDef>, lists: seq<ListDef>)

  const MAX_LL: int := TWO63 - 1

  function KindText(k: Kind): string {
    match k case Range => "RANGE" case List => "LIST" case Hash => "HASH" case Other => ""
  }

  function KindOf(s: string): Kind {
    if s == "RANGE" then Range else if s == "LIST" then List else if s == "HASH" then Hash else Other
  }

  const MIN_LL: int := 0 - TWO63

  // The numbers that loading gives the bounds of a range: MAXVALUE is the largest 64-bit number, and a bound that is
  // empty or no number keeps the record's defaults, the smallest and the largest number.
  function FromOf(s: string): int { match StoLL(s) case Some(v) => v case None => MIN_LL }

  function LimitOf(s: string): int {
    if s == "MAXVALUE" then MAX_LL else match StoLL(s) case Some(v) => v case None => MAX_LL
  }

  // ------------------------------------------------------------------------------------------
  // The file of physical partitions: one line for the table, one for each child, range and list

  function TableLine(name: string, p: Info): seq<string> {
    ["TABLE", name, KindText(p.kind), p.column, PrintInt(p.hashCount)]
  }

  function ChildLine(name: string, child: string): seq<string> { ["CHILD", name, child] }

  function RangeLine(name: string, r: RangeDef): seq<string> { ["RANGE", name, r.name, r.fromStr, r.limitStr] }

  function ListLine(name: string, l: ListDef): seq<string> { ["LIST", name, l.name, JoinOn(l.values, ',')] }

  function Lines(fields: seq<seq<string>>): seq<string> {
    if fields == [] then [] else [JoinOn(fields[0], '|')] + Lines(fields[1..])
  }

  function ChildLines(name: string, cs: seq<string>): seq<seq<string>> {
    if cs == [] then [] else [ChildLine(name, cs[0])] + ChildLines(name, cs[1..])
  }

  function RangeLines(name: string, rs: seq<RangeDef>): seq<seq<string>> {
    if rs == [] then [] else [RangeLine(name, rs[0])] + RangeLines(name, rs[1..])
  }

  function ListLines(name: string, ls: seq<ListDef>): seq<seq<string>> {
    if ls == [] then [] else [ListLine(name, ls[0])] + ListLines(name, ls[1..])
  }

  function Record(name: string, p: Info): seq<string> {
    Lines([TableLine(name, p)]) + Lines(ChildLines(name, p.children)) + Lines(RangeLines(name, p.ranges))
    + Lines(ListLines(name, p.lists))
  }

  // ------------------------------------------------------------------------------------------
  // Loading: each line looks a record up, appends to it and stores it back.

  type Meta = map<string, Info>

  function LoadFields(m: Meta, f: seq<string>): Meta { LoadFive(m, Nth(f, 0), Nth(f, 1), Nth(f, 2), Nth(f, 3), Nth(f, 4)) }

  function LoadFive(m: Meta, tag: string, name: string, a: string, b: string, c: string): Meta {
    if tag == "TABLE" then
      var hash := StoI(c);
      m[name := Info(true, KindOf(a), b, if hash.Some? then hash.value else 0, [], [], [])]
    else if name !in m || !m[name].physical then m
    else if tag == "CHILD" then AddChildren(m, name, [a])
    else if tag == "RANGE" then AddRanges(m, name, [RangeDef(a, b, c, FromOf(b), LimitOf(c))])
    else if tag == "LIST" then AddLists(m, name, [ListDef(a, NonEmpty(GetLines(b, ',')))])
    else m
  }

  function AddChildren(m: Meta, name: string, cs: seq<string>): Meta
    requires name in m
  {
    m[name := m[name].(children := m[name].children + cs)]
  }

  function AddRanges(m: Meta, name: string, rs: seq<RangeDef>): Meta
    requires name in m
  {
    m[name := m[name].(ranges := m[name].ranges + rs)]
  }

  function AddLists(m: Meta, name: string, ls: seq<ListDef>): Meta
    requires name in m
  {
    m[name := m[name].(lists := m[name].lists + ls)]
  }

  lemma AddInParts(m: Meta, name: string, cs: seq<string>, ds: seq<string>, rs: seq<RangeDef>, qs: seq<RangeDef>,
                   ls: seq<ListDef>, ks: seq<ListDef>)
    requires name in m
    ensures AddChildren(AddChildren(m, name, cs), name, ds) == AddChildren(m, name, cs + ds)
    ensures AddRanges(AddRanges(m, name, rs), name, qs) == AddRanges(m, name, rs + qs)
    ensures AddLists(AddLists(m, name, ls), name, ks) == AddLists(m, name, ls + ks)
    ensures AddChildren(m, name, []) == m && AddRanges(m, name, []) == m && AddLists(m, name, []) == m
  {
    var p := m[name];
    assert p.children + cs + ds == p.children + (cs + ds) && p.children + [] == p.children;
    assert p.ranges + rs + qs == p.ranges + (rs + qs) && p.ranges + [] == p.ranges;
    assert p.lists + ls + ks == p.lists + (ls + ks) && p.lists + [] == p.lists;
  }

  function LoadLine(m: Meta, line: string): Meta { if line == "" then m else LoadFields(m, GetLines(line, '|')) }

  function LoadLines(m: Meta, lines: seq<string>): Meta
    decreases |lines|
  {
    if lines == [] then m else LoadLines(LoadLine(m, lines[0]), lines[1..])
  }

  lemma {:induction false} LoadConcat(m: Meta, a: seq<string>, b: seq<string>)
    ensures LoadLines(m, a + b) == LoadLines(LoadLines(m, a), b)
    decreases |a|
  {
    if a == [] {
      assert a + b == b;
    } else {
      assert (a + b)[1..] == a[1..] + b;
      LoadConcat(LoadLine(m, a[0]), a[1..], b);
    }
  }

  // ------------------------------------------------------------------------------------------
  // What comes back: the record with its numbers read from their texts and without empty list values

  predicate Plain(s: string) { Free(s, '|') && Free(s, '\n') }

  predicate PlainRange(r: RangeDef) { Plain(r.name) && Plain(r.fromStr) && Plain(r.limitStr) }

  predicate PlainList(l: ListDef) {
    Plain(l.name) && forall i :: 0 <= i < |l.values| ==> Plain(l.values[i]) && Free(l.values[i], ',')
  }

  // No delimiter in any text, and a hash count of 32 bits
  predicate PlainInfo(p: Info) {
    && Plain(p.column) && 0 <= p.hashCount + TWO31 && p.hashCount < TWO31
    && (forall i :: 0 <= i < |p.children| ==> Plain(p.children[i]))
    && (forall i :: 0 <= i < |p.ranges| ==> PlainRange(p.ranges[i]))
    && (forall i :: 0 <= i < |p.lists| ==> PlainList(p.lists[i]))
  }

  function RereadRange(r: RangeDef): RangeDef { r.(fromVal := FromOf(r.fromStr), limit := LimitOf(r.limitStr)) }

  function RereadList(l: ListDef): ListDef { l.(values := NonEmpty(l.values)) }

  function RereadRanges(rs: seq<RangeDef>): (r: seq<RangeDef>)
    ensures |r| == |rs| && forall i :: 0 <= i < |rs| ==> r[i] == RereadRange(rs[i])
  {
    if rs == [] then [] else [RereadRange(rs[0])] + RereadRanges(rs[1..])
  }

  function RereadLists(ls: seq<ListDef>): (r: seq<ListDef>)
    ensures |r| == |ls| && forall i :: 0 <= i < |ls| ==> r[i] == RereadList(ls[i])
  {
    if ls == [] then [] else [RereadList(ls[0])] + RereadLists(ls[1..])
  }

  function Reread(p: Info): Info {
    Info(true, p.kind, p.column, p.hashCount, p.children, RereadRanges(p.ranges), RereadLists(p.lists))
  }

  lemma {:induction false} NonEmptyLines(parts: seq<string>)
    ensures NonEmpty(DropEmptyEnd(parts)) == NonEmpty(parts)
  {
    if |parts| > 1 {
      NonEmptyLines(parts[1..]);
      DropLater(parts);
      assert ([parts[0]] + DropEmptyEnd(parts[1..]))[1..] == DropEmptyEnd(parts[1..]);
    } else if |parts| == 1 && parts[0] == "" {
      assert parts[..0] == [] && parts[1..] == [];
    }
  }

  // A physical record comes back unchanged exactly when its numbers are those of their texts and no list value is empty.
  lemma RereadSame(p: Info)
    requires p.physical
    ensures Reread(p) == p <==>
      && (forall i :: 0 <= i < |p.ranges| ==>
            p.ranges[i].fromVal == FromOf(p.ranges[i].fromStr) && p.ranges[i].limit == LimitOf(p.ranges[i].limitStr))
      && (forall i :: 0 <= i < |p.lists| ==> forall j :: 0 <= j < |p.lists[i].values| ==> p.lists[i].values[j] != "")
  {
    hide FromOf, LimitOf;
    var q := Reread(p);
    forall i | 0 <= i < |p.lists|
      ensures q.lists[i] == p.lists[i] <==> forall j :: 0 <= j < |p.lists[i].values| ==> p.lists[i].values[j] != ""
    {
      NonEmptyAll(p.lists[i].values);
    }
    if q == p {
      forall i | 0 <= i < |p.ranges|
        ensures p.ranges[i].fromVal == FromOf(p.ranges[i].fromStr) && p.ranges[i].limit == LimitOf(p.ranges[i].limitStr)
      {
        assert q.ranges[i] == RereadRange(p.ranges[i]);
      }
    } else {
      assert q.ranges != p.ranges || q.lists != p.lists;
    }
  }

  // ------------------------------------------------------------------------------------------
  // Records as CREATE TABLE makes them: a bound that is no number counts as 0, and only an empty lower bound keeps its
  // default.

  function CreatedRange(name: string, fromStr: string, limitStr: string): RangeDef {
    var fromVal := if fromStr == "" then MIN_LL else match StoLL(fromStr) case Some(v) => v case None => 0;
    RangeDef(name, fromStr, limitStr, fromVal, CreatedLimit(limitStr))
  }

  function CreatedLimit(s: string): int {
    if s == "MAXVALUE" then MAX_LL else match StoLL(s) case Some(v) => v case None => 0
  }

  predicate Created(p: Info) {
    && p.physical
    && forall i :: 0 <= i < |p.ranges| ==>
         p.ranges[i] == CreatedRange(p.ranges[i].name, p.ranges[i].fromStr, p.ranges[i].limitStr)
  }

  // A bound that is a number, or one of the two words for no bound
  predicate ReadableRange(r: RangeDef) {
    (r.fromStr == "" || StoLL(r.fromStr).Some?) && (r.limitStr == "MAXVALUE" || StoLL(r.limitStr).Some?)
  }

  lemma StoLLEmpty()
    ensures StoLL("").None?
  {
  }

  lemma CreatedRangeSame(r: RangeDef)
    requires r == CreatedRange(r.name, r.fromStr, r.limitStr)
    ensures r.fromVal == FromOf(r.fromStr) && r.limit == LimitOf(r.limitStr) <==> ReadableRange(r)
  {
    StoLLEmpty();
    hide StoLL;
  }

  // A record made by CREATE TABLE survives a restart exactly when every bound can be read and no list value is empty. A
  // text bound such as 'a' is created as 0 and comes back as the smallest or largest number.
  lemma CreatedComesBack(p: Info)
    requires Created(p)
    ensures Reread(p) == p <==>
      && (forall i :: 0 <= i < |p.ranges| ==> ReadableRange(p.ranges[i]))
      && (forall i :: 0 <= i < |p.lists| ==> forall j :: 0 <= j < |p.lists[i].values| ==> p.lists[i].values[j] != "")
  {
    RereadSame(p);
    hide Reread, ReadableRange, FromOf, LimitOf;
    forall i | 0 <= i < |p.ranges|
      ensures p.ranges[i].fromVal == FromOf(p.ranges[i].fromStr) && p.ranges[i].limit == LimitOf(p.ranges[i].limitStr)
              <==> ReadableRange(p.ranges[i])
    {
      CreatedRangeSame(p.ranges[i]);
    }
    hide CreatedRange;
  }

  // A range with text bounds: created with 0 and 0, loaded with the whole range of numbers
  lemma TextBoundsWiden()
    ensures var r := CreatedRange("p", "a", "b");
            && r.fromVal == 0 && r.limit == 0
            && RereadRange(r).fromVal == -9223372036854775808 && RereadRange(r).limit == 9223372036854775807
  {
    NoNumber("a");
    NoNumber("b");
  }

  lemma NoNumber(s: string)
    requires |s| == 1 && IsAlpha(s[0])
    ensures StoLL(s).None?
  {
    assert TrimLeft(s) == s;
  }

  // ------------------------------------------------------------------------------------------
  // Line by line

  lemma NthDropped(f: seq<string>, k: nat)
    ensures Nth(DropEmptyEnd(f), k) == Nth(f, k)
  {
  }

  lemma LoadPrinted(m: Meta, f: seq<string>)
    requires AllFree(f, '|') && |f| > 1
    ensures LoadLine(m, JoinOn(f, '|')) == LoadFields(m, f) && JoinOn(f, '|') != ""
  {
    hide LoadFive, Nth, DropEmptyEnd, GetLines;
    LinesJoined(f, '|');
    NthDropped(f, 0);
    NthDropped(f, 1);
    NthDropped(f, 2);
    NthDropped(f, 3);
    NthDropped(f, 4);
  }

  lemma LoadTable(m: Meta, name: string, p: Info)
    requires Plain(name) && PlainInfo(p)
    ensures LoadFields(m, TableLine(name, p)) == m[name := Info(true, p.kind, p.column, p.hashCount, [], [], [])]
    ensures AllFree(TableLine(name, p), '|') && AllFree(TableLine(name, p), '\n')
  {
    StoIPrintInt(p.hashCount);
    PrintedIsPlain(p.hashCount);
    hide PrintInt, StoI;
    assert KindOf(KindText(p.kind)) == p.kind && Plain(KindText(p.kind));
  }

  lemma TablePrintable(name: string, p: Info)
    requires Plain(name) && PlainInfo(p)
    ensures AllPrintable([TableLine(name, p)])
  {
    LoadTable(map[], name, p);
  }

  lemma PrintedIsPlain(v: int)
    ensures Plain(PrintInt(v))
  {
    var p := Print(if v < 0 then -v else v);
    assert forall i :: 0 <= i < |p| ==> IsDigit(p[i]);
    hide Print;
    if v < 0 { assert PrintInt(v) == "-" + p; }
  }

  lemma {:induction false} JoinPlain(parts: seq<string>, c: char, d: char)
    requires AllFree(parts, d) && c != d
    ensures Free(JoinOn(parts, c), d)
  {
    if |parts| > 1 { JoinPlain(parts[1..], c, d); }
  }

  lemma ListValues(l: ListDef)
    requires PlainList(l)
    ensures NonEmpty(GetLines(JoinOn(l.values, ','), ',')) == NonEmpty(l.values)
    ensures Plain(JoinOn(l.values, ','))
  {
    hide GetLines, JoinOn, NonEmpty, DropEmptyEnd;
    LinesJoined(l.values, ',');
    NonEmptyLines(l.values);
    JoinPlain(l.values, ',', '|');
    JoinPlain(l.values, ',', '\n');
  }

  // ------------------------------------------------------------------------------------------
  // Section by section

  ghost predicate AllPrintable(fields: seq<seq<string>>) {
    forall i :: 0 <= i < |fields| ==> |fields[i]| > 1 && AllFree(fields[i], '|') && AllFree(fields[i], '\n')
  }

  function LoadAll(m: Meta, fields: seq<seq<string>>): Meta
    decreases |fields|
  {
    if fields == [] then m else LoadAll(LoadFields(m, fields[0]), fields[1..])
  }

  lemma {:induction false} LoadPrintedAll(m: Meta, fields: seq<seq<string>>)
    requires AllPrintable(fields)
    ensures LoadLines(m, Lines(fields)) == LoadAll(m, fields) && AllFree(Lines(fields), '\n')
    decreases |fields|
  {
    if fields != [] {
      hide LoadFields, LoadLine;
      LoadPrinted(m, fields[0]);
      JoinPlain(fields[0], '|', '\n');
      LoadPrintedAll(LoadFields(m, fields[0]), fields[1..]);
      assert Lines(fields)[1..] == Lines(fields[1..]);
    }
  }

  lemma LoadChild(m: Meta, name: string, c: string)
    requires name in m && m[name].physical
    ensures LoadFields(m, ChildLine(name, c)) == AddChildren(m, name, [c])
  {
    hide AddChildren;
  }

  lemma LoadRange(m: Meta, name: string, r: RangeDef)
    requires name in m && m[name].physical
    ensures LoadFields(m, RangeLine(name, r)) == AddRanges(m, name, [RereadRange(r)])
  {
    hide AddRanges, FromOf, LimitOf;
  }

  lemma LoadList(m: Meta, name: string, l: ListDef)
    requires name in m && m[name].physical && PlainList(l)
    ensures LoadFields(m, ListLine(name, l)) == AddLists(m, name, [RereadList(l)])
  {
    ListValues(l);
    hide AddLists, NonEmpty, GetLines, JoinOn;
  }

  lemma {:induction false} LoadChildren(m: Meta, name: string, cs: seq<string>)
    requires name in m && m[name].physical && Plain(name) && forall i :: 0 <= i < |cs| ==> Plain(cs[i])
    ensures LoadAll(m, ChildLines(name, cs)) == AddChildren(m, name, cs)
    decreases |cs|
  {
    if cs == [] {
      AddInParts(m, name, [], [], [], [], [], []);
    } else {
      LoadChild(m, name, cs[0]);
      var m' := AddChildren(m, name, [cs[0]]);
      assert name in m' && m'[name].physical;
      hide LoadFields, AddChildren, ChildLine;
      LoadChildren(m', name, cs[1..]);
      AddInParts(m, name, [cs[0]], cs[1..], [], [], [], []);
      assert [cs[0]] + cs[1..] == cs;
    }
  }

  lemma {:induction false} LoadRanges(m: Meta, name: string, rs: seq<RangeDef>)
    requires name in m && m[name].physical && Plain(name) && forall i :: 0 <= i < |rs| ==> PlainRange(rs[i])
    ensures LoadAll(m, RangeLines(name, rs)) == AddRanges(m, name, RereadRanges(rs))
    decreases |rs|
  {
    if rs == [] {
      AddInParts(m, name, [], [], [], [], [], []);
    } else {
      LoadRange(m, name, rs[0]);
      var m' := AddRanges(m, name, [RereadRange(rs[0])]);
      assert name in m' && m'[name].physical;
      hide LoadFields, AddRanges, RereadRange, RangeLine;
      LoadRanges(m', name, rs[1..]);
      AddInParts(m, name, [], [], [RereadRange(rs[0])], RereadRanges(rs[1..]), [], []);
    }
  }

  lemma {:induction false} LoadLists(m: Meta, name: string, ls: seq<ListDef>)
    requires name in m && m[name].physical && Plain(name) && forall i :: 0 <= i < |ls| ==> PlainList(ls[i])
    ensures LoadAll(m, ListLines(name, ls)) == AddLists(m, name, RereadLists(ls))
    decreases |ls|
  {
    if ls == [] {
      AddInParts(m, name, [], [], [], [], [], []);
    } else {
      LoadList(m, name, ls[0]);
      var m' := AddLists(m, name, [RereadList(ls[0])]);
      assert name in m' && m'[name].physical;
      hide LoadFields, AddLists, RereadList, ListLine;
      LoadLists(m', name, ls[1..]);
      AddInParts(m, name, [], [], [], [], [RereadList(ls[0])], RereadLists(ls[1..]));
    }
  }

  lemma {:induction false} ChildrenPrintable(name: string, cs: seq<string>)
    requires Plain(name) && forall i :: 0 <= i < |cs| ==> Plain(cs[i])
    ensures AllPrintable(ChildLines(name, cs))
  {
    if cs != [] {
      ChildrenPrintable(name, cs[1..]);
      PrintableFirst(ChildLine(name, cs[0]), ChildLines(name, cs[1..]));
    }
  }

  lemma {:induction false} RangesPrintable(name: string, rs: seq<RangeDef>)
    requires Plain(name) && forall i :: 0 <= i < |rs| ==> PlainRange(rs[i])
    ensures AllPrintable(RangeLines(name, rs))
  {
    if rs != [] {
      RangesPrintable(name, rs[1..]);
      PrintableFirst(RangeLine(name, rs[0]), RangeLines(name, rs[1..]));
    }
  }

  lemma {:induction false} ListsPrintable(name: string, ls: seq<ListDef>)
    requires Plain(name) && forall i :: 0 <= i < |ls| ==> PlainList(ls[i])
    ensures AllPrintable(ListLines(name, ls))
  {
    if ls != [] {
      ListsPrintable(name, ls[1..]);
      ListValues(ls[0]);
      hide JoinOn, NonEmpty, GetLines;
      PrintableFirst(ListLine(name, ls[0]), ListLines(name, ls[1..]));
    }
  }

  lemma PrintableFirst(f: seq<string>, fields: seq<seq<string>>)
    requires AllPrintable(fields) && |f| > 1 && AllFree(f, '|') && AllFree(f, '\n')
    ensures AllPrintable([f] + fields)
  {
    hide AllFree;
  }

  // The table line stored p's own fields; the sections add the rest.
  lemma Assembled(m: Meta, name: string, p: Info)
    ensures var m0 := m[name := Info(true, p.kind, p.column, p.hashCount, [], [], [])];
            AddLists(AddRanges(AddChildren(m0, name, p.children), name, RereadRanges(p.ranges)), name, RereadLists(p.lists))
            == m[name := Reread(p)]
  {
    assert [] + p.children == p.children && [] + RereadRanges(p.ranges) == RereadRanges(p.ranges);
    assert [] + RereadLists(p.lists) == RereadLists(p.lists);
    hide RereadRanges, RereadLists;
  }

  lemma TableSection(m: Meta, name: string, p: Info)
    requires Plain(name) && PlainInfo(p)
    ensures var ls := Lines([TableLine(name, p)]);
            LoadLines(m, ls) == m[name := Info(true, p.kind, p.column, p.hashCount, [], [], [])] && AllFree(ls, '\n')
  {
    TablePrintable(name, p);
    LoadTable(m, name, p);
    hide LoadFields, LoadAll, LoadLines, Lines, TableLine;
    LoadPrintedAll(m, [TableLine(name, p)]);
    LoadOne(m, TableLine(name, p));
  }

  lemma ChildSection(m: Meta, name: string, p: Info)
    requires name in m && m[name].physical && Plain(name) && PlainInfo(p)
    ensures var ls := Lines(ChildLines(name, p.children));
            LoadLines(m, ls) == AddChildren(m, name, p.children) && AllFree(ls, '\n')
  {
    hide LoadAll, LoadLines, Lines, AddChildren, ChildLines;
    ChildrenPrintable(name, p.children);
    LoadChildren(m, name, p.children);
    LoadPrintedAll(m, ChildLines(name, p.children));
  }

  lemma RangeSection(m: Meta, name: string, p: Info)
    requires name in m && m[name].physical && Plain(name) && PlainInfo(p)
    ensures var ls := Lines(RangeLines(name, p.ranges));
            LoadLines(m, ls) == AddRanges(m, name, RereadRanges(p.ranges)) && AllFree(ls, '\n')
  {
    hide LoadAll, LoadLines, Lines, AddRanges, RangeLines, RereadRanges;
    RangesPrintable(name, p.ranges);
    LoadRanges(m, name, p.ranges);
    LoadPrintedAll(m, RangeLines(name, p.ranges));
  }

  lemma ListSection(m: Meta, name: string, p: Info)
    requires name in m && m[name].physical && Plain(name) && PlainInfo(p)
    ensures var ls := Lines(ListLines(name, p.lists));
            LoadLines(m, ls) == AddLists(m, name, RereadLists(p.lists)) && AllFree(ls, '\n')
  {
    hide LoadAll, LoadLines, Lines, AddLists, ListLines, RereadLists;
    ListsPrintable(name, p.lists);
    LoadLists(m, name, p.lists);
    LoadPrintedAll(m, ListLines(name, p.lists));
  }

  // The lines of one record rebuild it, whatever was stored under its name before.
  lemma LoadRecord(m: Meta, name: string, p: Info)
    requires Plain(name) && PlainInfo(p)
    ensures LoadLines(m, Record(name, p)) == m[name := Reread(p)] && AllFree(Record(name, p), '\n')
  {
    var m0 := m[name := Info(true, p.kind, p.column, p.hashCount, [], [], [])];
    var m1 := AddChildren(m0, name, p.children);
    var m2 := AddRanges(m1, name, RereadRanges(p.ranges));
    assert name in m1 && name in m2 && m1[name].physical && m2[name].physical;
    hide LoadLines, Lines, Reread, RereadRanges, RereadLists, AddChildren, AddRanges, AddLists, Plain, PlainInfo;
    hide ChildLines, RangeLines, ListLines, TableLine, AllFree;
    Assembled(m, name, p);
    TableSection(m, name, p);
    ChildSection(m0, name, p);
    RangeSection(m1, name, p);
    ListSection(m2, name, p);
    FourSections(m, Lines([TableLine(name, p)]), Lines(ChildLines(name, p.children)), Lines(RangeLines(name, p.ranges)),
                 Lines(ListLines(name, p.lists)));
  }

  lemma FreeConcat(a: seq<string>, b: seq<string>, c: char)
    requires AllFree(a, c) && AllFree(b, c)
    ensures AllFree(a + b, c)
  {
    hide Free;
  }

  lemma FourSections(m: Meta, a: seq<string>, b: seq<string>, c: seq<string>, d: seq<string>)
    requires AllFree(a, '\n') && AllFree(b, '\n') && AllFree(c, '\n') && AllFree(d, '\n')
    ensures LoadLines(m, a + b + c + d) == LoadLines(LoadLines(LoadLines(LoadLines(m, a), b), c), d)
    ensures AllFree(a + b + c + d, '\n')
  {
    hide LoadLines, AllFree;
    FreeConcat(a, b, '\n');
    FreeConcat(a + b, c, '\n');
    FreeConcat(a + b + c, d, '\n');
    LoadConcat(m, a, b);
    LoadConcat(m, a + b, c);
    LoadConcat(m, a + b + c, d);
  }

  lemma LoadOne(m: Meta, f: seq<string>)
    ensures LoadAll(m, [f]) == LoadFields(m, f)
  {
    hide LoadFields;
    assert LoadAll(LoadFields(m, f), []) == LoadFields(m, f);
  }

  // ------------------------------------------------------------------------------------------
  // The whole file

  function MetaLines(m: Meta, order: seq<string>): seq<string>
    requires forall i :: 0 <= i < |order| ==> order[i] in m
    decreases |order|
  {
    if order == [] then []
    else
      var last := order[|order| - 1];
      MetaLines(m, order[..|order| - 1]) + if m[last].physical then Record(last, m[last]) else []
  }

  function Reloaded(m: Meta, order: seq<string>): Meta {
    map name | name in order && name in m && m[name].physical :: Reread(m[name])
  }

  lemma ReloadedNext(m: Meta, order: seq<string>, last: string)
    requires last in m
    ensures Reloaded(m, order + [last]) ==
            if m[last].physical then Reloaded(m, order)[last := Reread(m[last])] else Reloaded(m, order)
  {
    hide Reread;
  }

  lemma {:induction false} LoadMetaLines(m: Meta, order: seq<string>)
    requires forall i :: 0 <= i < |order| ==> order[i] in m && Plain(order[i]) && PlainInfo(m[order[i]])
    ensures LoadLines(map[], MetaLines(m, order)) == Reloaded(m, order) && AllFree(MetaLines(m, order), '\n')
    decreases |order|
  {
    if order == [] {
      assert Reloaded(m, []) == map[];
    } else {
      var before, last := order[..|order| - 1], order[|order| - 1];
      assert order == before + [last];
      assert forall i :: 0 <= i < |before| ==> before[i] == order[i];
      hide Record, Reloaded, PlainInfo, LoadLines, Reread, Free;
      LoadMetaLines(m, before);
      ReloadedNext(m, before, last);
      var lines := MetaLines(m, before);
      if m[last].physical {
        LoadRecord(Reloaded(m, before), last, m[last]);
        LoadConcat(map[], lines, Record(last, m[last]));
      } else {
        assert lines + [] == lines;
      }
    }
  }

  // Loading the saved file gives every physical record back, and nothing else: column, kind, hash count, children,
  // ranges and lists in order. `order` is the order in which the map is walked.
  lemma MetaRoundTrip(m: Meta, order: seq<string>)
    requires forall name :: name in m <==> name in order
    requires forall name <- m :: Plain(name) && PlainInfo(m[name])
    ensures LoadLines(map[], GetLines(Terminated(MetaLines(m, order), '\n'), '\n'))
            == map name | name in m && m[name].physical :: Reread(m[name])
  {
    hide LoadLines, MetaLines, GetLines, Reread, PlainInfo;
    LoadMetaLines(m, order);
    LinesTerminated(MetaLines(m, order), '\n');
  }
}
