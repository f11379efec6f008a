/** Writing and reading the file of physical partitions as the engine shuts down and starts. */
module PartitionMeta {
  import opened Text
  import opened Fields
  import opened Decimal
  import opened Partitions

  lemma JoinThree(a: string, b: string, c: string)
    ensures JoinOn([a, b, c], '|') == a + "|" + b + "|" + c
  {
    JoinFirst(b, [c], '|');
    JoinFirst(a, [b, c], '|');
    assert JoinOn([c], '|') == c;
    hide JoinOn;
    assert [b] + [c] == [b, c] && [a] + [b, c] == [a, b, c];
  }

  lemma JoinMore(first: string, rest: seq<string>, tail: string)
    requires rest != [] && JoinOn(rest, '|') == tail
    ensures JoinOn([first] + rest, '|') == first + "|" + tail
  {
    JoinFirst(first, rest, '|');
  }

  lemma JoinFour(a: string, b: string, c: string, d: string)
    ensures JoinOn([a, b, c, d], '|') == a + "|" + b + "|" + c + "|" + d
  {
    hide JoinOn;
    JoinThree(b, c, d);
    assert [a] + [b, c, d] == [a, b, c, d];
    JoinMore(a, [b, c, d], b + "|" + c + "|" + d);
    assert a + "|" + (b + "|" + c + "|" + d) == a + "|" + b + "|" + c + "|" + d;
  }

  lemma JoinFive(a: string, b: string, c: string, d: string, e: string)
    ensures JoinOn([a, b, c, d, e], '|') == a + "|" + b + "|" + c + "|" + d + "|" + e
  {
    hide JoinOn;
    JoinFour(b, c, d, e);
    assert [a] + [b, c, d, e] == [a, b, c, d, e];
    JoinMore(a, [b, c, d, e], b + "|" + c + "|" + d + "|" + e);
    assert a + "|" + (b + "|" + c + "|" + d + "|" + e) == a + "|" + b + "|" + c + "|" + d + "|" + e;
  }

  // The text of lines, each with its newline
  function TextOf(fields: seq<seq<string>>): string { Terminated(Lines(fields), '\n') }

  lemma TextFirst(f: seq<string>, rest: seq<seq<string>>)
    ensures TextOf([f] + rest) == JoinOn(f, '|') + "\n" + TextOf(rest)
  {
    hide JoinOn;
    assert ([f] + rest)[1..] == rest;
    assert ([JoinOn(f, '|')] + Lines(rest))[1..] == Lines(rest);
  }

  lemma {:induction false} TerminatedConcat(a: seq<string>, b: seq<string>, c: char)
    ensures Terminated(a + b, c) == Terminated(a, c) + Terminated(b, c)
  {
    if a == [] {
      assert a + b == b;
    } else {
      assert (a + b)[1..] == a[1..] + b;
      TerminatedConcat(a[1..], b, c);
    }
  }

  lemma RecordText(name: string, p: Info)
    ensures Terminated(Record(name, p), '\n') ==
            TextOf([TableLine(name, p)]) + TextOf(ChildLines(name, p.children)) + TextOf(RangeLines(name, p.ranges))
            + TextOf(ListLines(name, p.lists))
  {
    hide Lines, Terminated;
    var a, b := Lines([TableLine(name, p)]), Lines(ChildLines(name, p.children));
    var c, d := Lines(RangeLines(name, p.ranges)), Lines(ListLines(name, p.lists));
    TerminatedConcat(a, b, '\n');
    TerminatedConcat(a + b, c, '\n');
    TerminatedConcat(a + b + c, d, '\n');
  }

  lemma NextLine(out: string, f: seq<string>, rest: seq<seq<string>>, line: string)
    requires JoinOn(f, '|') == line
    ensures out + TextOf([f] + rest) == out + (line + "\n") + TextOf(rest)
  {
    hide JoinOn, TextOf;
    TextFirst(f, rest);
  }

  lemma NoText()
    ensures TextOf([]) == ""
  {
  }

  lemma OneLine(f: seq<string>, line: string)
    requires JoinOn(f, '|') == line
    ensures TextOf([f]) == line + "\n"
  {
    hide JoinOn;
    TextFirst(f, []);
    NoText();
    assert [f] + [] == [f];
    hide TextOf;
    assert line + "\n" + "" == line + "\n";
  }

  method WriteChildren(name: string, cs: seq<string>) returns (out: string)
    ensures out == TextOf(ChildLines(name, cs))
  {
    hide TextOf, JoinOn;
    out := "";
    NoText();
    assert cs[0..] == cs;
    for i := 0 to |cs|
      invariant TextOf(ChildLines(name, cs)) == out + TextOf(ChildLines(name, cs[i..]))
    {
      var line := "CHILD" + "|" + name + "|" + cs[i];
      JoinThree("CHILD", name, cs[i]);
      assert cs[i..][1..] == cs[i + 1..];
      NextLine(out, ChildLine(name, cs[i]), ChildLines(name, cs[i + 1..]), line);
      out := out + (line + "\n");
    }
  }

  method WriteRanges(name: string, rs: seq<RangeDef>) returns (out: string)
    ensures out == TextOf(RangeLines(name, rs))
  {
    hide TextOf, JoinOn;
    out := "";
    NoText();
    assert rs[0..] == rs;
    for i := 0 to |rs|
      invariant TextOf(RangeLines(name, rs)) == out + TextOf(RangeLines(name, rs[i..]))
    {
      var r := rs[i];
      var line := "RANGE" + "|" + name + "|" + r.name + "|" + r.fromStr + "|" + r.limitStr;
      JoinFive("RANGE", name, r.name, r.fromStr, r.limitStr);
      assert rs[i..][1..] == rs[i + 1..];
      NextLine(out, RangeLine(name, r), RangeLines(name, rs[i + 1..]), line);
      out := out + (line + "\n");
    }
  }

  method WriteValues(vs: seq<string>) returns (out: string)
    ensures out == JoinOn(vs, ',')
  {
    out := "";
    assert vs[0..] == vs;
    for i := 0 to |vs|
      invariant JoinOn(vs, ',') == if i == 0 then JoinOn(vs[i..], ',') else if i == |vs| then out else out + "," + JoinOn(vs[i..], ',')
      invariant i == 0 ==> out == ""
    {
      assert vs[i..][1..] == vs[i + 1..];
      if i > 0 { out := out + ","; }
      assert JoinOn(vs, ',') == out + JoinOn(vs[i..], ',');
      ghost var before := out;
      out := out + vs[i];
      if i + 1 < |vs| {
        assert JoinOn(vs[i..], ',') == vs[i] + "," + JoinOn(vs[i + 1..], ',');
        Regroup(before, vs[i] + ",", JoinOn(vs[i + 1..], ','));
      }
    }
  }

  method WriteLists(name: string, ls: seq<ListDef>) returns (out: string)
    ensures out == TextOf(ListLines(name, ls))
  {
    hide TextOf, JoinOn;
    out := "";
    NoText();
    assert ls[0..] == ls;
    for i := 0 to |ls|
      invariant TextOf(ListLines(name, ls)) == out + TextOf(ListLines(name, ls[i..]))
    {
      var values := WriteValues(ls[i].values);
      var line := "LIST" + "|" + name + "|" + ls[i].name + "|" + values;
      JoinFour("LIST", name, ls[i].name, values);
      assert ls[i..][1..] == ls[i + 1..];
      NextLine(out, ListLine(name, ls[i]), ListLines(name, ls[i + 1..]), line);
      out := out + (line + "\n");
    }
  }

  class Engine {
    var meta: Meta

    constructor ()
      ensures meta == map[]
    {
      meta := map[];
    }

    // names: the stored names in the order the map is walked
    method SaveMeta(names: seq<string>) returns (file: string)
      requires forall i :: 0 <= i < |names| ==> names[i] in meta
      ensures file == Terminated(MetaLines(meta, names), '\n')
    {
      assert Terminated([], '\n') == "";
      hide Record, TextOf, Terminated, JoinOn;
      file := "";
      assert names[..0] == [];
      for i := 0 to |names|
        invariant file == Terminated(MetaLines(meta, names[..i]), '\n')
      {
        var pname, pi := names[i], meta[names[i]];
        assert names[..i + 1][..i] == names[..i];
        if pi.physical {
          var hash := PrintInt(pi.hashCount);
          var table := "TABLE" + "|" + pname + "|" + KindText(pi.kind) + "|" + pi.column + "|" + hash;
          JoinFive("TABLE", pname, KindText(pi.kind), pi.column, hash);
          OneLine(TableLine(pname, pi), table);
          var children := WriteChildren(pname, pi.children);
          var ranges := WriteRanges(pname, pi.ranges);
          var lists := WriteLists(pname, pi.lists);
          RecordText(pname, pi);
          TerminatedConcat(MetaLines(meta, names[..i]), Record(pname, pi), '\n');
          file := file + (table + "\n" + children + ranges + lists);
        } else {
          assert MetaLines(meta, names[..i]) + [] == MetaLines(meta, names[..i]);
        }
      }
      assert names[..|names|] == names;
    }

    method LoadMeta(file: string)
      modifies this
      ensures meta == LoadLines(old(meta), GetLines(file, '\n'))
    {
      hide LoadLine;
      var lines := GetLines(file, '\n');
      assert lines[0..] == lines;
      for i := 0 to |lines|
        invariant LoadLines(old(meta), lines) == LoadLines(meta, lines[i..])
      {
        assert lines[i..][1..] == lines[i + 1..];
        LoadMetaLine(lines[i]);
      }
    }

    method LoadMetaLine(line: string)
      modifies this
      ensures meta == LoadLine(old(meta), line)
    {
      hide GetLines;
      if line == "" { return; }
      var ss := GetLines(line, '|');
      var kind, pname := Nth(ss, 0), Nth(ss, 1);
      if kind == "TABLE" {
        var ptype, pcol, phash := Nth(ss, 2), Nth(ss, 3), Nth(ss, 4);
        var pi := Info(true, Other, pcol, 0, [], [], []);
        if ptype == "RANGE" { pi := pi.(kind := Range); }
        else if ptype == "LIST" { pi := pi.(kind := List); }
        else if ptype == "HASH" { pi := pi.(kind := Hash); }
        var hash := StoI(phash);
        if hash.Some? { pi := pi.(hashCount := hash.value); }
        meta := meta[pname := pi];
      } else if kind == "CHILD" {
        if pname in meta && meta[pname].physical {
          var pi := meta[pname];
          pi := pi.(children := pi.children + [Nth(ss, 2)]);
          meta := meta[pname := pi];
        }
      } else if kind == "RANGE" {
        if pname in meta && meta[pname].physical {
          var rd := ReadRange(Nth(ss, 2), Nth(ss, 3), Nth(ss, 4));
          var pi := meta[pname];
          pi := pi.(ranges := pi.ranges + [rd]);
          meta := meta[pname := pi];
        }
      } else if kind == "LIST" {
        if pname in meta && meta[pname].physical {
          var values := ReadValues(Nth(ss, 3));
          var pi := meta[pname];
          pi := pi.(lists := pi.lists + [ListDef(Nth(ss, 2), values)]);
          meta := meta[pname := pi];
        }
      }
    }
  }

  method ReadRange(rname: string, rfrom: string, rto: string) returns (rd: RangeDef)
    ensures rd == RangeDef(rname, rfrom, rto, FromOf(rfrom), LimitOf(rto))
  {
    rd := RangeDef(rname, rfrom, rto, MIN_LL, MAX_LL);
    StoLLEmpty();
    if rfrom != "" {
      var v := StoLL(rfrom);
      if v.Some? { rd := rd.(fromVal := v.value); }
    }
    if rto == "MAXVALUE" {
      rd := rd.(limit := MAX_LL);
    } else {
      var v := StoLL(rto);
      if v.Some? { rd := rd.(limit := v.value); }
    }
  }

  method ReadValues(lvals: string) returns (values: seq<string>)
    ensures values == NonEmpty(GetLines(lvals, ','))
  {
    hide GetLines;
    var vs := GetLines(lvals, ',');
    values := [];
    assert vs[0..] == vs;
    for i := 0 to |vs|
      invariant NonEmpty(vs) == values + NonEmpty(vs[i..])
    {
      assert vs[i..][1..] == vs[i + 1..];
      if vs[i] != "" { values := values + [vs[i]]; }
    }
  }

  // A restart between the two methods: the fresh engine has every physical record again.
  method Restart(e: Engine, names: seq<string>) returns (later: Engine)
    requires forall name :: name in e.meta <==> name in names
    requires forall name <- e.meta :: Plain(name) && PlainInfo(e.meta[name])
    ensures later.meta == map name | name in e.meta && e.meta[name].physical :: Reread(e.meta[name])
  {
    hide LoadLines, GetLines, MetaLines, Terminated, Reread, PlainInfo;
    var file := e.SaveMeta(names);
    MetaRoundTrip(e.meta, names);
    later := new Engine();
    later.LoadMeta(file);
  }
}
