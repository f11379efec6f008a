/** The row filters of a SELECT: TABLESAMPLE, DISTINCT ON and LIMIT with OFFSET. */
module RowFilters {
  import opened Text
  import opened Fields

  type Row = seq<string>

  const SEPARATOR: char := 1 as char

  // ------------------------------------------------------------------------------------------
  // DISTINCT ON

  // The first column of that name, or the number of columns
  function ColumnOf(columns: seq<string>, name: string): (ci: nat)
    ensures ci <= |columns| && (ci < |columns| ==> columns[ci] == name)
    ensures forall j :: 0 <= j < ci ==> columns[j] != name
  {
    if columns == [] || columns[0] == name then 0 else 1 + ColumnOf(columns[1..], name)
  }

  function ValueAt(row: Row, ci: nat): string { if ci < |row| then row[ci] else "" }

  // The values a row is compared by; a name that is no column is passed over.
  function Tuple(columns: seq<string>, on: seq<string>, row: Row): seq<string> {
    if on == [] then []
    else
      var ci := ColumnOf(columns, on[0]);
      (if ci < |columns| then [ValueAt(row, ci)] else []) + Tuple(columns, on[1..], row)
  }

  lemma {:induction false} TupleConcat(columns: seq<string>, a: seq<string>, b: seq<string>, row: Row)
    ensures Tuple(columns, a + b, row) == Tuple(columns, a, row) + Tuple(columns, b, row)
    decreases |a|
  {
    hide ColumnOf;
    if a == [] {
      assert a + b == b;
    } else {
      assert (a + b)[1..] == a[1..] + b;
      TupleConcat(columns, a[1..], b, row);
    }
  }

  // Names that are no column play no part; the others stand for the value in the first column of that name, or for the
  // empty text in a row that is too short.
  lemma TupleParts(columns: seq<string>, a: seq<string>, name: string, b: seq<string>, row: Row, ci: nat)
    requires forall j :: 0 <= j < ci && j < |columns| ==> columns[j] != name
    ensures name !in columns ==> Tuple(columns, a + [name] + b, row) == Tuple(columns, a, row) + Tuple(columns, b, row)
    ensures ci < |columns| && columns[ci] == name ==>
              Tuple(columns, a + [name] + b, row)
              == Tuple(columns, a, row) + [if ci < |row| then row[ci] else ""] + Tuple(columns, b, row)
  {
    TupleOne(columns, name, row);
    hide Tuple, ColumnOf;
    TupleConcat(columns, a + [name], b, row);
    TupleConcat(columns, a, [name], row);
    if ci < |columns| && columns[ci] == name { ColumnIs(columns, name, ci); }
  }

  lemma TupleOne(columns: seq<string>, name: string, row: Row)
    ensures var ci := ColumnOf(columns, name);
            Tuple(columns, [name], row) == if ci < |columns| then [ValueAt(row, ci)] else []
  {
    hide ColumnOf;
    assert [name][1..] == [];
  }

  // Each value with the separator behind it
  function Key(columns: seq<string>, on: seq<string>, row: Row): string { Terminated(Tuple(columns, on, row), SEPARATOR) }

  // At most one value, or no separator in any of them
  predicate Unambiguous(t: seq<string>) { |t| <= 1 || AllFree(t, SEPARATOR) }

  // Number of separators in a text
  function Separators(s: string): nat { if s == "" then 0 else (if s[0] == SEPARATOR then 1 else 0) + Separators(s[1..]) }

  function SeparatorsIn(t: seq<string>): nat { if t == [] then 0 else Separators(t[0]) + SeparatorsIn(t[1..]) }

  lemma {:induction false} SeparatorsConcat(a: string, b: string)
    ensures Separators(a + b) == Separators(a) + Separators(b)
  {
    if a == "" {
      assert a + b == b;
    } else {
      assert (a + b)[1..] == a[1..] + b;
      SeparatorsConcat(a[1..], b);
    }
  }

  lemma {:induction false} SeparatorsTerminated(t: seq<string>)
    ensures Separators(Terminated(t, SEPARATOR)) == |t| + SeparatorsIn(t)
  {
    if t != [] {
      SeparatorsTerminated(t[1..]);
      SeparatorsConcat(t[0] + [SEPARATOR], Terminated(t[1..], SEPARATOR));
      SeparatorsConcat(t[0], [SEPARATOR]);
      assert Separators([SEPARATOR]) == 1 + Separators([]);
    }
  }

  lemma {:induction false} NoSeparators(s: string)
    ensures Separators(s) == 0 <==> Free(s, SEPARATOR)
  {
    if s != "" {
      NoSeparators(s[1..]);
      assert s == [s[0]] + s[1..];
    }
  }

  lemma {:induction false} NoSeparatorsIn(t: seq<string>)
    ensures SeparatorsIn(t) == 0 <==> AllFree(t, SEPARATOR)
  {
    if t != [] {
      hide Free;
      NoSeparators(t[0]);
      NoSeparatorsIn(t[1..]);
      assert t == [t[0]] + t[1..];
    }
  }

  // An unambiguous tuple shares its key with no other tuple of its length.
  lemma KeysAgree(t: seq<string>, u: seq<string>)
    requires |t| == |u| && Unambiguous(t)
    ensures Terminated(t, SEPARATOR) == Terminated(u, SEPARATOR) <==> t == u
  {
    if |t| == 1 {
      OneTerminated(t[0]);
      OneTerminated(u[0]);
      assert t == [t[0]] && u == [u[0]];
      assert (t[0] + [SEPARATOR])[..|t[0]|] == t[0] && (u[0] + [SEPARATOR])[..|u[0]|] == u[0];
    } else if |t| > 1 && Terminated(t, SEPARATOR) == Terminated(u, SEPARATOR) {
      SeparatorsTerminated(t);
      SeparatorsTerminated(u);
      NoSeparatorsIn(t);
      NoSeparatorsIn(u);
      LinesTerminated(t, SEPARATOR);
      LinesTerminated(u, SEPARATOR);
    }
  }

  lemma OneTerminated(a: string)
    ensures Terminated([a], SEPARATOR) == a + [SEPARATOR]
  {
    assert Terminated([a], SEPARATOR) == a + [SEPARATOR] + Terminated([], SEPARATOR);
    assert a + [SEPARATOR] + "" == a + [SEPARATOR];
  }

  // A tuple shares its key with another tuple of its length exactly when it has at least two values and one of them
  // holds the separator.
  lemma KeyShared(t: seq<string>)
    ensures (exists u :: |u| == |t| && u != t && Terminated(u, SEPARATOR) == Terminated(t, SEPARATOR))
            <==> |t| >= 2 && !AllFree(t, SEPARATOR)
  {
    if Unambiguous(t) {
      forall u | |u| == |t| && u != t ensures Terminated(u, SEPARATOR) != Terminated(t, SEPARATOR) { KeysAgree(t, u); }
    } else {
      var i :| 0 <= i < |t| && !Free(t[i], SEPARATOR);
      var k :| 0 <= k < |t[i]| && t[i][k] == SEPARATOR;
      var u := Twin(t, i, k);
    }
  }

  // The text behind the separator moves to the next value, or the text before it to the previous one.
  lemma Twin(t: seq<string>, i: nat, k: nat) returns (u: seq<string>)
    requires |t| >= 2 && i < |t| && k < |t[i]| && t[i][k] == SEPARATOR
    ensures |u| == |t| && u != t && Terminated(u, SEPARATOR) == Terminated(t, SEPARATOR)
  {
    hide Terminated;
    var p, q := t[i][..k], t[i][k + 1..];
    assert t[i] == p + [SEPARATOR] + q;
    if i + 1 < |t| {
      u := t[i := p][i + 1 := q + [SEPARATOR] + t[i + 1]];
      Regroup(p + [SEPARATOR], q + [SEPARATOR], t[i + 1]);
      Regroup(p + [SEPARATOR], q, [SEPARATOR]);
      SamePair(t, u, i);
    } else {
      u := t[i - 1 := t[i - 1] + [SEPARATOR] + p][i := q];
      Regroup(t[i - 1] + [SEPARATOR], p + [SEPARATOR], q);
      Regroup(t[i - 1] + [SEPARATOR], p, [SEPARATOR]);
      SamePair(t, u, i - 1);
    }
    assert |u[i]| < |t[i]|;
  }

  // Two tuples that differ in two neighbouring values with the same joint text
  lemma {:induction false} SamePair(t: seq<string>, u: seq<string>, i: nat)
    requires |t| == |u| && i + 1 < |t| && t[i] + [SEPARATOR] + t[i + 1] == u[i] + [SEPARATOR] + u[i + 1]
    requires forall j :: 0 <= j < |t| && j != i && j != i + 1 ==> t[j] == u[j]
    ensures Terminated(t, SEPARATOR) == Terminated(u, SEPARATOR)
    decreases i
  {
    if i > 0 {
      assert forall j :: 0 <= j < |t| - 1 ==> t[1..][j] == t[j + 1] && u[1..][j] == u[j + 1];
      SamePair(t[1..], u[1..], i - 1);
    } else {
      assert t[2..] == u[2..];
      PairFirst(t);
      PairFirst(u);
    }
  }

  lemma PairFirst(t: seq<string>)
    requires |t| >= 2
    ensures Terminated(t, SEPARATOR) == t[0] + [SEPARATOR] + t[1] + ([SEPARATOR] + Terminated(t[2..], SEPARATOR))
  {
    assert t[1..][1..] == t[2..];
    var rest := Terminated(t[2..], SEPARATOR);
    assert Terminated(t[1..], SEPARATOR) == t[1] + [SEPARATOR] + rest;
    assert Terminated(t, SEPARATOR) == t[0] + [SEPARATOR] + Terminated(t[1..], SEPARATOR);
    hide Terminated;
    Regroup(t[0] + [SEPARATOR], t[1] + [SEPARATOR], rest);
    Regroup(t[0] + [SEPARATOR], t[1], [SEPARATOR]);
    Regroup(t[0] + [SEPARATOR] + t[1], [SEPARATOR], rest);
  }

  // With the separator inside a value, two different tuples share one key.
  lemma KeysCollide()
    ensures var c := [SEPARATOR];
            Terminated(["a" + c, "b"], SEPARATOR) == Terminated(["a", c + "b"], SEPARATOR)
            && ["a" + c, "b"] != ["a", c + "b"]
  {
    var c := [SEPARATOR];
    TwoTerminated("a" + c, "b");
    TwoTerminated("a", c + "b");
    assert "a" + c + c + "b" + c == "a" + c + (c + "b") + c;
    assert |"a" + c| != |"a"|;
  }

  // The key of two values: each with the character 1 behind it
  lemma KeyOfTwo(columns: seq<string>, on: seq<string>, row: Row, a: string, b: string)
    requires Tuple(columns, on, row) == [a, b]
    ensures Key(columns, on, row) == a + [1 as char] + b + [1 as char]
  {
    hide Tuple;
    TwoTerminated(a, b);
  }

  lemma TwoTerminated(a: string, b: string)
    ensures Terminated([a, b], SEPARATOR) == a + [SEPARATOR] + b + [SEPARATOR]
  {
    assert [a, b][1..] == [b] && [b][1..] == [];
    assert Terminated([b], SEPARATOR) == b + [SEPARATOR] + Terminated([], SEPARATOR);
    assert b + [SEPARATOR] + "" == b + [SEPARATOR];
    assert a + [SEPARATOR] + (b + [SEPARATOR]) == a + [SEPARATOR] + b + [SEPARATOR];
  }

  // The ON values of every row can be told from their key: at most one ON column, or no separator in the ON values.
  predicate Comparable(columns: seq<string>, on: seq<string>, rows: seq<Row>) {
    forall i :: 0 <= i < |rows| ==> Unambiguous(Tuple(columns, on, rows[i]))
  }

  lemma {:induction false} TupleLength(columns: seq<string>, on: seq<string>, row: Row, other: Row)
    ensures |Tuple(columns, on, row)| == |Tuple(columns, on, other)| <= |on|
  {
    if on != [] { TupleLength(columns, on[1..], row, other); }
  }

  // One ON column is always enough.
  lemma OneColumnComparable(columns: seq<string>, on: seq<string>, rows: seq<Row>)
    requires |on| <= 1
    ensures Comparable(columns, on, rows)
  {
    forall i | 0 <= i < |rows| ensures Unambiguous(Tuple(columns, on, rows[i])) {
      TupleLength(columns, on, rows[i], rows[i]);
    }
  }

  // Row i is the first with its values.
  predicate FirstOfTuple(columns: seq<string>, on: seq<string>, rows: seq<Row>, i: nat)
    requires i < |rows|
  {
    forall j :: 0 <= j < i ==> Tuple(columns, on, rows[j]) != Tuple(columns, on, rows[i])
  }

  // In input order, exactly the first row of each tuple
  function Firsts(columns: seq<string>, on: seq<string>, rows: seq<Row>, n: nat): seq<Row>
    requires n <= |rows|
    decreases n
  {
    if n == 0 then []
    else Firsts(columns, on, rows, n - 1) + if FirstOfTuple(columns, on, rows, n - 1) then [rows[n - 1]] else []
  }

  lemma TerminatedNone()
    ensures Terminated([], SEPARATOR) == ""
  {
  }

  lemma TupleNext(columns: seq<string>, on: seq<string>, k: nat, row: Row)
    ensures Tuple(columns, on[|on|..], row) == []
    ensures k < |on| ==>
              var ci := ColumnOf(columns, on[k]);
              Tuple(columns, on[k..], row)
              == (if ci < |columns| then [ValueAt(row, ci)] else []) + Tuple(columns, on[k + 1..], row)
  {
    if k < |on| { assert on[k..][1..] == on[k + 1..]; }
  }

  lemma ColumnIs(columns: seq<string>, name: string, ci: nat)
    requires ci <= |columns| && (ci < |columns| ==> columns[ci] == name)
    requires forall j :: 0 <= j < ci ==> columns[j] != name
    ensures ColumnOf(columns, name) == ci
  {
    hide ColumnOf;
  }

  method RowKey(columns: seq<string>, on: seq<string>, row: Row) returns (key: string)
    ensures key == Key(columns, on, row)
  {
    hide Terminated, Tuple, ColumnOf;
    TerminatedNone();
    key := "";
    assert on[0..] == on;
    TupleNext(columns, on, 0, row);
    ghost var done: seq<string> := [];
    for k := 0 to |on|
      invariant key == Terminated(done, SEPARATOR)
      invariant Tuple(columns, on, row) == done + Tuple(columns, on[k..], row)
    {
      TupleNext(columns, on, k, row);
      var ci := 0;
      while ci < |columns| && columns[ci] != on[k]
        invariant ci <= |columns| && forall j :: 0 <= j < ci ==> columns[j] != on[k]
      {
        ci := ci + 1;
      }
      ColumnIs(columns, on[k], ci);
      if ci < |columns| {
        var v := ValueAt(row, ci);
        TerminatedNext(done, v, SEPARATOR);
        key := key + v + [SEPARATOR];
        Regroup(done, [v], Tuple(columns, on[k + 1..], row));
        done := done + [v];
      } else {
        assert [] + Tuple(columns, on[k + 1..], row) == Tuple(columns, on[k + 1..], row);
      }
    }
    assert done + [] == done;
  }

  // Row i is the first with its key.
  predicate FirstOfKey(columns: seq<string>, on: seq<string>, rows: seq<Row>, i: nat)
    requires i < |rows|
  {
    forall j :: 0 <= j < i ==> Key(columns, on, rows[j]) != Key(columns, on, rows[i])
  }

  function KeyFirsts(columns: seq<string>, on: seq<string>, rows: seq<Row>, n: nat): seq<Row>
    requires n <= |rows|
    decreases n
  {
    if n == 0 then []
    else KeyFirsts(columns, on, rows, n - 1) + if FirstOfKey(columns, on, rows, n - 1) then [rows[n - 1]] else []
  }

  lemma KeysFollowTuples(columns: seq<string>, on: seq<string>, rows: seq<Row>, i: nat)
    requires Comparable(columns, on, rows) && i < |rows|
    ensures FirstOfKey(columns, on, rows, i) <==> FirstOfTuple(columns, on, rows, i)
  {
    forall j | 0 <= j < i
      ensures Key(columns, on, rows[j]) == Key(columns, on, rows[i])
              <==> Tuple(columns, on, rows[j]) == Tuple(columns, on, rows[i])
    {
      hide Tuple;
      TupleLength(columns, on, rows[i], rows[j]);
      KeysAgree(Tuple(columns, on, rows[i]), Tuple(columns, on, rows[j]));
    }
  }

  // On comparable rows, comparing keys is comparing tuples.
  lemma {:induction false} KeyFirstsAreFirsts(columns: seq<string>, on: seq<string>, rows: seq<Row>, n: nat)
    requires Comparable(columns, on, rows) && n <= |rows|
    ensures KeyFirsts(columns, on, rows, n) == Firsts(columns, on, rows, n)
    decreases n
  {
    hide FirstOfKey, FirstOfTuple, Comparable;
    if n > 0 {
      KeyFirstsAreFirsts(columns, on, rows, n - 1);
      KeysFollowTuples(columns, on, rows, n - 1);
    }
  }

  method DistinctOn(columns: seq<string>, on: seq<string>, rows: seq<Row>) returns (result: seq<Row>)
    ensures result == KeyFirsts(columns, on, rows, |rows|)
    ensures |on| <= 1 || Comparable(columns, on, rows) ==> result == Firsts(columns, on, rows, |rows|)
  {
    hide Key, Tuple;
    var seen: set<string> := {};
    result := [];
    for i := 0 to |rows|
      invariant result == KeyFirsts(columns, on, rows, i)
      invariant forall key :: key in seen <==> exists j :: 0 <= j < i && Key(columns, on, rows[j]) == key
    {
      var key := RowKey(columns, on, rows[i]);
      assert key !in seen <==> FirstOfKey(columns, on, rows, i);
      if key !in seen {
        seen := seen + {key};
        result := result + [rows[i]];
      }
    }
    if |on| <= 1 { OneColumnComparable(columns, on, rows); }
    if Comparable(columns, on, rows) { KeyFirstsAreFirsts(columns, on, rows, |rows|); }
  }

  lemma {:induction false} FirstsComeFromInput(columns: seq<string>, on: seq<string>, rows: seq<Row>, n: nat, k: nat)
    requires n <= |rows| && k < |Firsts(columns, on, rows, n)|
    ensures exists i :: 0 <= i < n && Firsts(columns, on, rows, n)[k] == rows[i]
  {
    hide Tuple, FirstOfTuple;
    var before := Firsts(columns, on, rows, n - 1);
    if k < |before| {
      FirstsComeFromInput(columns, on, rows, n - 1, k);
    } else {
      assert Firsts(columns, on, rows, n)[k] == rows[n - 1];
    }
  }

  // No two returned rows have the same tuple.
  lemma {:induction false} FirstsDiffer(columns: seq<string>, on: seq<string>, rows: seq<Row>, n: nat, k: nat, l: nat)
    requires n <= |rows| && k < l < |Firsts(columns, on, rows, n)|
    ensures var r := Firsts(columns, on, rows, n); Tuple(columns, on, r[k]) != Tuple(columns, on, r[l])
  {
    hide Tuple;
    var before, r := Firsts(columns, on, rows, n - 1), Firsts(columns, on, rows, n);
    assert r[k] == before[k];
    if l < |before| {
      assert r[l] == before[l];
      FirstsDiffer(columns, on, rows, n - 1, k, l);
    } else {
      assert r[l] == rows[n - 1];
      FirstsComeFromInput(columns, on, rows, n - 1, k);
    }
  }

  // Every row of the input has a row with its tuple among the returned ones.
  lemma {:induction false} FirstsCover(columns: seq<string>, on: seq<string>, rows: seq<Row>, n: nat, i: nat) returns (k: nat)
    requires i < n <= |rows|
    ensures var r := Firsts(columns, on, rows, n); k < |r| && Tuple(columns, on, r[k]) == Tuple(columns, on, rows[i])
  {
    hide Tuple;
    var before, r := Firsts(columns, on, rows, n - 1), Firsts(columns, on, rows, n);
    if i < n - 1 {
      k := FirstsCover(columns, on, rows, n - 1, i);
      assert r[k] == before[k];
    } else if FirstOfTuple(columns, on, rows, n - 1) {
      k := |before|;
    } else {
      var j :| 0 <= j < n - 1 && Tuple(columns, on, rows[j]) == Tuple(columns, on, rows[n - 1]);
      k := FirstsCover(columns, on, rows, n - 1, j);
      assert r[k] == before[k];
    }
  }

  // ------------------------------------------------------------------------------------------
  // LIMIT and OFFSET

  function Smaller(a: int, b: int): int { if a < b then a else b }

  // limit: 0 or more; a negative or zero offset skips nothing.
  method Limit(rows: seq<Row>, limit: nat, limitOffset: int) returns (lim: seq<Row>)
    ensures var off := Smaller(if limitOffset > 0 then limitOffset else 0, |rows|);
            lim == rows[off..Smaller(off + limit, |rows|)]
    ensures var off := if limitOffset > 0 then limitOffset else 0;
            && |lim| == (if |rows| <= off then 0 else if |rows| - off < limit then |rows| - off else limit)
            && forall k :: 0 <= k < |lim| ==> lim[k] == rows[off + k]
  {
    lim := [];
    var off := if limitOffset > 0 then limitOffset else 0;
    var ri, cnt := off, 0;
    while ri < |rows| && cnt < limit
      invariant cnt <= limit && ri == off + cnt
      invariant if off <= |rows| then ri <= |rows| && lim == rows[off..ri] else cnt == 0 && lim == []
    {
      lim := lim + [rows[ri]];
      ri, cnt := ri + 1, cnt + 1;
    }
  }

  // ------------------------------------------------------------------------------------------
  // TABLESAMPLE BERNOULLI

  // The linear congruential generator, in 32 bits
  function NextSeed(seed: nat): nat { (seed * 1664525 + 1013904223) % 0x1_0000_0000 }

  // The draw of a seed, from 0 up to but not including 1
  function Draw(seed: nat): real { (seed / 256) as real / 16777216.0 }

  predicate Keeps(seed: nat, percent: real) { Draw(seed) * 100.0 < percent }

  function SampleFrom(seed: nat, rows: seq<Row>, percent: real): seq<Row>
    decreases |rows|
  {
    if rows == [] then []
    else
      (if Keeps(NextSeed(seed), percent) then [rows[0]] else []) + SampleFrom(NextSeed(seed), rows[1..], percent)
  }

  // The first two draws fix the generator.
  lemma FirstDraws()
    ensures NextSeed(12345) == 87628868 && NextSeed(87628868) == 71072467
    ensures Draw(87628868) * 16777216.0 == 342300.0 && Draw(71072467) * 16777216.0 == 277626.0
  {
    assert 87628868 / 256 == 342300 && 71072467 / 256 == 277626;
  }

  // Of two rows the first is kept from 2.05 percent on, the second already from 1.66 percent on.
  lemma TwoSampled(a: Row, b: Row)
    requires a != b
    ensures SampleFrom(12345, [a, b], 1.6) == [] && SampleFrom(12345, [a, b], 1.7) == [b]
    ensures SampleFrom(12345, [a, b], 2.0) == [b] && SampleFrom(12345, [a, b], 2.1) == [a, b]
  {
    hide SampleFrom, NextSeed, Draw;
    FirstDraws();
    assert [a, b][1..] == [b] && [b][1..] == [];
    forall p: real | p in [1.6, 1.7, 2.0, 2.1]
      ensures SampleFrom(12345, [a, b], p)
              == (if Keeps(87628868, p) then [a] else []) + (if Keeps(71072467, p) then [b] else [])
    {
      SampleStep(12345, [a, b], p);
      SampleStep(87628868, [b], p);
      SampleNone(71072467, p);
    }
  }

  lemma SampleNone(seed: nat, percent: real)
    ensures SampleFrom(seed, [], percent) == []
  {
  }

  // A percentage outside 0 to 100 stands for no TABLESAMPLE.
  method Sample(rows: seq<Row>, percent: real) returns (sampled: seq<Row>)
    ensures sampled == if 0.0 <= percent <= 100.0 then SampleFrom(12345, rows, percent) else rows
  {
    if percent < 0.0 || percent > 100.0 { return rows; }
    assert forall seed: nat :: SampleFrom(seed, [], percent) == [];
    hide NextSeed, Keeps, SampleFrom;
    sampled := [];
    var seed := 12345;
    assert rows[0..] == rows;
    for i := 0 to |rows|
      invariant SampleFrom(12345, rows, percent) == sampled + SampleFrom(seed, rows[i..], percent)
    {
      assert rows[i..][1..] == rows[i + 1..];
      SampleStep(seed, rows[i..], percent);
      seed := NextSeed(seed);
      Regroup(sampled, if Keeps(seed, percent) then [rows[i]] else [], SampleFrom(seed, rows[i + 1..], percent));
      assert sampled + [] == sampled;
      if Keeps(seed, percent) { sampled := sampled + [rows[i]]; }
    }
  }

  lemma SampleStep(seed: nat, rows: seq<Row>, percent: real)
    requires rows != []
    ensures SampleFrom(seed, rows, percent) ==
            (if Keeps(NextSeed(seed), percent) then [rows[0]] else []) + SampleFrom(NextSeed(seed), rows[1..], percent)
  {
  }

  predicate Subsequence(a: seq<Row>, b: seq<Row>)
    decreases |b|
  {
    if a == [] then true
    else if b == [] then false
    else (a[0] == b[0] && Subsequence(a[1..], b[1..])) || Subsequence(a, b[1..])
  }

  // The sample for a smaller percentage is a subsequence of the sample for a larger one.
  lemma {:induction false} SampleMonotone(seed: nat, rows: seq<Row>, p: real, q: real)
    requires p <= q
    ensures Subsequence(SampleFrom(seed, rows, p), SampleFrom(seed, rows, q))
    decreases |rows|
  {
    if rows != [] {
      var next := NextSeed(seed);
      var a, b := SampleFrom(next, rows[1..], p), SampleFrom(next, rows[1..], q);
      SampleMonotone(next, rows[1..], p, q);
      assert ([rows[0]] + a)[1..] == a && ([rows[0]] + b)[1..] == b;
      assert Keeps(next, p) ==> Keeps(next, q);
      hide Keeps, NextSeed;
      assert [] + a == a && [] + b == b;
    }
  }

  // Nothing is kept for 0 percent and everything for 100 percent.
  lemma {:induction false} SampleExtremes(seed: nat, rows: seq<Row>)
    ensures SampleFrom(seed, rows, 0.0) == [] && SampleFrom(seed, rows, 100.0) == rows
    decreases |rows|
  {
    if rows != [] {
      var next := NextSeed(seed);
      DrawInRange(next);
      hide NextSeed, Draw;
      SampleExtremes(next, rows[1..]);
      assert rows == [rows[0]] + rows[1..];
    }
  }

  lemma DrawInRange(seed: nat)
    requires seed < 0x1_0000_0000
    ensures 0.0 <= Draw(seed) < 1.0
  {
    var n := seed / 256;
    assert 0 <= n < 16777216;
    assert n as real < 16777216.0;
  }
}
