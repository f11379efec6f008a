/** Texts cut at a separator, as the metadata files are, and printed back. */
module Fields {
  import opened Text

  predicate Free(s: string, c: char) { forall i :: 0 <= i < |s| ==> s[i] != c }

  predicate AllFree(parts: seq<string>, c: char) { forall i :: 0 <= i < |parts| ==> Free(parts[i], c) }

  // Every field, also empty ones: always one more than there are separators
  function SplitOn(s: string, c: char): (r: seq<string>)
    ensures r != []
    decreases |s|
  {
    var f := Before(s, c);
    if |f| < |s| then [f] + SplitOn(s[|f| + 1..], c) else [f]
  }

  // What getline gives call after call: like SplitOn, but nothing after the last separator is not a line.
  function GetLines(s: string, c: char): seq<string>
    decreases |s|
  {
    if s == "" then []
    else
      var f := Before(s, c);
      if |f| < |s| then [f] + GetLines(s[|f| + 1..], c) else [f]
  }

  // The k-th getline on one stream, or the empty text once the stream has ended
  function Nth(parts: seq<string>, k: nat): string { if k < |parts| then parts[k] else "" }

  function JoinOn(parts: seq<string>, c: char): string {
    if parts == [] then "" else if |parts| == 1 then parts[0] else parts[0] + [c] + JoinOn(parts[1..], c)
  }

  // Each part with the separator behind it
  function Terminated(parts: seq<string>, c: char): string {
    if parts == [] then "" else parts[0] + [c] + Terminated(parts[1..], c)
  }

  lemma SplitFirst(f: string, c: char, t: string)
    requires Free(f, c)
    ensures SplitOn(f + [c] + t, c) == [f] + SplitOn(t, c) && GetLines(f + [c] + t, c) == [f] + GetLines(t, c)
  {
    var s := f + [c] + t;
    assert s == f + ([c] + t) && s[|f| + 1..] == t;
    FindPart(f, c, [c] + t);
  }

  lemma SplitOnly(f: string, c: char)
    requires Free(f, c)
    ensures SplitOn(f, c) == [f] && GetLines(f, c) == if f == "" then [] else [f]
  {
    assert f + "" == f;
    FindPart(f, c, "");
  }

  lemma {:induction false} SplitJoined(parts: seq<string>, c: char)
    requires parts != [] && AllFree(parts, c)
    ensures SplitOn(JoinOn(parts, c), c) == parts
  {
    hide SplitOn;
    if |parts| == 1 {
      SplitOnly(parts[0], c);
    } else {
      SplitFirst(parts[0], c, JoinOn(parts[1..], c));
      SplitJoined(parts[1..], c);
    }
  }

  function DropEmptyEnd(parts: seq<string>): seq<string> {
    if parts != [] && parts[|parts| - 1] == "" then parts[..|parts| - 1] else parts
  }

  lemma DropLater(parts: seq<string>)
    requires |parts| > 1
    ensures DropEmptyEnd(parts) == [parts[0]] + DropEmptyEnd(parts[1..])
  {
    assert parts == [parts[0]] + parts[1..];
    assert parts[..|parts| - 1] == [parts[0]] + parts[1..][..|parts| - 2];
  }

  // getline loses an empty last part.
  lemma {:induction false} LinesJoined(parts: seq<string>, c: char)
    requires AllFree(parts, c)
    ensures GetLines(JoinOn(parts, c), c) == DropEmptyEnd(parts)
  {
    if parts == [] {
    } else if |parts| == 1 {
      SplitOnly(parts[0], c);
      hide GetLines;
    } else {
      hide GetLines, DropEmptyEnd;
      SplitFirst(parts[0], c, JoinOn(parts[1..], c));
      LinesJoined(parts[1..], c);
      DropLater(parts);
    }
  }

  lemma {:induction false} LinesTerminated(parts: seq<string>, c: char)
    requires AllFree(parts, c)
    ensures GetLines(Terminated(parts, c), c) == parts
  {
    if parts != [] {
      hide GetLines;
      SplitFirst(parts[0], c, Terminated(parts[1..], c));
      LinesTerminated(parts[1..], c);
    }
  }

  lemma {:induction false} TerminatedNext(parts: seq<string>, last: string, c: char)
    ensures Terminated(parts + [last], c) == Terminated(parts, c) + last + [c]
  {
    if parts == [] {
      assert [] + [last] == [last];
      assert Terminated([last], c) == last + [c] + Terminated([], c);
    } else {
      TerminatedNext(parts[1..], last, c);
      assert (parts + [last])[1..] == parts[1..] + [last];
    }
  }

  // Cutting a text and joining the fields gives the text back.
  lemma {:induction false} JoinSplit(s: string, c: char)
    ensures JoinOn(SplitOn(s, c), c) == s && AllFree(SplitOn(s, c), c)
    decreases |s|
  {
    var f := Before(s, c);
    if |f| < |s| {
      var rest := SplitOn(s[|f| + 1..], c);
      assert SplitOn(s, c) == [f] + rest;
      assert s == f + [c] + s[|f| + 1..];
      hide SplitOn, Before, Free;
      JoinSplit(s[|f| + 1..], c);
      JoinFirst(f, rest, c);
    }
  }

  // The fields hold no character that the text does not hold.
  lemma {:induction false} SplitKeeps(s: string, c: char, d: char)
    requires Free(s, d)
    ensures AllFree(SplitOn(s, c), d)
    decreases |s|
  {
    var f := Before(s, c);
    assert forall i :: 0 <= i < |f| ==> f[i] == s[i];
    if |f| < |s| {
      var t := s[|f| + 1..];
      assert forall i :: 0 <= i < |t| ==> t[i] == s[|f| + 1 + i];
      hide SplitOn, Before;
      SplitKeeps(t, c, d);
      SplitHead(s, c);
    }
  }

  lemma SplitHead(s: string, c: char)
    ensures var f := Before(s, c); |f| < |s| ==> SplitOn(s, c) == [f] + SplitOn(s[|f| + 1..], c)
    ensures var f := Before(s, c); |f| < |s| ==> GetLines(s, c) == [f] + GetLines(s[|f| + 1..], c)
  {
  }

  // No line holds a line break.
  lemma {:induction false} LinesFree(s: string, c: char)
    ensures AllFree(GetLines(s, c), c)
    decreases |s|
  {
    var f := Before(s, c);
    if |f| < |s| {
      hide GetLines, Before;
      LinesFree(s[|f| + 1..], c);
      SplitHead(s, c);
    }
  }

  lemma JoinFirst(f: string, rest: seq<string>, c: char)
    requires rest != []
    ensures JoinOn([f] + rest, c) == f + [c] + JoinOn(rest, c)
  {
    assert ([f] + rest)[1..] == rest;
  }

  lemma NextChar(cur: string, rest: string, c: char)
    requires rest != "" && Free(cur, c)
    ensures SplitOn(cur + rest, c) ==
            if rest[0] == c then [cur] + SplitOn("" + rest[1..], c) else SplitOn(cur + [rest[0]] + rest[1..], c)
  {
    hide SplitOn;
    assert "" + rest[1..] == rest[1..];
    assert cur + rest == cur + [rest[0]] + rest[1..];
    if rest[0] == c { SplitFirst(cur, c, rest[1..]); }
  }

  method SplitFields(line: string, c: char) returns (out: seq<string>)
    ensures out == SplitOn(line, c)
  {
    hide SplitOn;
    out := [];
    var cur := "";
    assert "" + line[0..] == line;
    for i := 0 to |line|
      invariant Free(cur, c) && SplitOn(line, c) == out + SplitOn(cur + line[i..], c)
    {
      NextChar(cur, line[i..], c);
      assert line[i..][1..] == line[i + 1..];
      if line[i] == c {
        out := out + [cur];
        cur := "";
      } else {
        cur := cur + [line[i]];
      }
    }
    assert cur + line[|line|..] == cur;
    SplitOnly(cur, c);
    out := out + [cur];
  }

  lemma JoinNothing(c: char)
    ensures JoinOn([], c) == ""
  {
  }

  lemma {:induction false} JoinLast(parts: seq<string>, last: string, c: char)
    requires parts != []
    ensures JoinOn(parts + [last], c) == JoinOn(parts, c) + [c] + last
  {
    if |parts| == 1 {
      assert (parts + [last])[1..] == [last];
    } else {
      assert (parts + [last])[1..] == parts[1..] + [last];
      JoinLast(parts[1..], last, c);
    }
  }

  // Writing part i behind the parts before it
  lemma JoinNext(parts: seq<string>, i: nat, c: char)
    requires i < |parts|
    ensures JoinOn(parts[..i + 1], c) == JoinOn(parts[..i], c) + (if i > 0 then [c] else "") + parts[i]
  {
    assert parts[..i + 1] == parts[..i] + [parts[i]];
    if i > 0 { JoinLast(parts[..i], parts[i], c); }
  }
}
