/** Character classes and string helpers shared by the interpreter, the splitters and the log reader.
    They follow the C library in its default locale: only ASCII letters and digits are alphanumeric. */
module Text {

  datatype Option<+T> = None | Some(value: T)

  lemma Regroup<T>(a: seq<T>, b: seq<T>, c: seq<T>)
    ensures a + (b + c) == a + b + c
  {
  }

  // Position of the first c, or the length
  function Find<T(==)>(s: seq<T>, c: T): (n: nat)
    ensures n <= |s| && (n < |s| ==> s[n] == c)
    ensures forall k :: 0 <= k < n ==> s[k] != c
  {
    if s == [] || s[0] == c then 0 else 1 + Find(s[1..], c)
  }

  // What stands before the first c, or everything
  function Before<T(==)>(s: seq<T>, c: T): (r: seq<T>)
    ensures |r| <= |s| && r == s[..|r|] && (|r| < |s| ==> s[|r|] == c)
    ensures forall k :: 0 <= k < |r| ==> r[k] != c
  {
    s[..Find(s, c)]
  }

  lemma FindPart<T>(f: seq<T>, c: T, t: seq<T>)
    requires c !in f && (t == [] || t[0] == c)
    ensures Find(f + t, c) == |f| && Before(f + t, c) == f
  {
    hide Find;
    assert forall k :: 0 <= k < |f| ==> (f + t)[k] == f[k];
    assert t != [] ==> (f + t)[|f|] == t[0];
  }

  // isspace: blank, and the five control characters from tab to carriage return
  predicate IsSpace(c: char) { c == ' ' || '\t' <= c <= '\r' }

  predicate IsDigit(c: char) { '0' <= c <= '9' }

  predicate IsAlpha(c: char) { 'a' <= c <= 'z' || 'A' <= c <= 'Z' }

  // isAlnumU: a character that can be part of a word
  predicate IsWord(c: char) { IsAlpha(c) || IsDigit(c) || c == '_' }

  function Upper(c: char): char {
    if 'a' <= c <= 'z' then (c as int - 32) as char else c
  }

  function Pu(s: string): string {
    seq(|s|, i requires 0 <= i < |s| => Upper(s[i]))
  }

  // The alphabet: lower-case letters, each with its upper-case letter, and the digits
  lemma LettersRead(i: nat)
    requires i < 26
    ensures var c, u := "abcdefghijklmnopqrstuvwxyz"[i], "ABCDEFGHIJKLMNOPQRSTUVWXYZ"[i];
            IsAlpha(c) && IsAlpha(u) && Upper(c) == u && Upper(u) == u
  {
  }

  // The characters of words, and no other
  lemma WordCharacters(c: char)
    ensures IsWord(c) <==>
            || (exists i :: 0 <= i < 26 && (c == "abcdefghijklmnopqrstuvwxyz"[i] || c == "ABCDEFGHIJKLMNOPQRSTUVWXYZ"[i]))
            || (exists i :: 0 <= i < 10 && c == "0123456789"[i]) || c == '_'
    ensures !IsAlpha(c) ==> Upper(c) == c
    ensures IsSpace(c) <==> c in " \t\n\r" || c as int == 11 || c as int == 12
  {
    var lower, upper, digits := "abcdefghijklmnopqrstuvwxyz", "ABCDEFGHIJKLMNOPQRSTUVWXYZ", "0123456789";
    forall i | 0 <= i < 26 ensures lower[i] == 'a' + i as char && upper[i] == 'A' + i as char { LetterAt(i); }
    forall i | 0 <= i < 10 ensures digits[i] == '0' + i as char { DigitAt(i); }
    if 'a' <= c <= 'z' { assert lower[c as int - 'a' as int] == c; }
    if 'A' <= c <= 'Z' { assert upper[c as int - 'A' as int] == c; }
    if IsDigit(c) { assert digits[c as int - '0' as int] == c; }
  }

  lemma LetterAt(i: nat)
    requires i < 26
    ensures "abcdefghijklmnopqrstuvwxyz"[i] == 'a' + i as char && "ABCDEFGHIJKLMNOPQRSTUVWXYZ"[i] == 'A' + i as char
  {
  }

  lemma DigitAt(i: nat)
    requires i < 10
    ensures "0123456789"[i] == '0' + i as char
  {
  }

  predicate AllSpace(s: string) { forall i :: 0 <= i < |s| ==> IsSpace(s[i]) }

  predicate AllWord(s: string) { forall i :: 0 <= i < |s| ==> IsWord(s[i]) }

  // Neither end is white space
  predicate Trimmed(s: string) {
    s == "" || (!IsSpace(s[0]) && !IsSpace(s[|s| - 1]))
  }

  function TrimLeft(s: string): (r: string)
    ensures |r| <= |s| && (r != "" ==> !IsSpace(r[0]))
  {
    if s != "" && IsSpace(s[0]) then TrimLeft(s[1..]) else s
  }

  function TrimRight(s: string): (r: string)
    ensures |r| <= |s| && (r != "" ==> !IsSpace(r[|r| - 1]) && r[0] == s[0])
  {
    if s != "" && IsSpace(s[|s| - 1]) then TrimRight(s[..|s| - 1]) else s
  }

  function Trim(s: string): (r: string)
    ensures |r| <= |s| && Trimmed(r)
  {
    TrimRight(TrimLeft(s))
  }

  lemma {:induction false} TrimLeftPad(w: string, s: string)
    requires AllSpace(w)
    ensures TrimLeft(w + s) == TrimLeft(s)
  {
    if w == "" {
      assert w + s == s;
    } else {
      assert (w + s)[1..] == w[1..] + s;
      TrimLeftPad(w[1..], s);
    }
  }

  lemma {:induction false} TrimRightPad(s: string, w: string)
    requires AllSpace(w)
    ensures TrimRight(s + w) == TrimRight(s)
  {
    if w == "" {
      assert s + w == s;
    } else {
      assert (s + w)[..|s + w| - 1] == s + w[..|w| - 1];
      TrimRightPad(s, w[..|w| - 1]);
    }
  }

  // Trimming removes exactly the padding of a text that is itself trimmed.
  lemma TrimPad(w1: string, s: string, w2: string)
    requires AllSpace(w1) && AllSpace(w2) && Trimmed(s)
    ensures Trim(w1 + s + w2) == s
  {
    assert w1 + s + w2 == w1 + (s + w2);
    TrimLeftPad(w1, s + w2);
    if s == "" {
      assert s + w2 == w2 == w2 + "";
      TrimLeftPad(w2, "");
    } else {
      assert (s + w2)[0] == s[0];
      TrimRightPad(s, w2);
    }
  }

  lemma {:induction false} TrimLeftCut(s: string)
    ensures AllSpace(s[..|s| - |TrimLeft(s)|]) && TrimLeft(s) == s[|s| - |TrimLeft(s)|..]
  {
    if s != "" && IsSpace(s[0]) {
      TrimLeftCut(s[1..]);
      assert s[..|s| - |TrimLeft(s)|] == [s[0]] + s[1..][..|s[1..]| - |TrimLeft(s[1..])|];
    }
  }

  lemma {:induction false} TrimRightCut(s: string)
    ensures AllSpace(s[|TrimRight(s)|..]) && TrimRight(s) == s[..|TrimRight(s)|]
  {
    if s != "" && IsSpace(s[|s| - 1]) {
      var t := s[..|s| - 1];
      TrimRightCut(t);
      assert s[|TrimRight(s)|..] == t[|TrimRight(t)|..] + [s[|s| - 1]];
    }
  }

  // Every text is its trimmed form between two runs of white space.
  lemma TrimSplit(s: string) returns (w1: string, w2: string)
    ensures AllSpace(w1) && AllSpace(w2) && s == w1 + Trim(s) + w2
  {
    hide TrimLeft, TrimRight;
    var t := TrimLeft(s);
    TrimLeftCut(s);
    TrimRightCut(t);
    w1, w2 := s[..|s| - |t|], t[|Trim(s)|..];
    assert s == w1 + t;
    assert t == TrimRight(t) + w2;
    assert w1 + (TrimRight(t) + w2) == w1 + TrimRight(t) + w2;
  }

  // A character that is no white space lies between the padding.
  lemma InMiddle(w1: string, s: string, w2: string, k: nat)
    requires AllSpace(w1) && AllSpace(w2) && k < |w1 + s + w2| && !IsSpace((w1 + s + w2)[k])
    ensures |w1| <= k < |w1| + |s|
  {
    if k < |w1| { PadSpace(w1, k); } else if |w1| + |s| <= k { PadSpace(w2, k - |w1| - |s|); }
  }

  lemma PadSpace(w: string, k: int)
    requires AllSpace(w)
    ensures 0 <= k < |w| ==> IsSpace(w[k])
  {
  }

  // ptrim: two loops that erase
  method PTrim(s: string) returns (r: string)
    ensures r == Trim(s)
  {
    r := s;
    while r != "" && IsSpace(r[0])
      invariant TrimLeft(r) == TrimLeft(s)
      decreases |r|
    {
      r := r[1..];
    }
    while r != "" && IsSpace(r[|r| - 1])
      invariant TrimRight(r) == Trim(s)
      decreases |r|
    {
      r := r[..|r| - 1];
    }
  }

  // A keyword stands at the front of `rest`, in any letter case.
  predicate At(rest: string, kw: string) {
    |kw| <= |rest| && forall i :: 0 <= i < |kw| ==> Upper(rest[i]) == kw[i]
  }

  // wbRight: nothing that could continue a word of length n follows
  predicate EndsWord(rest: string, n: nat) { n >= |rest| || !IsWord(rest[n]) }

  predicate WordAt(rest: string, kw: string) { At(rest, kw) && EndsWord(rest, |kw|) }

  // A statement text is kept trimmed, and not at all when nothing is left of it.
  function Keep(cut: string): (r: seq<string>)
    ensures |r| <= 1 && (|r| == 1 ==> 0 < |r[0]| <= |cut| && Trimmed(r[0]))
  {
    if Trim(cut) == "" then [] else [Trim(cut)]
  }

  // wbLeft and wbRight, and reading a keyword at a position
  predicate WbLeft(s: string, pos: nat)
    requires pos <= |s|
  {
    pos == 0 || !IsWord(s[pos - 1])
  }

  predicate WbRight(s: string, pos: nat, len: nat) { pos + len >= |s| || !IsWord(s[pos + len]) }

  predicate Reads(s: string, pos: nat, kw: string) { pos + |kw| <= |s| && Pu(s[pos..pos + |kw|]) == kw }

  lemma ReadsAt(s: string, pos: nat, kw: string)
    requires pos <= |s|
    ensures Reads(s, pos, kw) <==> At(s[pos..], kw)
    ensures WbRight(s, pos, |kw|) <==> EndsWord(s[pos..], |kw|)
  {
    if pos + |kw| <= |s| {
      var p := Pu(s[pos..pos + |kw|]);
      assert forall i :: 0 <= i < |kw| ==> p[i] == Upper(s[pos..][i]);
      if Reads(s, pos, kw) { assert forall i :: 0 <= i < |kw| ==> p[i] == kw[i]; }
    }
  }

  // ------------------------------------------------------------------------------------------
  // Words: what `>>` reads from a stream, one after the other

  function Words(s: string): seq<string>
    decreases |s|
  {
    var t := TrimLeft(s);
    if t == "" then [] else [Word(t)] + Words(t[|Word(t)|..])
  }

  function Word(s: string): (r: string)
    ensures |r| <= |s| && r == s[..|r|] && (s != "" && !IsSpace(s[0]) ==> r != "")
  {
    if s == "" || IsSpace(s[0]) then "" else [s[0]] + Word(s[1..])
  }

  // A word: what a stream reads in one go
  predicate IsToken(w: string) { w != "" && forall i :: 0 <= i < |w| ==> !IsSpace(w[i]) }

  // The words with the gap between them
  function Spaced(ws: seq<string>, gap: string): string {
    if ws == [] then "" else if |ws| == 1 then ws[0] else ws[0] + (gap + Spaced(ws[1..], gap))
  }

  lemma {:induction false} WordOf(w: string, t: string)
    requires (forall i :: 0 <= i < |w| ==> !IsSpace(w[i])) && (t == "" || IsSpace(t[0]))
    ensures Word(w + t) == w
  {
    if w == "" {
      assert w + t == t;
    } else {
      assert (w + t)[1..] == w[1..] + t;
      WordOf(w[1..], t);
    }
  }

  lemma WordsFirst(gap: string, w: string, t: string)
    requires AllSpace(gap) && IsToken(w) && (t == "" || IsSpace(t[0]))
    ensures Words(gap + (w + t)) == [w] + Words(t)
  {
    TrimLeftPad(gap, w + t);
    assert (w + t)[0] == w[0];
    WordOf(w, t);
    assert (w + t)[|w|..] == t;
  }

  // Words written one after the other are read one after the other.
  lemma {:induction false} WordsSpaced(ws: seq<string>, gap: string)
    requires gap != "" && AllSpace(gap) && forall i :: 0 <= i < |ws| ==> IsToken(ws[i])
    ensures Words(Spaced(ws, gap)) == ws && Words(gap + Spaced(ws, gap)) == ws
  {
    hide Words;
    if ws == [] {
      assert gap + "" == gap;
      NoWords(gap);
      NoWords("");
    } else {
      var rest := Spaced(ws[1..], gap);
      var t := if |ws| == 1 then "" else gap + rest;
      WordsSpaced(ws[1..], gap);
      WordsFirst("", ws[0], t);
      WordsFirst(gap, ws[0], t);
      NoWords("");
      assert "" + (ws[0] + t) == Spaced(ws, gap) && gap + (ws[0] + t) == gap + Spaced(ws, gap);
      assert ws == [ws[0]] + ws[1..];
    }
  }

  lemma NoWords(s: string)
    requires AllSpace(s)
    ensures Words(s) == []
  {
    TrimLeftPad(s, "");
    assert s + "" == s;
  }

  lemma OneWord(w: string)
    requires IsToken(w)
    ensures Words(w) == [w]
  {
    WordsFirst("", w, "");
    assert "" + (w + "") == w;
    NoWords("");
  }

  // ------------------------------------------------------------------------------------------
  // Lists of values

  function NonEmpty(values: seq<string>): seq<string> {
    if values == [] then [] else (if values[0] == "" then [] else [values[0]]) + NonEmpty(values[1..])
  }

  lemma {:induction false} NonEmptyAll(values: seq<string>)
    ensures |NonEmpty(values)| <= |values|
    ensures NonEmpty(values) == values <==> "" !in values
  {
    if values != [] {
      NonEmptyAll(values[1..]);
      assert values == [values[0]] + values[1..];
      if values[0] != "" { assert NonEmpty(values)[1..] == NonEmpty(values[1..]); }
    }
  }
}
