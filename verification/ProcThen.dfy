/** The THEN that closes a condition, when the condition holds pairs of IF and THEN of its own. */
module ProcThen {
  import opened Text
  import opened ProcText
  import opened ProcProgram
  import opened ProcScan

  // Part of a condition: a text without keywords, or IF, parts and THEN
  datatype Part = Words(text: string) | Inner(ifKw: string, parts: seq<Part>, thenKw: string)

  predicate Proper(p: Part)
    decreases p, 1
  {
    match p
    case Words(text) => Clean(true, text)
    case Inner(ifKw, parts, thenKw) => Spells(ifKw, "IF") && Spells(thenKw, "THEN") && AllProper(parts)
  }

  predicate AllProper(ps: seq<Part>)
    decreases ps, 0
  {
    ps == [] || (Proper(ps[0]) && AllProper(ps[1..]))
  }

  // The text of a part, followed by k
  function PrintPart(p: Part, gap: string, k: string): string
    decreases p, 1
  {
    match p
    case Words(text) => text + k
    case Inner(ifKw, parts, thenKw) => ifKw + (gap + PrintParts(parts, gap, thenKw + k))
  }

  // Every part with the gap behind it
  function PrintParts(ps: seq<Part>, gap: string, k: string): string
    decreases ps, 0
  {
    if ps == [] then k else PrintPart(ps[0], gap, gap + PrintParts(ps[1..], gap, k))
  }

  predicate Outside(k: string) { k == "" || !IsWord(k[0]) }

  lemma WordWithin(t: string, k: string, kw: string)
    requires t != "" && Outside(k) && WordAt(t + k, kw) && (kw == "IF" || kw == "THEN")
    ensures WordAt(t, kw)
  {
    var x := t + k;
    assert forall i :: 0 <= i < |t| ==> x[i] == t[i];
    if |t| < |kw| { AtIndex(x, kw, |t|); }
    assert |kw| < |t| ==> x[|kw|] == t[|kw|];
  }

  lemma ThenStep(lb: bool, x: string, d: nat)
    requires x != "" && (lb ==> !WordAt(x, "IF") && !WordAt(x, "THEN"))
    ensures ThenRest(lb, x, d) == ThenRest(!IsWord(x[0]), x[1..], d)
  {
  }

  lemma NoWordAhead(k: string)
    requires Outside(k)
    ensures !WordAt(k, "IF") && !WordAt(k, "THEN")
  {
    if k != "" { NoKeyword(true, k); }
  }

  // A boundary to the left makes no difference in front of no word.
  lemma ThenBoundary(k: string, d: nat)
    requires Outside(k)
    ensures ThenRest(false, k, d) == ThenRest(true, k, d)
  {
    hide ThenRest;
    if k != "" {
      NoWordAhead(k);
      ThenStep(false, k, d);
      ThenStep(true, k, d);
    } else {
      ThenNothing(d);
    }
  }

  lemma ThenNothing(d: nat)
    ensures ThenRest(false, "", d) == ThenRest(true, "", d) == None
  {
  }

  lemma {:induction false} ThenClean(lb: bool, t: string, k: string, d: nat)
    requires Clean(lb, t) && Outside(k)
    ensures ThenRest(lb, t + k, d) == ThenRest(true, k, d)
    decreases |t|
  {
    hide ThenRest;
    if t == "" {
      assert t + k == k;
      ThenBoundary(k, d);
    } else {
      assert (t + k)[0] == t[0] && (t + k)[1..] == t[1..] + k;
      if lb && WordAt(t + k, "IF") { WordWithin(t, k, "IF"); }
      if lb && WordAt(t + k, "THEN") { WordWithin(t, k, "THEN"); }
      ThenStep(lb, t + k, d);
      ThenClean(!IsWord(t[0]), t[1..], k, d);
    }
  }

  // The rest of a word
  lemma {:induction false} ThenTail(w: string, k: string, d: nat)
    requires AllWord(w) && Outside(k)
    ensures ThenRest(false, w + k, d) == ThenRest(true, k, d)
    decreases |w|
  {
    hide ThenRest;
    if w == "" {
      assert w + k == k;
      ThenBoundary(k, d);
    } else {
      assert (w + k)[0] == w[0] && (w + k)[1..] == w[1..] + k;
      ThenStep(false, w + k, d);
      ThenTail(w[1..], k, d);
    }
  }

  lemma {:induction false} ThenGap(gap: string, k: string, d: nat)
    requires AllSpace(gap)
    ensures ThenRest(true, gap + k, d) == ThenRest(true, k, d)
    decreases |gap|
  {
    hide ThenRest;
    if gap == "" {
      assert gap + k == k;
    } else {
      assert (gap + k)[0] == gap[0] && (gap + k)[1..] == gap[1..] + k;
      NoWordAhead(gap + k);
      ThenStep(true, gap + k, d);
      ThenGap(gap[1..], k, d);
    }
  }

  lemma LetterWord(w: string, kw: string)
    requires Spells(w, kw) && (kw == "IF" || kw == "THEN")
    ensures |w| == |kw| && AllWord(w)
  {
    forall i | 0 <= i < |w| ensures IsWord(w[i]) { assert Upper(w[i]) == kw[i]; }
  }

  lemma ThenIf(w: string, k: string, d: nat)
    requires Spells(w, "IF") && Outside(k)
    ensures ThenRest(true, w + k, d) == ThenRest(true, k, d + 1)
  {
    AtToken(w, "IF", k);
    LetterWord(w, "IF");
    NotAt(w + k, "THEN", 0);
    assert (w + k)[1..] == w[1..] + k && (w + k)[2..] == k;
    ThenTail(w[1..], k, d + 1);
  }

  lemma ThenThen(w: string, k: string, d: nat)
    requires Spells(w, "THEN") && Outside(k)
    ensures ThenRest(true, w + k, 0) == Some(w + k)
    ensures d > 0 ==> ThenRest(true, w + k, d) == ThenRest(true, k, d - 1)
  {
    AtToken(w, "THEN", k);
    LetterWord(w, "THEN");
    NotAt(w + k, "IF", 0);
    assert (w + k)[1..] == w[1..] + k && (w + k)[4..] == k;
    if d > 0 { ThenTail(w[1..], k, d - 1); }
  }

  // Whatever pairs a condition holds, the search is behind it as deep as in front of it.
  lemma {:induction false} PartPassed(p: Part, gap: string, k: string, d: nat)
    requires Proper(p) && AllSpace(gap) && gap != "" && Outside(k)
    ensures ThenRest(true, PrintPart(p, gap, k), d) == ThenRest(true, k, d)
    decreases p, 1
  {
    hide ThenRest;
    match p
    case Words(text) => ThenClean(true, text, k, d);
    case Inner(ifKw, parts, thenKw) =>
      var inner := PrintParts(parts, gap, thenKw + k);
      ThenIf(ifKw, gap + inner, d);
      ThenGap(gap, inner, d + 1);
      PartsPassed(parts, gap, thenKw + k, d + 1);
      ThenThen(thenKw, k, d + 1);
  }

  lemma {:induction false} PartsPassed(ps: seq<Part>, gap: string, k: string, d: nat)
    requires AllProper(ps) && AllSpace(gap) && gap != ""
    ensures ThenRest(true, PrintParts(ps, gap, k), d) == ThenRest(true, k, d)
    decreases ps, 0
  {
    hide ThenRest;
    if ps != [] {
      var rest := PrintParts(ps[1..], gap, k);
      PartPassed(ps[0], gap, gap + rest, d);
      ThenGap(gap, rest, d);
      PartsPassed(ps[1..], gap, k, d);
    }
  }

  // The THEN behind the condition is found, not one of the pairs inside it.
  lemma OwnThen(ps: seq<Part>, gap: string, thenKw: string, k: string)
    requires AllProper(ps) && AllSpace(gap) && gap != "" && Spells(thenKw, "THEN") && Outside(k)
    ensures ThenRest(true, PrintParts(ps, gap, thenKw + k), 0) == Some(thenKw + k)
  {
    hide ThenRest;
    PartsPassed(ps, gap, thenKw + k, 0);
    ThenThen(thenKw, k, 0);
  }
}
