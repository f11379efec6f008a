/** How the scanners of the text interpreter pass over printed text: each of them comes out of a whole printed
    statement exactly as it went in. */
module ProcScan {
  import opened Text
  import opened ProcText
  import opened ProcProgram

  // The left-boundary flag after t
  function After(lb: bool, t: string): bool { if t == "" then lb else !IsWord(t[|t| - 1]) }

  lemma AfterPad(w: string)
    requires AllSpace(w)
    ensures After(true, w)
  {
  }

  // No keyword starts inside t when k follows it, and t has no `;`.
  predicate Silent(lb: bool, t: string, k: string)
    decreases |t|
  {
    t == "" || (!Keyword(lb, t + k) && t[0] != ';' && Silent(!IsWord(t[0]), t[1..], k))
  }

  lemma AtIndex(x: string, kw: string, i: int)
    requires At(x, kw)
    ensures 0 <= i < |kw| ==> Upper(x[i]) == kw[i]
  {
  }

  lemma NotAt(x: string, kw: string, i: nat)
    requires i < |kw| && i < |x| && Upper(x[i]) != kw[i]
    ensures !At(x, kw)
  {
  }

  lemma AtToken(w: string, kw: string, k: string)
    requires Spells(w, kw)
    ensures At(w + k, kw) && (w + k)[|kw|..] == k && |w| == |kw|
    ensures forall i :: 0 <= i < |kw| ==> Upper((w + k)[i]) == kw[i]
    ensures forall i :: 0 <= i < |w| ==> Upper(w[i]) == kw[i]
  {
  }

  // k cannot complete a keyword begun before it.
  predicate Seals(k: string) {
    k == "" || (!IsWord(k[0]) && (k[0] == ' ' && |k| > 1 ==> Upper(k[1]) != 'I' && Upper(k[1]) != 'L'))
  }

  lemma AtSealed(t: string, k: string, kw: string)
    requires t != "" && Seals(k) && At(t + k, kw)
    requires kw == "END LOOP" || kw == "END IF" || kw == "LOOP" || kw == "THEN" || kw == "IF" || kw == "ELSE"
    ensures |kw| <= |t| && At(t, kw)
  {
    assert forall i :: 0 <= i < |t| ==> (t + k)[i] == t[i];
    if |t| < |kw| {
      AtIndex(t + k, kw, |t|);
      AtIndex(t + k, kw, |kw| - 4);
      AtIndex(t + k, kw, |kw| - 2);
      assert false;
    }
  }

  lemma WordSealed(t: string, k: string, kw: string)
    requires t != "" && Seals(k) && WordAt(t + k, kw)
    requires kw == "END LOOP" || kw == "END IF" || kw == "LOOP" || kw == "THEN" || kw == "IF" || kw == "ELSE"
    ensures WordAt(t, kw)
  {
    AtSealed(t, k, kw);
  }

  lemma KeywordSealed(lb: bool, t: string, k: string)
    requires t != "" && Seals(k) && !Keyword(lb, t)
    ensures !Keyword(lb, t + k)
  {
    if Keyword(lb, t + k) {
      if At(t + k, "END IF") { AtSealed(t, k, "END IF"); }
      else if WordAt(t + k, "END LOOP") { WordSealed(t, k, "END LOOP"); }
      else if WordAt(t + k, "LOOP") { WordSealed(t, k, "LOOP"); }
      else if WordAt(t + k, "THEN") { WordSealed(t, k, "THEN"); }
      else if WordAt(t + k, "IF") { WordSealed(t, k, "IF"); }
      else { WordSealed(t, k, "ELSE"); }
    }
  }

  lemma {:induction false} CleanSilent(lb: bool, t: string, k: string)
    requires Clean(lb, t) && Seals(k)
    ensures Silent(lb, t, k)
    decreases |t|
  {
    if t != "" {
      KeywordSealed(lb, t, k);
      CleanSilent(!IsWord(t[0]), t[1..], k);
    }
  }

  // Keywords begin with a letter, so white space and `;` are never the front of one.
  lemma NoKeyword(lb: bool, x: string)
    requires x == "" || !IsWord(x[0])
    ensures !Keyword(lb, x)
  {
    if x != "" {
      assert !IsAlpha(Upper(x[0]));
      NotAt(x, "END LOOP", 0); NotAt(x, "END IF", 0); NotAt(x, "LOOP", 0);
      NotAt(x, "THEN", 0); NotAt(x, "IF", 0); NotAt(x, "ELSE", 0);
    }
  }

  lemma {:induction false} GapSilent(lb: bool, w: string, k: string)
    requires AllSpace(w)
    ensures Silent(lb, w, k)
    decreases |w|
  {
    if w != "" {
      NoKeyword(lb, w + k);
      GapSilent(!IsWord(w[0]), w[1..], k);
    }
  }

  lemma {:induction false} WordSilent(w: string, k: string)
    requires AllWord(w)
    ensures Silent(false, w, k)
    decreases |w|
  {
    if w != "" {
      WordSilent(w[1..], k);
    }
  }

  // ------------------------------------------------------------------------------------------
  // Silent text does not change what a scanner finds.

  lemma CutStep(lb: bool, x: string, d: int)
    requires x != "" && MarkAt(lb, x).Plain? && x[0] != ';'
    ensures CutRest(lb, x, d) == CutRest(!IsWord(x[0]), x[1..], d)
  {
  }

  lemma {:induction false} CutSilent(lb: bool, t: string, k: string, d: int)
    requires Silent(lb, t, k)
    ensures CutRest(lb, t + k, d) == CutRest(After(lb, t), k, d)
    decreases |t|
  {
    if t == "" {
      assert t + k == k;
    } else {
      assert (t + k)[1..] == t[1..] + k;
      CutStep(lb, t + k, d);
      CutSilent(!IsWord(t[0]), t[1..], k, d);
    }
  }

  lemma {:induction false} ElseSilent(lb: bool, t: string, k: string, d: nat, e: Option<string>)
    requires Silent(lb, t, k)
    ensures ElseEnd(lb, t + k, d, e) == ElseEnd(After(lb, t), k, d, e)
    decreases |t|
  {
    if t == "" {
      assert t + k == k;
    } else {
      assert (t + k)[1..] == t[1..] + k;
      ElseSilent(!IsWord(t[0]), t[1..], k, d, e);
    }
  }

  lemma {:induction false} ThenSilent(lb: bool, t: string, k: string, d: nat)
    requires Silent(lb, t, k)
    ensures ThenRest(lb, t + k, d) == ThenRest(After(lb, t), k, d)
    decreases |t|
  {
    if t == "" {
      assert t + k == k;
    } else {
      assert (t + k)[1..] == t[1..] + k;
      ThenSilent(!IsWord(t[0]), t[1..], k, d);
    }
  }
}
