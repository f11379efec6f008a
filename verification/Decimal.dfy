/** Decimal numbers as the log prints them and as stoull, stoul and stoi read them back. */
module Decimal {
  import opened Text

  function Digit(d: nat): char
    requires d < 10
  {
    ('0' as int + d) as char
  }

  function DigitValue(c: char): nat
    requires IsDigit(c)
  {
    c as int - '0' as int
  }

  predicate AllDigits(s: string) { forall i :: 0 <= i < |s| ==> IsDigit(s[i]) }

  function Print(n: nat): (r: string)
    ensures r != "" && AllDigits(r)
  {
    if n < 10 then [Digit(n)] else Print(n / 10) + [Digit(n % 10)]
  }

  function Value(s: string): nat
    requires AllDigits(s)
  {
    if s == "" then 0 else 10 * Value(s[..|s| - 1]) + DigitValue(s[|s| - 1])
  }

  lemma {:induction false} ValuePrint(n: nat)
    ensures Value(Print(n)) == n
  {
    if n >= 10 {
      ValuePrint(n / 10);
      assert Print(n)[..|Print(n)| - 1] == Print(n / 10);
    } else {
      assert Print(n)[..0] == "";
    }
  }

  function LeadingDigits(s: string): (r: string)
    ensures AllDigits(r)
  {
    if s != "" && IsDigit(s[0]) then [s[0]] + LeadingDigits(s[1..]) else ""
  }

  lemma {:induction false} LeadingAll(s: string, k: string)
    requires AllDigits(s) && (k == "" || !IsDigit(k[0]))
    ensures LeadingDigits(s + k) == s
  {
    if s == "" {
      assert s + k == k;
    } else {
      assert (s + k)[1..] == s[1..] + k;
      LeadingAll(s[1..], k);
    }
  }

  // The largest or the smallest number of a set
  ghost predicate Extreme(s: set<nat>, k: nat, up: bool) { k in s && forall j <- s :: if up then j <= k else k <= j }

  lemma {:induction false} ExtremeExists(s: set<nat>, up: bool)
    requires s != {}
    ensures exists k :: Extreme(s, k, up)
  {
    var j :| j in s;
    var rest := s - {j};
    assert s == rest + {j};
    if rest == {} {
      assert Extreme(s, j, up);
    } else {
      ExtremeExists(rest, up);
      var k :| Extreme(rest, k, up);
      assert Extreme(s, if (j > k) == up then j else k, up);
    }
  }

  const TWO64: nat := 0x1_0000_0000_0000_0000
  const TWO32: nat := 0x1_0000_0000
  const TWO31: nat := 0x8000_0000

  // The sign and the digits that the C library takes for a number
  function ReadNumber(s: string): (bool, string) {
    var t := TrimLeft(s);
    if t != "" && t[0] == '-' then (true, LeadingDigits(t[1..]))
    else if t != "" && t[0] == '+' then (false, LeadingDigits(t[1..]))
    else (false, LeadingDigits(t))
  }

  // stoull: None for the exceptions; a minus sign negates modulo 2^64
  function StoULL(s: string): Option<nat> {
    var (minus, ds) := ReadNumber(s);
    if ds == "" || Value(ds) >= TWO64 then None
    else if minus then Some((TWO64 - Value(ds)) % TWO64)
    else Some(Value(ds))
  }

  // stoi: None outside the 32-bit range
  function StoI(s: string): Option<int> {
    var (minus, ds) := ReadNumber(s);
    if ds == "" then None
    else
      var d: int := Value(ds);
      var v := if minus then -d else d;
      if 0 <= v + TWO31 && v < TWO31 then Some(v) else None
  }

  lemma ScanPrint(n: nat)
    ensures ReadNumber(Print(n)) == (false, Print(n))
  {
    var p := Print(n);
    assert IsDigit(p[0]);
    assert p + "" == p;
    LeadingAll(p, "");
  }

  lemma StoULLPrint(n: nat)
    requires n < TWO64
    ensures StoULL(Print(n)) == Some(n)
  {
    ScanPrint(n);
    ValuePrint(n);
  }

  lemma StoIPrint(n: nat)
    requires n < TWO31
    ensures StoI(Print(n)) == Some(n)
  {
    ScanPrint(n);
    ValuePrint(n);
  }

  // A signed number as a stream prints it
  function PrintInt(v: int): string { if v < 0 then "-" + Print(-v) else Print(v) }

  lemma ScanPrintInt(v: int)
    ensures ReadNumber(PrintInt(v)) == (v < 0, Print(if v < 0 then -v else v))
  {
    if v < 0 {
      var p := Print(-v);
      assert PrintInt(v)[0] == '-' && PrintInt(v)[1..] == p;
      assert p + "" == p;
      LeadingAll(p, "");
    } else {
      ScanPrint(v);
    }
  }

  lemma StoIPrintInt(v: int)
    requires 0 <= v + TWO31 && v < TWO31
    ensures StoI(PrintInt(v)) == Some(v)
  {
    ScanPrintInt(v);
    ValuePrint(if v < 0 then -v else v);
  }

  const TWO63: nat := 0x8000_0000_0000_0000

  // stoll: None outside the 64-bit range
  function StoLL(s: string): Option<int> {
    var (minus, ds) := ReadNumber(s);
    if ds == "" then None
    else
      var d: int := Value(ds);
      var v := if minus then -d else d;
      if 0 <= v + TWO63 && v < TWO63 then Some(v) else None
  }

  // White space, a sign or none, digits, and anything behind them
  predicate NumberText(pad: string, sign: string, ds: string, k: string) {
    && AllSpace(pad) && (sign == "" || sign == "-" || sign == "+") && AllDigits(ds) && (k == "" || !IsDigit(k[0]))
    && (ds == "" ==> sign != "" || k == "" || (!IsSpace(k[0]) && k[0] != '-' && k[0] != '+'))
  }

  // The value is read when it is below 2^64, a minus sign negates modulo 2^64, and without digits nothing is read.
  lemma UnsignedReads(pad: string, sign: string, ds: string, k: string)
    requires NumberText(pad, sign, ds, k)
    ensures var n: int := Value(ds);
            StoULL(pad + (sign + (ds + k))) ==
            if ds == "" || n >= 18446744073709551616 then None
            else Some(if sign == "-" && n > 0 then 18446744073709551616 - n else n)
  {
    NumberParts(pad, sign, ds, k);
    hide ReadNumber, Value, NumberText;
    if 0 < Value(ds) < TWO64 { SmallMod(TWO64 - Value(ds)); }
  }

  // Signed numbers are read when they fit 32 and 64 bits.
  lemma SignedReads(pad: string, sign: string, ds: string, k: string)
    requires NumberText(pad, sign, ds, k)
    ensures var s, v := pad + (sign + (ds + k)), if sign == "-" then -(Value(ds) as int) else Value(ds);
            && StoI(s) == (if ds != "" && -2147483648 <= v <= 2147483647 then Some(v) else None)
            && StoLL(s) == (if ds != "" && -9223372036854775808 <= v <= 9223372036854775807 then Some(v) else None)
  {
    NumberParts(pad, sign, ds, k);
    hide ReadNumber, Value, NumberText;
  }

  lemma SmallMod(n: nat)
    requires n < TWO64
    ensures n % TWO64 == n
  {
  }

  lemma NumberParts(pad: string, sign: string, ds: string, k: string)
    requires NumberText(pad, sign, ds, k)
    ensures ReadNumber(pad + (sign + (ds + k))) == (sign == "-", ds)
  {
    var t := sign + (ds + k);
    TrimLeftPad(pad, t);
    LeadingAll(ds, k);
    if sign == "" {
      assert t == ds + k;
      if ds != "" { assert t[0] == ds[0]; } else { assert t == k; }
    } else {
      assert t[1..] == ds + k;
    }
  }
}
