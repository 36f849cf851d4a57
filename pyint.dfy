/**
 * Python's conversions between integers and decimal strings, as the price list
 * uses them: `int(cell)` for price and weight cells and `str(n)` in the report.
 */
module PyInt {
  import opened Wrappers

  predicate IsDigit(c: char) { '0' <= c <= '9' }

  /** The ASCII whitespace that `int()` skips around a number: space, \t, \n, \v, \f, \r. */
  predicate IsSpace(c: char) { c == ' ' || '\t' <= c <= '\r' }

  function StripLeft(s: string): string {
    if |s| > 0 && IsSpace(s[0]) then StripLeft(s[1..]) else s
  }

  function StripRight(s: string): string {
    if |s| > 0 && IsSpace(s[|s| - 1]) then StripRight(s[..|s| - 1]) else s
  }

  /** `s.strip()` restricted to ASCII whitespace. */
  function Strip(s: string): string { StripRight(StripLeft(s)) }

  /**
   * The digit part `int()` accepts: one or more ASCII digits, where a single
   * underscore may stand between two digits ("1_000").
   */
  predicate DigitGroups(s: string) {
    && |s| > 0
    && (forall i :: 0 <= i < |s| ==> IsDigit(s[i]) || s[i] == '_')
    && (forall i :: 0 <= i < |s| && s[i] == '_' ==> 0 < i < |s| - 1 && IsDigit(s[i - 1]) && IsDigit(s[i + 1]))
  }

  /** The decimal value of the digits of `s`, underscores skipped. */
  function DigitsValue(s: string): nat
    requires forall i :: 0 <= i < |s| ==> IsDigit(s[i]) || s[i] == '_'
  {
    if s == [] then 0
    else if s[|s| - 1] == '_' then DigitsValue(s[..|s| - 1])
    else
      assert IsDigit(s[|s| - 1]);
      DigitsValue(s[..|s| - 1]) * 10 + (s[|s| - 1] as int - '0' as int)
  }

  /**
   * `int(s)` for base 10: None where Python raises ValueError. A blank cell
   * fails, only a leading minus gives a negative value, and a cell of plain
   * digits reads as their decimal value.
   */
  function ParseInt(s: string): (r: Option<int>)
    ensures r.Some? ==> |Strip(s)| > 0 && (r.value < 0 ==> Strip(s)[0] == '-')
    ensures |Strip(s)| > 0 && (forall i :: 0 <= i < |Strip(s)| ==> IsDigit(Strip(s)[i])) ==>
      r == Some(DigitsValue(Strip(s)))
  {
    var t := Strip(s);
    if |t| > 0 && (t[0] == '-' || t[0] == '+') then
      if DigitGroups(t[1..]) then
        var v: int := DigitsValue(t[1..]);
        Some(if t[0] == '-' then -v else v)
      else None
    else if DigitGroups(t) then Some(DigitsValue(t))
    else None
  }

  function DigitChar(d: nat): char
    requires d < 10
  {
    ('0' as int + d) as char
  }

  /** `str(n)` for a non-negative integer. */
  function NatToString(n: nat): (r: string)
    ensures |r| > 0 && forall i :: 0 <= i < |r| ==> IsDigit(r[i])
  {
    if n < 10 then [DigitChar(n)] else NatToString(n / 10) + [DigitChar(n % 10)]
  }

  /** `str(n)` for any integer: a minus sign before the digits of a negative number. */
  function IntToString(n: int): (r: string)
    ensures |r| > 0 && forall i :: 0 <= i < |r| ==> IsDigit(r[i]) || (i == 0 && r[i] == '-')
    ensures r[0] == '-' <==> n < 0
  {
    if n < 0 then "-" + NatToString(-n) else NatToString(n)
  }

  lemma {:induction false} DigitsValueOfNatToString(n: nat)
    ensures DigitsValue(NatToString(n)) == n
  {
    var s := NatToString(n);
    if n >= 10 {
      DigitsValueOfNatToString(n / 10);
      assert s[..|s| - 1] == NatToString(n / 10);
    }
  }

  lemma StripKeepsTrimmed(s: string)
    requires |s| > 0 && !IsSpace(s[0]) && !IsSpace(s[|s| - 1])
    ensures Strip(s) == s
  {
  }

  /** The round trip that makes the report's numbers readable again: int(str(n)) == n. */
  lemma ParseIntToString(n: int)
    ensures ParseInt(IntToString(n)) == Some(n)
  {
    var t := IntToString(n);
    StripKeepsTrimmed(t);
    if n < 0 {
      assert t[1..] == NatToString(-n);
      DigitsValueOfNatToString(-n);
    } else {
      DigitsValueOfNatToString(n);
    }
  }

  lemma {:induction false} StripLeftKeeps(s: string, c: char)
    requires c in s && !IsSpace(c)
    ensures c in StripLeft(s)
  {
    if IsSpace(s[0]) {
      assert c in s[1..] by { var i :| 0 <= i < |s| && s[i] == c; assert i > 0 && s[1..][i - 1] == c; }
      StripLeftKeeps(s[1..], c);
    }
  }

  lemma {:induction false} StripRightKeeps(s: string, c: char)
    requires c in s && !IsSpace(c)
    ensures c in StripRight(s)
  {
    var n := |s|;
    if IsSpace(s[n - 1]) {
      assert c in s[..n - 1] by { var i :| 0 <= i < n && s[i] == c; assert i < n - 1 && s[..n - 1][i] == c; }
      StripRightKeeps(s[..n - 1], c);
    }
  }

  /**
   * `int()` tolerates nothing but digits, underscores, a sign and surrounding
   * whitespace: a decimal point or a currency symbol anywhere makes it fail.
   */
  lemma ParseIntRejects(s: string, c: char)
    requires c in s && !IsDigit(c) && c != '_' && c != '-' && c != '+' && !IsSpace(c)
    ensures ParseInt(s) == None
  {
    StripLeftKeeps(s, c);
    StripRightKeeps(StripLeft(s), c);
    var t := Strip(s);
    var i :| 0 <= i < |t| && t[i] == c;
    if |t| > 0 && (t[0] == '-' || t[0] == '+') {
      assert t[1..][i - 1] == c;
    }
  }
}
