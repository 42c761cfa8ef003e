/** Decimal integers as the tools print and parse them: 32-bit, with an optional sign and surrounding white space. */
module Decimal {
  import opened Wrappers
  import opened Text

  const MIN_INT32: int := -0x8000_0000
  const MAX_INT32: int := 0x7fff_ffff

  predicate IsInt32(n: int) {
    MIN_INT32 <= n <= MAX_INT32
  }

  predicate IsDigit(c: char) {
    '0' <= c <= '9'
  }

  function DigitChar(d: nat): (c: char)
    requires d < 10
    ensures IsDigit(c)
  {
    '0' + (d as char)
  }

  function PrintNat(n: nat): (s: string)
    ensures s != "" && forall i :: 0 <= i < |s| ==> IsDigit(s[i])
  {
    if n < 10 then [DigitChar(n)] else PrintNat(n / 10) + [DigitChar(n % 10)]
  }

  function PrintInt(n: int): string {
    if n < 0 then "-" + PrintNat(-n) else PrintNat(n)
  }

  /** The value of a string of digits; none when it is empty or has another character. */
  function ParseNat(s: string): Option<nat> {
    if s == "" || !IsDigit(s[|s| - 1]) then None
    else
      var last := (s[|s| - 1] - '0') as int;
      if |s| == 1 then Some(last)
      else
        match ParseNat(s[..|s| - 1])
        case None => None
        case Some(n) => Some(10 * n + last)
  }

  /** Convert.ToInt32: none when it throws, for a wrong format or a value out of range. */
  function ParseInt32(text: string): Option<int> {
    var s := Trim(text);
    var negative := s != "" && s[0] == '-';
    var digits := if s != "" && s[0] in "+-" then s[1..] else s;
    match ParseNat(digits)
    case None => None
    case Some(n) =>
      var value: int := if negative then 0 - n else n;
      if IsInt32(value) then Some(value) else None
  }

  lemma {:induction false} ParseNatInvertsPrint(n: nat)
    ensures ParseNat(PrintNat(n)) == Some(n)
  {
    if n >= 10 {
      ParseNatInvertsPrint(n / 10);
      assert PrintNat(n)[..|PrintNat(n)| - 1] == PrintNat(n / 10);
    }
  }

  lemma ParseInvertsPrint(n: int)
    ensures ParseInt32(PrintInt(n)) == if -0x8000_0000 <= n < 0x8000_0000 then Some(n) else None
  {
    var s := PrintInt(n);
    assert !White(s[0]) && !White(s[|s| - 1]);
    assert Trim(s) == s;
    if n < 0 {
      ParseNatInvertsPrint(-n);
      assert s[1..] == PrintNat(-n);
    } else {
      ParseNatInvertsPrint(n);
      assert IsDigit(s[0]);
    }
  }

  // --- what is parsed -------------------------------------------------------------------------------

  predicate AllDigits(s: string) {
    s != "" && forall i :: 0 <= i < |s| ==> IsDigit(s[i])
  }

  lemma {:induction false} ParsesDigits(s: string)
    ensures ParseNat(s).Some? <==> AllDigits(s)
  {
    if |s| > 1 {
      ParsesDigits(s[..|s| - 1]);
      assert s == s[..|s| - 1] + [s[|s| - 1]];
    }
  }

  /** A leading zero changes nothing. */
  lemma {:induction false} LeadingZero(s: string)
    requires AllDigits(s)
    ensures ParseNat("0" + s) == ParseNat(s)
  {
    var n := |s| - 1;
    if n == 0 {
      assert ("0" + s)[..1] == "0";
      assert ParseNat("0") == Some(0);
    } else {
      assert ("0" + s)[..|s|] == "0" + s[..n];
      assert AllDigits(s[..n]);
      LeadingZero(s[..n]);
      ParsesDigits(s[..n]);
    }
  }

  /** Without a leading zero, printing what was parsed gives the digits back. */
  lemma {:induction false} PrintInvertsParse(s: string)
    requires AllDigits(s) && (|s| > 1 ==> s[0] != '0')
    ensures ParseNat(s).Some? && PrintNat(ParseNat(s).value) == s
    ensures |s| > 1 ==> ParseNat(s).value >= 10
  {
    var n := |s| - 1;
    var last := (s[n] - '0') as int;
    if n == 0 {
      DigitOf(s[0]);
      assert s == [s[0]];
    } else {
      assert AllDigits(s[..n]);
      PrintInvertsParse(s[..n]);
      var front := ParseNat(s[..n]).value;
      assert front > 0 by {
        if n == 1 { assert s[..1][0] == s[0] != '0'; }
      }
      PrintStep(front, last);
      DigitOf(s[n]);
      assert s == s[..n] + [s[n]];
    }
  }

  lemma PrintStep(n: nat, last: nat)
    requires n > 0 && last < 10
    ensures PrintNat(10 * n + last) == PrintNat(n) + [DigitChar(last)]
  {
  }

  lemma DigitOf(c: char)
    requires IsDigit(c)
    ensures DigitChar((c - '0') as int) == c
  {
  }

  predicate IsSign(sign: string) {
    sign == "" || sign == "+" || sign == "-"
  }

  /** A number with white space around it and perhaps a sign is parsed to its value, if that fits 32 bits. */
  lemma ParsesNumber(before: string, sign: string, digits: string, after: string)
    requires AllWhite(before) && AllWhite(after) && IsSign(sign) && AllDigits(digits)
    ensures ParseNat(digits).Some?
    ensures var value: int := if sign == "-" then 0 - ParseNat(digits).value else ParseNat(digits).value;
            ParseInt32(before + (sign + digits) + after)
            == if -0x8000_0000 <= value < 0x8000_0000 then Some(value) else None
  {
    var s := sign + digits;
    ParsesDigits(digits);
    assert s[|s| - 1] == digits[|digits| - 1];
    assert IsDigit(digits[0]);
    TrimSurrounded(before, s, after);
    if sign == "" {
      assert s == digits && s[0] !in "+-";
    } else {
      assert s[0] == sign[0] && s[0] in "+-" && s[1..] == digits;
    }
  }

  /** Nothing else is parsed. */
  lemma OnlyNumbersParse(text: string) returns (before: string, sign: string, digits: string, after: string)
    requires ParseInt32(text).Some?
    ensures text == before + (sign + digits) + after
    ensures AllWhite(before) && AllWhite(after) && IsSign(sign) && AllDigits(digits)
  {
    before, after := TrimCuts(text);
    var s := Trim(text);
    sign := if s != "" && s[0] in "+-" then [s[0]] else "";
    digits := if s != "" && s[0] in "+-" then s[1..] else s;
    ParsesDigits(digits);
    assert s == sign + digits;
    forall i | 0 <= i < |before| ensures White(before[i]) { assert before[i] in before + after; }
    forall i | 0 <= i < |after| ensures White(after[i]) { assert after[i] in before + after; }
  }
}
