/** The string operations the core uses: `String.prototype.includes`, a
    suffix test, and `Number.prototype.toString` on integers together with an
    independent decimal reader that serves as its partner. */
module Strings {
  import opened Base

  /** `sub` occurs in `s` starting at index `i`. */
  ghost predicate OccursAt(s: string, sub: string, i: int) {
    0 <= i && i + |sub| <= |s| && s[i..i + |sub|] == sub
  }

  /** `s.includes(sub)`. */
  function Contains(s: string, sub: string): (b: bool)
    ensures b <==> exists i :: OccursAt(s, sub, i)
  {
    ContainsFrom(s, sub, 0)
  }

  /** Searches for `sub` at index `i` or later. */
  function ContainsFrom(s: string, sub: string, i: nat): (b: bool)
    requires i <= |s|
    ensures b <==> exists k :: i <= k && OccursAt(s, sub, k)
    decreases |s| - i
  {
    if i + |sub| > |s| then false
    else if s[i..i + |sub|] == sub then
      assert OccursAt(s, sub, i);
      true
    else
      var b := ContainsFrom(s, sub, i + 1);
      assert !OccursAt(s, sub, i);
      b
  }

  /** `s.endsWith(suffix)`. */
  predicate HasSuffix(s: string, suffix: string) {
    |suffix| <= |s| && s[|s| - |suffix|..] == suffix
  }

  // ---------------------------------------------------------------------
  // Decimal representation of integers
  // ---------------------------------------------------------------------

  predicate IsDigit(c: char) {
    '0' <= c <= '9'
  }

  predicate AllDigits(s: string) {
    forall k :: 0 <= k < |s| ==> IsDigit(s[k])
  }

  function DigitValue(c: char): nat
    requires IsDigit(c)
  {
    c as int - '0' as int
  }

  function DigitChar(d: nat): (c: char)
    requires d < 10
    ensures IsDigit(c) && DigitValue(c) == d
  {
    ('0' as int + d) as char
  }

  /** The value of a string of decimal digits, most significant first. */
  function DecimalValue(s: string): nat
    requires AllDigits(s)
  {
    if |s| == 0 then 0
    else DecimalValue(s[..|s| - 1]) * 10 + DigitValue(s[|s| - 1])
  }

  /** Digits with no leading zero, the only zero-led one being "0". */
  predicate CanonicalDigits(s: string) {
    |s| >= 1 && AllDigits(s) && (s[0] == '0' ==> s == "0")
  }

  /** The form `toString()` gives an integer: canonical digits, optionally
      after a minus sign, and never "-0". */
  predicate CanonicalDecimal(s: string) {
    if |s| >= 1 && s[0] == '-' then CanonicalDigits(s[1..]) && s[1..] != "0"
    else CanonicalDigits(s)
  }

  /** Decimal digits of `n` with no leading zero. */
  function NatToDecimal(n: nat): (r: string)
    ensures |r| >= 1 && AllDigits(r)
    ensures r[0] == '0' ==> n == 0
    ensures r[0] == '0' ==> r == "0"
  {
    if n < 10 then [DigitChar(n)]
    else NatToDecimal(n / 10) + [DigitChar(n % 10)]
  }

  lemma {:induction false} NatDecimalRoundTrip(n: nat)
    ensures DecimalValue(NatToDecimal(n)) == n
  {
    if n >= 10 {
      var s := NatToDecimal(n / 10);
      var t := s + [DigitChar(n % 10)];
      assert t[..|t| - 1] == s;
      NatDecimalRoundTrip(n / 10);
    }
  }

  /** A positive leading digit makes the value positive. */
  lemma {:induction false} LeadingDigitPositive(s: string)
    requires |s| >= 1 && AllDigits(s) && s[0] != '0'
    ensures DecimalValue(s) >= 1
  {
    if |s| > 1 {
      var p := s[..|s| - 1];
      assert p[0] == s[0];
      LeadingDigitPositive(p);
    }
  }

  /** Canonical digits are the digits of their value: the decimal writer
      produces every canonical string, and only from its own value. */
  lemma {:induction false} CanonicalDigitsRoundTrip(s: string)
    requires CanonicalDigits(s)
    ensures NatToDecimal(DecimalValue(s)) == s
  {
    if |s| == 1 {
      assert DigitChar(DigitValue(s[0])) == s[0];
    } else {
      var p := s[..|s| - 1];
      var d := DigitValue(s[|s| - 1]);
      assert p[0] == s[0] != '0';
      LeadingDigitPositive(p);
      CanonicalDigitsRoundTrip(p);
      var v := DecimalValue(s);
      assert v / 10 == DecimalValue(p) && v % 10 == d;
      assert DigitChar(d) == s[|s| - 1];
      assert s == p + [s[|s| - 1]];
    }
  }

  /** Reads an optionally negative decimal integer; `None` for anything else. */
  function ParseInt(s: string): Option<int> {
    if |s| >= 2 && s[0] == '-' && AllDigits(s[1..]) then Some(0 - DecimalValue(s[1..]) as int)
    else if |s| >= 1 && AllDigits(s) then Some(DecimalValue(s))
    else None
  }

  /** `code.toString()` for an integer: a minus sign for negatives, then the
      digits without leading zeros. Reading it back gives the integer. */
  function IntToDecimal(i: int): (r: string)
    ensures ParseInt(r) == Some(i)
    ensures |r| >= 1 && (IsDigit(r[0]) || r[0] == '-')
    ensures r[0] == '-' <==> i < 0
    ensures r[0] == '-' ==> |r| >= 2 && r[1] != '0'
    ensures r[0] == '0' ==> r == "0"
    ensures CanonicalDecimal(r)
  {
    if i < 0 then
      var d := NatToDecimal(-i);
      NatDecimalRoundTrip(-i);
      assert ("-" + d)[1..] == d;
      "-" + d
    else
      NatDecimalRoundTrip(i);
      NatToDecimal(i)
  }

  /** `toString()` is the only canonical string that reads back as `i`. */
  lemma IntToDecimalUnique(i: int, s: string)
    requires CanonicalDecimal(s) && ParseInt(s) == Some(i)
    ensures s == IntToDecimal(i)
  {
    if |s| >= 1 && s[0] == '-' {
      var t := s[1..];
      CanonicalDigitsRoundTrip(t);
      assert s == "-" + t;
      assert DecimalValue(t) != 0;
    } else {
      CanonicalDigitsRoundTrip(s);
    }
  }

  /** Distinct integers have distinct decimal strings. */
  lemma IntToDecimalInjective(a: int, b: int)
    requires IntToDecimal(a) == IntToDecimal(b)
    ensures a == b
  {
    assert Some(a) == ParseInt(IntToDecimal(a)) == ParseInt(IntToDecimal(b)) == Some(b);
  }
}
