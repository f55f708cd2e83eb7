/** Decimal text for the `crashCount` cookie: `int.ToString()` writes it and
    `int.TryParse` reads it back. */
module Decimal {
  import opened Wrappers
  import opened Int32Arith

  predicate IsDigit(c: char) {
    '0' <= c <= '9'
  }

  predicate AllDigits(s: string) {
    forall i :: 0 <= i < |s| ==> IsDigit(s[i])
  }

  function DigitChar(d: nat): (c: char)
    requires d < 10
    ensures IsDigit(c) && c as int - '0' as int == d
  {
    ('0' as int + d) as char
  }

  function DigitValue(c: char): nat
    requires IsDigit(c)
  {
    c as int - '0' as int
  }

  /** The number a string of decimal digits denotes, most significant digit
      first; leading zeros are allowed and the empty string denotes 0. */
  function ValueOf(s: string): nat
    requires AllDigits(s)
  {
    if s == [] then 0 else ValueOf(s[..|s| - 1]) * 10 + DigitValue(s[|s| - 1])
  }

  /** The decimal digits of n, without leading zeros. */
  function Digits(n: nat): (s: string)
    ensures |s| > 0 && AllDigits(s)
    ensures s[0] == '0' <==> n == 0
    ensures n == 0 ==> s == "0"
  {
    if n < 10 then [DigitChar(n)] else Digits(n / 10) + [DigitChar(n % 10)]
  }

  /** `int.ToString()`: a minus sign for negative values, then the digits of
      the magnitude (int.MinValue included: its magnitude is computed exactly). */
  function FormatInt32(n: Int32): (s: string)
    ensures |s| > 0
    ensures s[0] == '-' <==> n < 0
    ensures AllDigits(s[1..]) && (n >= 0 ==> AllDigits(s))
  {
    if n < 0 then "-" + Digits(-(n as int)) else Digits(n)
  }

  /** `int.TryParse(s, out v)` with the integer number style: an optional
      leading '+' or '-', then one or more decimal digits, and the value must
      lie in the Int32 range; anything else (empty text, other characters,
      overflow) fails. */
  function TryParseInt32(s: string): (r: Option<Int32>)
    ensures r.Some? ==> |s| > 0 && forall i :: 0 < i < |s| ==> IsDigit(s[i])
    ensures r.Some? ==> IsDigit(s[0]) || (|s| > 1 && (s[0] == '-' || s[0] == '+'))
    ensures r.Some? && r.value < 0 ==> s[0] == '-'
  {
    var signed := |s| > 0 && (s[0] == '-' || s[0] == '+');
    var digits := if signed then s[1..] else s;
    if digits == [] || !AllDigits(digits) then None
    else
      var v: int := if signed && s[0] == '-' then -(ValueOf(digits) as int) else ValueOf(digits);
      if MinValue <= v <= MaxValue then Some(v) else None
  }

  lemma {:induction false} DigitsValue(n: nat)
    ensures ValueOf(Digits(n)) == n
  {
    var s := Digits(n);
    if n >= 10 {
      DigitsValue(n / 10);
      assert s[..|s| - 1] == Digits(n / 10);
    }
  }

  /** What `ToString` writes, `TryParse` reads back as the same number. */
  lemma ParseFormatRoundTrip(n: Int32)
    ensures TryParseInt32(FormatInt32(n)) == Some(n)
  {
    var s := FormatInt32(n);
    if n < 0 {
      DigitsValue(-(n as int));
      assert s[1..] == Digits(-(n as int));
    } else {
      DigitsValue(n);
    }
  }

  /** Formatting loses nothing: distinct counters give distinct cookie texts. */
  lemma FormatInjective(m: Int32, n: Int32)
    requires FormatInt32(m) == FormatInt32(n)
    ensures m == n
  {
    ParseFormatRoundTrip(m);
    ParseFormatRoundTrip(n);
  }

  /** A numeral beyond the Int32 range is rejected, not truncated or clamped. */
  lemma ParseRejectsOverflow(sign: string, digits: string)
    requires sign == "" || sign == "+" || sign == "-"
    requires digits != [] && AllDigits(digits)
    requires ValueOf(digits) > (if sign == "-" then -MinValue else MaxValue)
    ensures TryParseInt32(sign + digits) == None
  {
    var s := sign + digits;
    if sign == "" {
      assert s == digits;
    } else {
      assert s[0] == sign[0] && s[1..] == digits;
    }
  }

  /** An in-range numeral is accepted with its signed value; leading zeros
      and a '+' sign are allowed, and "-0" reads as 0. */
  lemma ParseNumeral(sign: string, digits: string)
    requires sign == "" || sign == "+" || sign == "-"
    requires digits != [] && AllDigits(digits)
    requires ValueOf(digits) <= (if sign == "-" then -MinValue else MaxValue)
    ensures TryParseInt32(sign + digits) == Some(if sign == "-" then -(ValueOf(digits) as int) else ValueOf(digits))
  {
    var s := sign + digits;
    if sign == "" {
      assert s == digits;
    } else {
      assert s[0] == sign[0] && s[1..] == digits;
    }
  }

  /** Text that is not an optional sign followed by digits is rejected. */
  lemma ParseRejectsNonNumeral(s: string, i: nat)
    requires i < |s| && !IsDigit(s[i])
    requires i == 0 ==> s[0] != '-' && s[0] != '+'
    ensures TryParseInt32(s) == None
  {
  }
}
