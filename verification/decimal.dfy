/**
 * Decimal rendering of integers as Go's `%v` verb prints an `int`, with the
 * reading-back function that shows the rendering identifies the number.
 */
module Decimal {
  import opened Wrappers

  function DigitChar(d: nat): (c: char)
    requires d < 10
    ensures '0' <= c <= '9'
  {
    "0123456789"[d]
  }

  function DigitValue(c: char): (r: Option<nat>)
    ensures r.Some? <==> '0' <= c <= '9'
    ensures r.Some? ==> r.value < 10
  {
    if '0' <= c <= '9' then Some(c as int - '0' as int) else None
  }

  /** The shortest decimal rendering of a natural number. */
  function NatString(n: nat): (s: string)
    ensures |s| >= 1
    ensures forall i :: 0 <= i < |s| ==> '0' <= s[i] <= '9'
    decreases n
  {
    if n < 10 then [DigitChar(n)] else NatString(n / 10) + [DigitChar(n % 10)]
  }

  /** Go's `%v` rendering of an int: a minus sign before the magnitude when negative. */
  function IntString(n: int): (s: string)
  {
    if n < 0 then "-" + NatString(-n) else NatString(n)
  }

  /** Reads a non-empty run of decimal digits. */
  function ParseNat(s: string): Option<nat>
    decreases |s|
  {
    if |s| == 0 then None
    else if |s| == 1 then DigitValue(s[0])
    else
      match ParseNat(s[..|s| - 1])
      case None => None
      case Some(high) =>
        match DigitValue(s[|s| - 1])
        case None => None
        case Some(low) => Some(high * 10 + low)
  }

  /** Reads an optionally negative decimal integer. */
  function ParseInt(s: string): Option<int>
  {
    if |s| > 0 && s[0] == '-' then
      match ParseNat(s[1..])
      case None => None
      case Some(m) => Some(0 - m as int)
    else
      match ParseNat(s)
      case None => None
      case Some(m) => Some(m)
  }

  lemma DigitRoundTrip(d: nat)
    requires d < 10
    ensures DigitValue(DigitChar(d)) == Some(d)
  {
  }

  /** Appending a digit to a numeral multiplies its value by ten and adds the digit. */
  lemma ParseNatAppend(s: string, high: nat, d: nat)
    requires |s| >= 1 && ParseNat(s) == Some(high) && d < 10
    ensures ParseNat(s + [DigitChar(d)]) == Some(high * 10 + d)
  {
    var t := s + [DigitChar(d)];
    assert t[..|t| - 1] == s;
    assert t[|t| - 1] == DigitChar(d);
    DigitRoundTrip(d);
  }

  lemma {:induction false} ParseNatString(n: nat)
    ensures ParseNat(NatString(n)) == Some(n)
    decreases n
  {
    if n < 10 {
      DigitRoundTrip(n);
    } else {
      ParseNatString(n / 10);
      ParseNatAppend(NatString(n / 10), n / 10, n % 10);
    }
  }

  lemma ParseNegative(n: int)
    requires n < 0
    ensures ParseInt(IntString(n)) == Some(n)
  {
    var m: nat := -n;
    var s := IntString(n);
    assert s == "-" + NatString(m);
    assert s[0] == '-';
    assert s[1..] == NatString(m);
    ParseNatString(m);
  }

  lemma ParseNonNegative(n: int)
    requires n >= 0
    ensures ParseInt(IntString(n)) == Some(n)
  {
    var s := IntString(n);
    assert s == NatString(n);
    assert '0' <= s[0] <= '9';
    ParseNatString(n);
  }

  /** Every integer's rendering reads back as that integer. */
  lemma ParseIntString(n: int)
    ensures ParseInt(IntString(n)) == Some(n)
  {
    if n < 0 {
      ParseNegative(n);
    } else {
      ParseNonNegative(n);
    }
  }

  /** Different integers render differently. */
  lemma IntStringInjective(m: int, n: int)
    requires IntString(m) == IntString(n)
    ensures m == n
  {
    ParseIntString(m);
    ParseIntString(n);
  }
}
