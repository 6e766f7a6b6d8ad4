/**
 Decimal text of a Java `long`, as produced by string concatenation
 (`"prefix" + id`), together with its parser. The round trip shows that the
 text determines the number, so lock keys built from different owner ids
 never coincide.
 */
module LongText {

  predicate IsDigit(c: char) {
    '0' <= c <= '9'
  }

  predicate AllDigits(s: string) {
    forall i :: 0 <= i < |s| ==> IsDigit(s[i])
  }

  function DigitChar(d: nat): (c: char)
    requires d < 10
    ensures IsDigit(c)
    ensures c as int - '0' as int == d
  {
    ('0' as int + d) as char
  }

  /** Decimal digits of a non-negative number, most significant first, no leading zeros. */
  function NatToString(n: nat): (s: string)
    ensures |s| > 0 && AllDigits(s)
    ensures |s| > 1 ==> s[0] != '0'
    decreases n
  {
    if n < 10 then [DigitChar(n)] else NatToString(n / 10) + [DigitChar(n % 10)]
  }

  /** Text of the shape `Long.toString` produces: digits, optionally after one minus sign. */
  predicate IsLongText(s: string) {
    && |s| > 0
    && (s[0] == '-' ==> AllDigits(s[1..]))
    && (s[0] != '-' ==> AllDigits(s))
  }

  /** `Long.toString`: a minus sign in front of the magnitude for negative numbers. */
  function LongToString(n: int): (s: string)
    ensures IsLongText(s)
    ensures s[0] == '-' <==> n < 0
  {
    if n < 0 then
      var s := "-" + NatToString(-n);
      assert s[1..] == NatToString(-n);
      s
    else NatToString(n)
  }

  function ParseNat(s: string): nat
    requires AllDigits(s)
    decreases |s|
  {
    if s == [] then 0
    else ParseNat(s[..|s| - 1]) * 10 + (s[|s| - 1] as int - '0' as int)
  }

  function ParseLong(s: string): int
    requires IsLongText(s)
  {
    if s[0] == '-' then -(ParseNat(s[1..]) as int) else ParseNat(s)
  }

  lemma {:induction false} ParseNatToString(n: nat)
    ensures ParseNat(NatToString(n)) == n
    decreases n
  {
    var s := NatToString(n);
    if n >= 10 {
      ParseNatToString(n / 10);
      assert s[..|s| - 1] == NatToString(n / 10);
    }
  }

  /** Parsing the text of a `long` gives the number back. */
  lemma ParseLongToString(n: int)
    ensures ParseLong(LongToString(n)) == n
  {
    var s := LongToString(n);
    if n < 0 {
      assert s[1..] == NatToString(-n);
      ParseNatToString(-n);
    } else {
      ParseNatToString(n);
    }
  }

  /** Different numbers have different texts. */
  lemma LongToStringInjective(a: int, b: int)
    requires LongToString(a) == LongToString(b)
    ensures a == b
  {
    ParseLongToString(a);
    ParseLongToString(b);
  }
}
