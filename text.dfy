/**
 * How numbers become text when a product is displayed: Java's decimal
 * rendering of an int (string concatenation) and the two-decimal rendering
 * of a price. Prices are kept as a whole number of cents.
 */
module Text {

  predicate IsDigit(c: char) {
    '0' <= c <= '9'
  }

  predicate AllDigits(s: string) {
    forall i :: 0 <= i < |s| ==> IsDigit(s[i])
  }

  function Digit(d: nat): (c: char)
    requires d < 10
    ensures IsDigit(c) && DigitValue(c) == d
  {
    ('0' as int + d) as char
  }

  function DigitValue(c: char): nat
    requires IsDigit(c)
  {
    c as int - '0' as int
  }

  /** The number a string of decimal digits denotes, most significant first. */
  function DigitsValue(s: string): nat
    requires AllDigits(s)
  {
    if s == [] then 0 else DigitsValue(s[..|s| - 1]) * 10 + DigitValue(s[|s| - 1])
  }

  /** The decimal digits of n without leading zeros, as Integer.toString writes them. */
  function NatToString(n: nat): (s: string)
    ensures |s| >= 1 && AllDigits(s)
    ensures |s| > 1 ==> s[0] != '0'
  {
    if n < 10 then [Digit(n)] else NatToString(n / 10) + [Digit(n % 10)]
  }

  /** The rendering reads back as the number it renders. */
  lemma {:induction false} NatToStringRoundTrip(n: nat)
    ensures DigitsValue(NatToString(n)) == n
  {
    if n >= 10 {
      var s := NatToString(n / 10);
      NatToStringRoundTrip(n / 10);
      assert (s + [Digit(n % 10)])[..|s|] == s;
    }
  }

  /** An int as Java writes it: a minus sign before a negative number, then its decimal digits. */
  function IntToString(i: int): (s: string)
    ensures |s| >= 1
    ensures i < 0 <==> s[0] == '-'
    ensures var d := if i < 0 then s[1..] else s;
      && |d| >= 1 && AllDigits(d) && DigitsValue(d) == (if i < 0 then -i else i)
      && (|d| > 1 ==> d[0] != '0')
  {
    var t := NatToString(if i < 0 then -i else i);
    NatToStringRoundTrip(if i < 0 then -i else i);
    assert ("-" + t)[1..] == t;
    if i < 0 then "-" + t else t
  }

  /** A non-negative number of cents as dollars, a point and exactly two cent digits ("%.2f"). */
  function CentsToString(c: nat): (s: string)
    ensures |s| >= 4 && s[|s| - 3] == '.'
    ensures AllDigits(s[..|s| - 3]) && AllDigits(s[|s| - 2..])
    ensures 100 * DigitsValue(s[..|s| - 3]) + DigitsValue(s[|s| - 2..]) == c
    ensures |s| > 4 ==> s[0] != '0'
  {
    var whole, cents := NatToString(c / 100), c % 100;
    var t := [Digit(cents / 10), Digit(cents % 10)];
    var s := whole + "." + t;
    assert s[..|s| - 3] == whole && s[|s| - 2..] == t;
    NatToStringRoundTrip(c / 100);
    assert DigitsValue(t) == cents by {
      assert t[..1] == [t[0]] && [t[0]][..0] == [];
      assert DigitsValue(t[..1]) == cents / 10;
      assert DigitsValue(t) == DigitsValue(t[..1]) * 10 + DigitValue(t[1]);
    }
    s
  }

  /** A price rendered as "%.2f" does: a minus sign before a negative amount. */
  function PriceToString(c: int): (s: string)
    ensures |s| >= 4
    ensures c < 0 <==> s[0] == '-'
    ensures var d := if c < 0 then s[1..] else s;
      && |d| >= 4 && d[|d| - 3] == '.'
      && AllDigits(d[..|d| - 3]) && AllDigits(d[|d| - 2..])
      && 100 * DigitsValue(d[..|d| - 3]) + DigitsValue(d[|d| - 2..]) == (if c < 0 then -c else c)
      && (|d| > 4 ==> d[0] != '0')
  {
    var t := CentsToString(if c < 0 then -c else c);
    assert ("-" + t)[1..] == t;
    if c < 0 then "-" + t else t
  }
}
