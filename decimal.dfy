/**
 * Decimal integers as text: how a template literal renders an integer octave
 * (`${oct}`) and how `parseInt` reads back a token of the form -?[0-9]+.
 */
module Decimal {

  /** `\d` in a JavaScript regular expression without the `u` flag. */
  predicate IsDigit(c: char) {
    '0' <= c <= '9'
  }

  predicate AllDigits(s: string) {
    forall i :: 0 <= i < |s| ==> IsDigit(s[i])
  }

  predicate HasDigit(s: string) {
    exists i :: 0 <= i < |s| && IsDigit(s[i])
  }

  /** A whole match of /[-]?[\d]+/: an optional minus sign, then one or more
      digits. */
  predicate IsIntegerToken(t: string) {
    if |t| > 0 && t[0] == '-' then |t| >= 2 && AllDigits(t[1..]) else |t| >= 1 && AllDigits(t)
  }

  function DigitValue(c: char): (d: nat)
    requires IsDigit(c)
    ensures d < 10
  {
    c as int - '0' as int
  }

  function DigitChar(d: nat): (c: char)
    requires d < 10
    ensures IsDigit(c) && DigitValue(c) == d
  {
    ('0' as int + d) as char
  }

  /** The value of a run of digits, most significant first. */
  function DigitsValue(s: string): nat
    requires AllDigits(s)
    decreases |s|
  {
    if s == [] then 0 else 10 * DigitsValue(s[..|s| - 1]) + DigitValue(s[|s| - 1])
  }

  /** The shortest decimal rendering of n: digits only, no leading zero, and
      reading it back gives n. */
  function NatToString(n: nat): (s: string)
    ensures |s| >= 1 && AllDigits(s)
    ensures s[0] == '0' ==> n == 0
    ensures DigitsValue(s) == n
    decreases n
  {
    if n < 10 then [DigitChar(n)]
    else
      var prefix := NatToString(n / 10);
      var s := prefix + [DigitChar(n % 10)];
      assert s[..|s| - 1] == prefix;
      s
  }

  /** `parseInt` applied to a whole integer token: the sign, then the decimal
      value of the digits (leading zeros allowed). */
  function ParseInt(t: string): (v: int)
    requires IsIntegerToken(t)
    ensures t[0] != '-' ==> v >= 0
    ensures v < 0 ==> t[0] == '-'
  {
    if t[0] == '-' then 0 - DigitsValue(t[1..]) else DigitsValue(t)
  }

  /** The template literal `${i}` for an integer i: a minus sign exactly for
      negative numbers, no leading zero, and `parseInt` gives i back. */
  function IntToString(i: int): (s: string)
    ensures IsIntegerToken(s)
    ensures s[0] == '-' <==> i < 0
    ensures s[0] == '0' ==> s == "0"
    ensures s[0] == '-' ==> s[1] != '0'
    ensures ParseInt(s) == i
  {
    if i < 0 then
      var digits := NatToString(-i);
      var s := "-" + digits;
      assert s[1..] == digits;
      s
    else
      NatToString(i)
  }

  /** `parseInt` skips leading zeros: "007" and "7" read the same. */
  lemma {:induction false} LeadingZeroIgnored(t: string)
    requires AllDigits(t)
    ensures AllDigits("0" + t) && DigitsValue("0" + t) == DigitsValue(t)
  {
    var z := "0" + t;
    if t != [] {
      var init := t[..|t| - 1];
      assert z[..|z| - 1] == "0" + init;
      LeadingZeroIgnored(init);
    }
  }
}
