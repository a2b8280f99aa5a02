/**
 * Decimal text of integers, as string interpolation writes an `int`
 * (Int32.ToString with a "-" negative sign), and its inverse.
 */
module Decimal {
  import opened Wrappers

  predicate IsDigit(c: char) {
    '0' <= c <= '9'
  }

  predicate AllDigits(s: string) {
    forall k :: 0 <= k < |s| ==> IsDigit(s[k])
  }

  function DigitValue(c: char): (d: nat)
    requires IsDigit(c)
    ensures d < 10
  {
    c as int - '0' as int
  }

  function DigitChar(d: nat): (c: char)
    requires d < 10
    ensures IsDigit(c) && DigitValue(c) == d
  {
    ('0' as int + d) as char
  }

  /** The digits of `n`, most significant first, with no leading zero. */
  function FormatNat(n: nat): (r: string)
    ensures r != [] && AllDigits(r)
    ensures r[0] == '0' ==> n == 0 && r == "0"
  {
    if n < 10 then [DigitChar(n)] else FormatNat(n / 10) + [DigitChar(n % 10)]
  }

  /** The value of a string of decimal digits. */
  function ParseNat(s: string): nat
    requires AllDigits(s)
  {
    if s == [] then 0 else ParseNat(s[..|s| - 1]) * 10 + DigitValue(s[|s| - 1])
  }

  lemma {:induction false} ParseFormatNat(n: nat)
    ensures ParseNat(FormatNat(n)) == n
  {
    if n >= 10 {
      var r := FormatNat(n);
      assert r[..|r| - 1] == FormatNat(n / 10);
      ParseFormatNat(n / 10);
    }
  }

  /** The text of an `int`: a "-" for a negative value, then its magnitude's digits. */
  function FormatInt(n: int): (r: string)
    ensures r != [] && (r[0] == '-' <==> n < 0)
    ensures forall i :: 0 < i < |r| ==> IsDigit(r[i])
  {
    if n < 0 then "-" + FormatNat(-n) else FormatNat(n)
  }

  /** Reads back an optional "-" followed by at least one digit. */
  function ParseInt(s: string): (r: Option<int>)
  {
    if s != [] && s[0] == '-' then
      (if |s| > 1 && AllDigits(s[1..]) then var m: int := ParseNat(s[1..]); Some(-m) else None)
    else if s != [] && AllDigits(s) then Some(ParseNat(s))
    else None
  }

  /** Every `int` is read back from its text. */
  lemma ParseFormatInt(n: int)
    ensures ParseInt(FormatInt(n)) == Some(n)
  {
    if n < 0 {
      var digits := FormatNat(-n);
      var s := "-" + digits;
      assert s[0] == '-' && s[1..] == digits;
      ParseFormatNat(-n);
    } else {
      ParseFormatNat(n);
    }
  }

  /** A character that can be part of the text of an `int`. */
  predicate IsIntChar(c: char) {
    c == '-' || IsDigit(c)
  }

  /** The length of the longest prefix of `s` made of `int` characters. */
  function IntTokenLength(s: string): (k: nat)
    ensures k <= |s|
    ensures forall i :: 0 <= i < k ==> IsIntChar(s[i])
    ensures k < |s| ==> !IsIntChar(s[k])
  {
    if s != [] && IsIntChar(s[0]) then 1 + IntTokenLength(s[1..]) else 0
  }

  /** The text of an `int` followed by a non-numeric character is a complete token. */
  lemma {:induction false} IntTokenOfFormatted(t: string, rest: string)
    requires forall i :: 0 <= i < |t| ==> IsIntChar(t[i])
    requires rest != [] && !IsIntChar(rest[0])
    ensures IntTokenLength(t + rest) == |t|
  {
    if t != [] {
      assert (t + rest)[1..] == t[1..] + rest;
      IntTokenOfFormatted(t[1..], rest);
    } else {
      assert t + rest == rest;
    }
  }

  lemma FormatIntChars(n: int)
    ensures forall i :: 0 <= i < |FormatInt(n)| ==> IsIntChar(FormatInt(n)[i])
  {
  }
}
