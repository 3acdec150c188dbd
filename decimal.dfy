/**
 * Decimal digits and the text conversions both revisions rely on: the
 * decimal rendering of an integer, the longest run of leading digits that
 * PHP's (int) cast and JavaScript's parseInt read, and the removal of every
 * character outside a-z, A-Z and 0-9 that the PHP validator performs.
 */
module Decimal {
  predicate IsDigit(c: char)
  {
    '0' <= c <= '9'
  }

  predicate IsAlnum(c: char)
  {
    'a' <= c <= 'z' || 'A' <= c <= 'Z' || IsDigit(c)
  }

  predicate AllDigits(s: string)
  {
    forall i :: 0 <= i < |s| ==> IsDigit(s[i])
  }

  function DigitValue(c: char): (d: nat)
    requires IsDigit(c)
    ensures d < 10
  {
    c as int - '0' as int
  }

  function DigitChar(d: nat): (c: char)
    requires d < 10
    ensures IsDigit(c) && DigitValue(c) == d
  {
    ('0' as int + d) as char
  }

  /** The number a string of decimal digits denotes, most significant first. */
  function DigitsValue(s: string): nat
    requires AllDigits(s)
  {
    if s == [] then 0 else DigitsValue(s[..|s| - 1]) * 10 + DigitValue(s[|s| - 1])
  }

  /** The decimal rendering of a natural number, without leading zeros. */
  function NatToString(n: nat): (s: string)
    ensures s != [] && AllDigits(s)
  {
    if n < 10 then [DigitChar(n)] else NatToString(n / 10) + [DigitChar(n % 10)]
  }

  lemma {:induction false} NatToStringValue(n: nat)
    ensures DigitsValue(NatToString(n)) == n
  {
    if n >= 10 {
      var s := NatToString(n);
      assert s[..|s| - 1] == NatToString(n / 10);
      NatToStringValue(n / 10);
    }
  }

  /** The decimal rendering of an integer: a minus sign, then the digits of its magnitude. */
  function IntToString(i: int): (s: string)
    ensures s != [] && (s[0] == '-' || IsDigit(s[0])) && IsDigit(s[|s| - 1])
    ensures forall k :: 0 <= k < |s| ==> s[k] == '-' || IsDigit(s[k])
  {
    if i < 0 then "-" + NatToString(-i) else NatToString(i)
  }

  /** The longest prefix of s made of decimal digits. */
  function LeadingDigits(s: string): (p: string)
    ensures AllDigits(p) && p <= s
    ensures |p| < |s| ==> !IsDigit(s[|p|])
  {
    if s == [] || !IsDigit(s[0]) then [] else [s[0]] + LeadingDigits(s[1..])
  }

  lemma LeadingDigitsOfDigits(s: string)
    requires AllDigits(s)
    ensures LeadingDigits(s) == s
  {
  }

  /** What preg_replace('/[^a-zA-Z0-9]/', '', s) leaves of s. */
  function StripNonAlnum(s: string): (r: string)
    ensures |r| <= |s|
    ensures forall i :: 0 <= i < |r| ==> IsAlnum(r[i])
  {
    if s == [] then [] else (if IsAlnum(s[0]) then [s[0]] else []) + StripNonAlnum(s[1..])
  }

  /** Stripping works character by character, so it distributes over concatenation. */
  lemma {:induction false} StripNonAlnumAppend(a: string, b: string)
    ensures StripNonAlnum(a + b) == StripNonAlnum(a) + StripNonAlnum(b)
  {
    if a == [] {
      assert a + b == b;
    } else {
      assert (a + b)[0] == a[0];
      assert (a + b)[1..] == a[1..] + b;
      StripNonAlnumAppend(a[1..], b);
    }
  }

  /** A text made only of letters and digits is left as it is. */
  lemma {:induction false} StripNonAlnumKeepsAlnum(s: string)
    requires forall i :: 0 <= i < |s| ==> IsAlnum(s[i])
    ensures StripNonAlnum(s) == s
  {
    if s != [] {
      StripNonAlnumKeepsAlnum(s[1..]);
    }
  }

  /** A text without letters or digits is stripped to nothing. */
  lemma {:induction false} StripNonAlnumDropsOthers(s: string)
    requires forall i :: 0 <= i < |s| ==> !IsAlnum(s[i])
    ensures StripNonAlnum(s) == []
  {
    if s != [] {
      StripNonAlnumDropsOthers(s[1..]);
    }
  }

  /** Of an integer's rendering only its digits survive: the sign is stripped. */
  lemma IntToStringAlnum(i: int)
    ensures StripNonAlnum(IntToString(i)) == NatToString(if i < 0 then -i else i)
  {
    var d := NatToString(if i < 0 then -i else i);
    StripNonAlnumKeepsAlnum(d);
    if i < 0 {
      StripNonAlnumAppend("-", d);
    }
  }
}
