/**
 * Error codes as index.js sees them and the status its POST path answers a
 * failure with (index.js:53-69).
 */
module ErrorStatus {
  import opened Common
  import opened Decimal

  /**
   * The code property of a rejection: a number (the handler's own {code: 404}
   * and {code: 422}), a PostgreSQL SQLSTATE string, or undefined (a
   * TypeError, a failed connection).
   */
  datatype ErrorCode = NumCode(n: int) | StrCode(s: string) | NoCode

  /** White space and line terminators that parseInt skips. */
  predicate IsJsSpace(c: char)
  {
    c == '\t' || c == '\n' || c == '\U{B}' || c == '\U{C}' || c == '\r' || c == ' '
    || c == '\U{A0}' || c == '\U{1680}' || ('\U{2000}' <= c <= '\U{200A}')
    || c == '\U{2028}' || c == '\U{2029}' || c == '\U{202F}' || c == '\U{205F}'
    || c == '\U{3000}' || c == '\U{FEFF}'
  }

  function SkipJsSpaces(s: string): (r: string)
    ensures |r| <= |s| && r == s[|s| - |r|..]
    ensures r == [] || !IsJsSpace(r[0])
    ensures forall k :: 0 <= k < |s| - |r| ==> IsJsSpace(s[k])
  {
    if s != [] && IsJsSpace(s[0]) then SkipJsSpaces(s[1..]) else s
  }

  /**
   * parseInt(s) with no radix, None standing for NaN: white space, an
   * optional sign, then the longest run of decimal digits, of which there
   * must be at least one.
   */
  function ParseIntText(s: string): (r: Option<int>)
    ensures r.None? <==> LeadingDigits(UnsignedPart(SkipJsSpaces(s))) == []
  {
    var t := SkipJsSpaces(s);
    var digits := LeadingDigits(UnsignedPart(t));
    var magnitude: int := if digits == [] then 0 else DigitsValue(digits);
    if digits == [] then None
    else if t != [] && t[0] == '-' then Some(-magnitude)
    else Some(magnitude)
  }

  /** A text that starts with a sign or a digit is parsed from its first character. */
  lemma ParseIntTextNoSpace(s: string)
    requires s != [] && (s[0] == '-' || s[0] == '+' || IsDigit(s[0]))
    ensures SkipJsSpaces(s) == s
  {
  }

  function UnsignedPart(t: string): string
  {
    if t != [] && (t[0] == '-' || t[0] == '+') then t[1..] else t
  }

  /**
   * parseInt(error.code): a number is read back from its decimal text
   * (ParseIntTextOfRendering), undefined is parsed as the text "undefined".
   */
  function ParseCode(e: ErrorCode): Option<int>
  {
    match e
    case NumCode(n) => Some(n)
    case StrCode(s) => ParseIntText(s)
    case NoCode => ParseIntText("undefined")
  }

  /** parseInt reads every integer back from its decimal rendering, as String(n) gives it. */
  lemma ParseIntTextOfRendering(n: int)
    ensures ParseIntText(IntToString(n)) == Some(n)
  {
    var s := IntToString(n);
    var m := if n < 0 then -n else n;
    ParseIntTextNoSpace(s);
    if n < 0 {
      assert UnsignedPart(s) == NatToString(m);
    }
    LeadingDigitsOfDigits(NatToString(m));
    NatToStringValue(m);
  }

  lemma ParseCodeOfUndefined()
    ensures ParseCode(NoCode) == None
  {
  }

  /** A SQLSTATE is read up to its first letter: deadlock_detected (40P01) is 40. */
  lemma ParseCodeOfDeadlock()
    ensures ParseCode(StrCode("40P01")) == Some(40)
  {
    var t := ['4', '0'] + "P01";
    assert t == "40P01";
    SqlstatePrefix('4', '0', "P01");
  }

  /** in_failed_sql_transaction (25P02) is 25. */
  lemma ParseCodeOfFailedTransaction()
    ensures ParseCode(StrCode("25P02")) == Some(25)
  {
    var t := ['2', '5'] + "P02";
    assert t == "25P02";
    SqlstatePrefix('2', '5', "P02");
  }

  lemma SqlstatePrefix(d1: char, d2: char, rest: string)
    requires IsDigit(d1) && IsDigit(d2) && rest != [] && !IsDigit(rest[0])
    ensures ParseIntText([d1, d2] + rest) == Some(DigitValue(d1) * 10 + DigitValue(d2))
  {
    var s := [d1, d2] + rest;
    ParseIntTextNoSpace(s);
    assert UnsignedPart(s) == s;
    assert s[1..] == [d2] + rest;
    assert s[1..][1..] == rest;
    assert LeadingDigits(s) == [d1, d2];
    assert [d1, d2][..1] == [d1];
    assert DigitsValue([d1]) == DigitValue(d1);
  }

  /**
   * The status a failure is effectively answered with: the parsed code when
   * it is a 4xx status, 500 otherwise.
   */
  function EffectiveStatus(e: ErrorCode): (status: int)
    ensures status == 500 || 400 <= status <= 499
  {
    var code := ParseCode(e);
    if code.Some? && 400 <= code.value <= 499 then code.value else 500
  }

  /**
   * The catch block's computation as written: parse, override 25P02 with
   * 504 and 40P01 with 503, then force everything outside 400..499 to 500.
   * The overrides never survive the range check.
   */
  method PostErrorStatus(e: ErrorCode) returns (status: int)
    ensures status == EffectiveStatus(e)
    ensures status != 503 && status != 504
  {
    var code := ParseCode(e);
    if e == StrCode("25P02") {
      ParseCodeOfFailedTransaction();
      code := Some(504);
    } else if e == StrCode("40P01") {
      ParseCodeOfDeadlock();
      code := Some(503);
    }
    if code.None? || code.value < 400 || code.value > 499 {
      code := Some(500);
    }
    status := code.value;
  }

  /** The handler's own rejections keep their status; a failure without code becomes 500. */
  lemma EffectiveStatusOfOwnCodes()
    ensures EffectiveStatus(NumCode(404)) == 404
    ensures EffectiveStatus(NumCode(422)) == 422
    ensures EffectiveStatus(NoCode) == 500
  {
    ParseCodeOfUndefined();
  }

  /** Deadlocks and aborted transactions end as 500, not as the 503 and 504 the code assigns. */
  lemma ContentionEndsAs500()
    ensures EffectiveStatus(StrCode("40P01")) == 500
    ensures EffectiveStatus(StrCode("25P02")) == 500
  {
    ParseCodeOfDeadlock();
    ParseCodeOfFailedTransaction();
  }
}
