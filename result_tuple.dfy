/**
 * The PHP revision's reading of the text that the creditar/debitar stored
 * procedures return: a composite value rendered as "(saldo,limite)", trimmed
 * of parentheses, split on commas and cast field by field with (int)
 * (index.php:73-77).
 */
module ResultTuple {
  import opened Decimal

  predicate IsParen(c: char)
  {
    c == '(' || c == ')'
  }

  function TrimLeft(s: string): (r: string)
    ensures |r| <= |s| && r == s[|s| - |r|..]
    ensures r == [] || !IsParen(r[0])
    ensures forall k :: 0 <= k < |s| - |r| ==> IsParen(s[k])
  {
    if s != [] && IsParen(s[0]) then TrimLeft(s[1..]) else s
  }

  function TrimRight(s: string): (r: string)
    ensures r <= s
    ensures r == [] || !IsParen(r[|r| - 1])
    ensures forall k :: |r| <= k < |s| ==> IsParen(s[k])
  {
    if s != [] && IsParen(s[|s| - 1]) then TrimRight(s[..|s| - 1]) else s
  }

  /** Outside s[i..j] there are only parentheses. */
  predicate ParensOutside(s: string, i: int, j: int)
    requires 0 <= i <= j <= |s|
  {
    (forall k :: 0 <= k < i ==> IsParen(s[k])) && (forall k :: j <= k < |s| ==> IsParen(s[k]))
  }

  /**
   * trim($s, '()'): every '(' and ')' removed from both ends, and nothing
   * else: the result is a slice of s with only parentheses around it.
   */
  function TrimParens(s: string): (r: string)
    ensures r == [] || (!IsParen(r[0]) && !IsParen(r[|r| - 1]))
    ensures exists i, j :: 0 <= i <= j <= |s| && r == s[i..j] && ParensOutside(s, i, j)
  {
    var l := TrimLeft(s);
    var r := TrimRight(l);
    var i := |s| - |l|;
    assert r == s[i..i + |r|];
    assert ParensOutside(s, i, i + |r|);
    r
  }

  lemma TrimParensOfWrapped(m: string)
    requires m != [] && !IsParen(m[0]) && !IsParen(m[|m| - 1])
    ensures TrimParens("(" + m + ")") == m
  {
    var s := "(" + m + ")";
    assert s[1..] == m + ")";
    assert TrimLeft(s) == m + ")";
    assert (m + ")")[..|m|] == m;
    assert TrimRight(m + ")") == TrimRight(m);
  }

  predicate CommaFree(s: string)
  {
    forall i :: 0 <= i < |s| ==> s[i] != ','
  }

  /** implode(',', parts) */
  function Implode(parts: seq<string>): string
    requires |parts| >= 1
  {
    if |parts| == 1 then parts[0] else parts[0] + "," + Implode(parts[1..])
  }

  /** explode(',', s): the pieces of s between its commas, in order. */
  function Explode(s: string): (parts: seq<string>)
    ensures |parts| >= 1
    ensures forall k :: 0 <= k < |parts| ==> CommaFree(parts[k])
    ensures Implode(parts) == s
  {
    if s == [] then [""]
    else
      var rest := Explode(s[1..]);
      if s[0] == ',' then
        assert Implode([""] + rest) == "" + "," + Implode(rest);
        assert s == "," + s[1..];
        [""] + rest
      else
        var parts := [[s[0]] + rest[0]] + rest[1..];
        assert parts[1..] == rest[1..];
        assert s == [s[0]] + s[1..];
        parts
  }

  lemma {:induction false} ExplodeCommaFree(s: string)
    requires CommaFree(s)
    ensures Explode(s) == [s]
  {
    if s != [] {
      ExplodeCommaFree(s[1..]);
      assert [s[0]] + s[1..] == s;
    }
  }

  lemma {:induction false} ExplodeJoin(a: string, r: string)
    requires CommaFree(a)
    ensures Explode(a + "," + r) == [a] + Explode(r)
  {
    var s := a + "," + r;
    if a == [] {
      assert s[0] == ',' && s[1..] == r;
    } else {
      assert s[0] == a[0];
      assert s[1..] == a[1..] + "," + r;
      ExplodeJoin(a[1..], r);
      assert [a[0]] + a[1..] == a;
    }
  }

  /** Splitting the comma-joined text of comma-free pieces gives the pieces back. */
  lemma {:induction false} ExplodeImplode(parts: seq<string>)
    requires |parts| >= 1
    requires forall k :: 0 <= k < |parts| ==> CommaFree(parts[k])
    ensures Explode(Implode(parts)) == parts
  {
    if |parts| == 1 {
      ExplodeCommaFree(parts[0]);
    } else {
      ExplodeImplode(parts[1..]);
      ExplodeJoin(parts[0], Implode(parts[1..]));
      assert [parts[0]] + parts[1..] == parts;
    }
  }

  predicate IsPhpSpace(c: char)
  {
    c == ' ' || c == '\t' || c == '\n' || c == '\r' || c == '\U{B}' || c == '\U{C}'
  }

  function SkipSpaces(s: string): (r: string)
    ensures |r| <= |s| && r == s[|s| - |r|..]
    ensures r == [] || !IsPhpSpace(r[0])
    ensures forall k :: 0 <= k < |s| - |r| ==> IsPhpSpace(s[k])
  {
    if s != [] && IsPhpSpace(s[0]) then SkipSpaces(s[1..]) else s
  }

  /**
   * PHP's (int) cast of a string: leading white space is skipped, an
   * optional sign is read, then the longest run of digits; a text without
   * leading digits is 0.
   */
  function PhpIntCast(s: string): int
  {
    var t := SkipSpaces(s);
    if t != [] && (t[0] == '-' || t[0] == '+') then
      var m: int := DigitsValue(LeadingDigits(t[1..]));
      if t[0] == '-' then -m else m
    else
      DigitsValue(LeadingDigits(t))
  }

  /** (int) reads back every integer from its decimal rendering. */
  lemma PhpIntCastOfRendering(i: int)
    ensures PhpIntCast(IntToString(i)) == i
  {
    var s := IntToString(i);
    var n := if i < 0 then -i else i;
    assert SkipSpaces(s) == s;
    if i < 0 {
      assert s[1..] == NatToString(n);
    }
    LeadingDigitsOfDigits(NatToString(n));
    NatToStringValue(n);
  }

  /** The two fields the handler reads from the procedure's reply. */
  datatype Reply = Reply(limite: int, saldo: int)

  /**
   * The handler's reading of the reply text: field 0 is the balance, field 1
   * the limit; a missing field 1 is an undefined array key, which (int)
   * turns into 0.
   */
  function ParseResult(text: string): Reply
  {
    var parts := Explode(TrimParens(text));
    Reply(if |parts| > 1 then PhpIntCast(parts[1]) else 0, PhpIntCast(parts[0]))
  }

  /** How PostgreSQL renders the (saldo, limite) composite the procedures return. */
  function RenderResult(saldo: int, limite: int): string
  {
    "(" + IntToString(saldo) + "," + IntToString(limite) + ")"
  }

  lemma IntToStringCommaFree(i: int)
    ensures CommaFree(IntToString(i))
  {
  }

  lemma TrimRendered(saldo: int, limite: int)
    ensures TrimParens(RenderResult(saldo, limite)) == IntToString(saldo) + "," + IntToString(limite)
  {
    var a, b := IntToString(saldo), IntToString(limite);
    var m := a + "," + b;
    assert "(" + m + ")" == RenderResult(saldo, limite);
    assert m[0] == a[0] && m[|m| - 1] == b[|b| - 1];
    TrimParensOfWrapped(m);
  }

  lemma SplitRendered(saldo: int, limite: int)
    ensures Explode(TrimParens(RenderResult(saldo, limite))) == [IntToString(saldo), IntToString(limite)]
  {
    var a, b := IntToString(saldo), IntToString(limite);
    var m := a + "," + b;
    TrimRendered(saldo, limite);
    IntToStringCommaFree(saldo);
    IntToStringCommaFree(limite);
    assert Implode([a, b]) == m;
    ExplodeImplode([a, b]);
  }

  /** Parsing the rendered tuple gives back the balance as field 0 and the limit as field 1. */
  lemma ParseRenderRoundTrip(saldo: int, limite: int)
    ensures ParseResult(RenderResult(saldo, limite)) == Reply(limite, saldo)
  {
    SplitRendered(saldo, limite);
    PhpIntCastOfRendering(saldo);
    PhpIntCastOfRendering(limite);
  }

  /** A reply carrying only the balance leaves the limit at 0. */
  lemma ParseSingleField(saldo: int)
    ensures ParseResult("(" + IntToString(saldo) + ")") == Reply(0, saldo)
  {
    var a := IntToString(saldo);
    TrimParensOfWrapped(a);
    IntToStringCommaFree(saldo);
    ExplodeCommaFree(a);
    PhpIntCastOfRendering(saldo);
  }
}
