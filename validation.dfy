/**
 * validarTransacao, the PHP revision's check of a POST body
 * (index.php:144-159), over the values json_decode($body, true) yields.
 */
module Validation {
  import opened Decimal

  /**
   * A field value of the decoded body. A float carries the text PHP renders
   * it as, which is all the validator ever looks at.
   */
  datatype Json = JNull | JBool(b: bool) | JInt(i: int) | JFloat(text: string) | JString(s: string)

  /** The decoded body; a body that is not a JSON object behaves as the empty map. */
  type Body = map<string, Json>

  /** isset($body[key]): the key is present and its value is not null. */
  predicate IsSet(body: Body, key: string)
  {
    key in body && body[key] != JNull
  }

  /** PHP's conversion of a scalar to string. */
  function PhpString(v: Json): string
  {
    match v
    case JNull => ""
    case JBool(b) => if b then "1" else ""
    case JInt(i) => IntToString(i)
    case JFloat(text) => text
    case JString(s) => s
  }

  /**
   * $v == $letter under PHP 8's loose comparison, where $letter is a
   * one-letter, non-numeric string: a string must be that string, a boolean
   * compares with the letter's truth value (true), and null, integers and
   * floats never match.
   */
  predicate LooselyEqualsLetter(v: Json, letter: char)
  {
    match v
    case JBool(b) => b
    case JString(s) => s == [letter]
    case _ => false
  }

  /** in_array($v, ['c', 'd']) with its default loose comparison. */
  predicate InTipos(v: Json)
  {
    LooselyEqualsLetter(v, 'c') || LooselyEqualsLetter(v, 'd')
  }

  /** strlen(preg_replace('/[^a-zA-Z0-9]/', '', $v)) */
  function DescricaoLength(v: Json): nat
  {
    |StripNonAlnum(PhpString(v))|
  }

  function ValidarTransacao(body: Body): (ok: bool)
    ensures ok ==> "valor" in body && body["valor"].JInt?
    ensures ok ==> "tipo" in body && body["tipo"] in {JString("c"), JString("d"), JBool(true)}
    ensures ok ==> "descricao" in body && body["descricao"] != JNull && DescricaoLength(body["descricao"]) <= 10
    ensures ("valor" in body && body["valor"].JInt?)
         && ("tipo" in body && body["tipo"] in {JString("c"), JString("d"), JBool(true)})
         && ("descricao" in body && body["descricao"] != JNull && DescricaoLength(body["descricao"]) <= 10)
         ==> ok
  {
    if !IsSet(body, "valor") || !body["valor"].JInt? then false
    else if !IsSet(body, "tipo") || !InTipos(body["tipo"]) then false
    else if !IsSet(body, "descricao") || DescricaoLength(body["descricao"]) > 10 then false
    else true
  }

  /** The sign of valor is never looked at: zero and negative integers pass. */
  lemma ValidarIgnoresSign(i: int, tipo: Json, descricao: Json)
    ensures ValidarTransacao(map["valor" := JInt(i), "tipo" := tipo, "descricao" := descricao])
        == ValidarTransacao(map["valor" := JInt(1), "tipo" := tipo, "descricao" := descricao])
  {
  }

  /** A float valor is refused even when it is integral, such as 1.0. */
  lemma ValidarRejectsFloat(body: Body, text: string)
    requires "valor" in body && body["valor"] == JFloat(text)
    ensures !ValidarTransacao(body)
  {
  }

  /** An integer description counts its digits; the minus sign is stripped. */
  lemma DescricaoLengthOfInteger(i: int)
    ensures DescricaoLength(JInt(i)) == |NatToString(if i < 0 then -i else i)|
  {
    IntToStringAlnum(i);
  }

  /** Punctuation does not count: "abc-123" has 6 letters and digits. */
  lemma DescricaoWithHyphen()
    ensures DescricaoLength(JString("abc-123")) == 6
  {
    var a, h, d := "abc", "-", "123";
    assert "abc-123" == a + (h + d);
    StripNonAlnumAppend(a, h + d);
    StripNonAlnumAppend(h, d);
    StripNonAlnumKeepsAlnum(a);
    StripNonAlnumKeepsAlnum(d);
    StripNonAlnumDropsOthers(h);
  }

  /** "abc!!!!!!!!!!" is 13 characters long but only 3 of them count. */
  lemma DescricaoWithExclamations()
    ensures DescricaoLength(JString("abc!!!!!!!!!!")) == 3
  {
    var a, e := "abc", "!!!!!!!!!!";
    assert "abc!!!!!!!!!!" == a + e;
    StripNonAlnumAppend(a, e);
    StripNonAlnumKeepsAlnum(a);
    StripNonAlnumDropsOthers(e);
  }

  /** Eleven letters are refused; the empty description passes. */
  lemma DescricaoBounds()
    ensures DescricaoLength(JString("abcdefghijk")) == 11
    ensures DescricaoLength(JString("")) == 0
  {
    StripNonAlnumKeepsAlnum("abcdefghijk");
  }
}
