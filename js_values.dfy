/** The JavaScript values a parsed POST body holds, as the index.js handler sees them. */
module JsValues {
  /**
   * A JSON value after JSON.parse. Numbers are taken exactly; arrays and
   * objects are not looked into and are all Compound.
   */
  datatype JsValue = Undefined | Null | Bool(b: bool) | Number(n: real) | Str(s: string) | Compound

  /** A parsed body that is an object; a missing key reads as undefined. */
  type JsObject = map<string, JsValue>

  function Field(body: JsObject, key: string): (v: JsValue)
    ensures key !in body ==> v == Undefined
  {
    if key in body then body[key] else Undefined
  }

  /** Number.isInteger(v): a number with no fractional part, so 1.0 is an integer. */
  predicate IsInteger(v: JsValue)
  {
    v.Number? && v.n == v.n.Floor as real
  }

  /** Every integer passes Number.isInteger, and IntegerValue gives it back. */
  lemma IntegersPass(i: int)
    ensures IsInteger(Number(i as real)) && IntegerValue(Number(i as real)) == i
  {
  }

  /** A fractional number, a numeric string and a missing field all fail it. */
  lemma NonIntegersFail(n: real, s: string)
    requires n.Floor as real < n
    ensures !IsInteger(Number(n)) && !IsInteger(Str(s)) && !IsInteger(Undefined)
  {
  }

  /** The integer an integral number stands for. */
  function IntegerValue(v: JsValue): (i: int)
    requires IsInteger(v)
    ensures i as real == v.n
  {
    v.n.Floor
  }
}
