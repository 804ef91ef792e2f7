/**
 * The JavaScript values the students router reads from a parsed JSON request
 * body and writes into responses, with the two coercions the router relies on:
 * truthiness (`if (x)`, `filter(Boolean)`) and loose equality with null
 * (`x == null`).
 */
module JsValues {

  /** A JavaScript value. Numbers are modelled as integers. */
  datatype JsVal =
    | Undefined
    | Null
    | Bool(b: bool)
    | Num(n: int)
    | Str(s: string)
    | Date(millis: int)   // a `Date` object, as `new Date()` builds it
    | Composite           // an array or a nested object; its contents are not modelled

  /** ToBoolean (ECMAScript section 7.1.2) on the values above. */
  predicate Truthy(v: JsVal) {
    match v
    case Undefined => false
    case Null => false
    case Bool(b) => b
    case Num(n) => n != 0
    case Str(s) => s != ""
    case Date(_) => true
    case Composite => true
  }

  /** `v == null`: loose equality with null holds exactly for null and undefined. */
  predicate Nullish(v: JsVal) {
    v.Null? || v.Undefined?
  }

  /** A plain object, such as `req.body`: property names to values. */
  type Obj = map<string, JsVal>

  /** Property read `o[k]`: a missing property reads as undefined. */
  function Get(o: Obj, k: string): JsVal {
    if k in o then o[k] else Undefined
  }
}
