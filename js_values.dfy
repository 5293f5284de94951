/** The small slice of JavaScript value semantics the dispatcher relies on:
    truthiness (`if (x)`, `!x`) and strict equality (`===`, `!==`). */
module JsValues {

  datatype Option<+T> = None | Some(value: T)

  /** A JavaScript value as the dispatcher sees it. Numbers are modelled by
      their integer values plus NaN; an object (an Error, an array, a plain
      object) is known only by its identity. */
  datatype JsValue =
    | Undefined
    | Null
    | Bool(b: bool)
    | Num(n: int)
    | NaN
    | Str(s: string)
    | Obj(id: nat)

  /** ToBoolean (section 7.1.2 of ECMA-262): undefined, null, false, 0, NaN
      and the empty string are falsy; every other value is truthy. */
  predicate Truthy(v: JsValue): (b: bool)
    ensures b <==> v !in {Undefined, Null, Bool(false), Num(0), NaN, Str("")}
  {
    match v
    case Undefined => false
    case Null => false
    case Bool(b) => b
    case Num(n) => n != 0
    case NaN => false
    case Str(s) => s != ""
    case Obj(_) => true
  }

  /** IsStrictlyEqual (section 7.2.16 of ECMA-262): same type and same value,
      objects by identity, and NaN equal to nothing. */
  predicate StrictEquals(a: JsValue, b: JsValue): (r: bool)
    ensures r <==> a == b && a != NaN
  {
    match (a, b)
    case (Undefined, Undefined) => true
    case (Null, Null) => true
    case (Bool(x), Bool(y)) => x == y
    case (Num(x), Num(y)) => x == y
    case (Str(x), Str(y)) => x == y
    case (Obj(x), Obj(y)) => x == y
    case _ => false
  }

  /** An optional string as JavaScript holds it: absent is `undefined`. */
  function FromOption(o: Option<string>): JsValue
  {
    match o
    case None => Undefined
    case Some(s) => Str(s)
  }
}
