/**
 * The few JavaScript value semantics the widget relies on: `typeof`,
 * truthiness and the two kinds of errors that the modelled code can throw.
 * Numbers are integers here; NaN, fractions and arrays-as-such are not
 * modelled (an array is an object whose keys are its indices).
 */
module Js {

  datatype Value =
    | Undefined
    | Null
    | Bool(b: bool)
    | Num(n: int)
    | Str(s: string)
    | Func(id: nat)
    | Obj(fields: map<string, Value>)

  datatype Type = TUndefined | TObject | TBoolean | TNumber | TString | TFunction

  /** The result of the `typeof` operator; note that `typeof null` is 'object'. */
  function TypeOf(v: Value): Type {
    match v
    case Undefined => TUndefined
    case Null => TObject
    case Bool(_) => TBoolean
    case Num(_) => TNumber
    case Str(_) => TString
    case Func(_) => TFunction
    case Obj(_) => TObject
  }

  /** Truthiness as used by `if (x)`, `!x` and `x || y`. */
  predicate Truthy(v: Value) {
    match v
    case Undefined => false
    case Null => false
    case Bool(b) => b
    case Num(n) => n != 0
    case Str(s) => s != ""
    case Func(_) => true
    case Obj(_) => true
  }

  /** `a || b` */
  function Or(a: Value, b: Value): Value {
    if Truthy(a) then a else b
  }

  /** Errors that the modelled code can throw. */
  datatype Error = TypeError | RangeError
}
