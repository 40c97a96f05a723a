/**
 * The JavaScript values the response shapers handle, and JavaScript truthiness.
 */
module Js {
  import opened Wrappers

  /** A JSON-like JavaScript value; numbers are integers in this model. */
  datatype Value =
    | Undefined
    | Null
    | Bool(b: bool)
    | Num(n: int)
    | Str(s: string)
    | Arr(items: seq<Value>)
    | Obj(fields: map<string, Value>)

  /** `Boolean(v)`: `undefined`, `null`, `false`, `0` and `""` are falsy; arrays and
      objects are always truthy. */
  predicate IsTruthy(v: Value) {
    match v
    case Undefined => false
    case Null => false
    case Bool(b) => b
    case Num(n) => n != 0
    case Str(s) => s != ""
    case Arr(_) => true
    case Obj(_) => true
  }

  /** Truthiness of an optional string input (`!taskId`, `taskId && projectId`):
      an absent value and the empty string are both falsy. */
  predicate Truthy(o: Option<string>) {
    o.Some? && o.value != ""
  }

  /** Optional chaining `v?.key`: the property of an object, `undefined` otherwise. */
  function Member(v: Value, key: string): Value {
    if v.Obj? && key in v.fields then v.fields[key] else Undefined
  }
}
