/**
 * The slice of JavaScript semantics the server's logic depends on: JSON-like values as
 * the upstream GraphQL answer is parsed into, truthiness (what `||`, `!!` and `if` test),
 * property access with and without optional chaining, and the exceptions that reach the
 * resolver's `catch`.
 */
module Js {
  import opened Text

  /** A parsed JSON value, plus `undefined` for a property that is not there. */
  datatype Value =
    | Undefined
    | Null
    | Bool(b: bool)
    | Num(n: int)
    | Str(s: string)
    | Arr(items: seq<Value>)
    | Obj(fields: map<string, Value>)

  /** JavaScript truthiness. */
  predicate Truthy(v: Value) {
    match v
    case Undefined => false
    case Null => false
    case Bool(b) => b
    case Num(n) => n != 0
    case Str(s) => s != ""
    case Arr(_) => true
    case Obj(_) => true
  }

  predicate Nullish(v: Value) {
    v.Undefined? || v.Null?
  }

  /** `a || b`. */
  function Or(a: Value, b: Value): Value {
    if Truthy(a) then a else b
  }

  /**
   * `v.key` on a value that is neither null nor undefined (on those, the access throws
   * and callers model the TypeError). Only objects have data properties here.
   */
  function Get(v: Value, key: string): Value
    requires !Nullish(v)
  {
    if v.Obj? && key in v.fields then v.fields[key] else Undefined
  }

  /** `v?.key`. */
  function OptGet(v: Value, key: string): Value {
    if Nullish(v) then Undefined else Get(v, key)
  }

  /** `v?.[0]`. */
  function OptFirst(v: Value): Value {
    match v
    case Arr(items) => if items != [] then items[0] else Undefined
    case Obj(fields) => if "0" in fields then fields["0"] else Undefined
    case Str(s) => if s != [] then Str([s[0]]) else Undefined
    case _ => Undefined
  }

  /** What a `throw` or a rejected `await` delivers to a `catch`. */
  datatype Exception =
    | Thrown(name: string, message: string)    // an Error or TypeError raised in this process
    | HttpError(message: string, status: nat, statusText: string, data: Value)
                                                // axios: the server answered with a rejected status
    | NoResponse(message: string)              // axios: the request went out, nothing came back

  /** The `message` property of the exception. */
  function MessageOf(e: Exception): string {
    match e
    case Thrown(_, m) => m
    case HttpError(m, _, _, _) => m
    case NoResponse(m) => m
  }

  function NullishName(v: Value): string {
    if v.Null? then "null" else "undefined"
  }

  /** The TypeError V8 raises for `v.key` when `v` is null or undefined. */
  function ReadError(v: Value, key: string): Exception {
    Thrown("TypeError", "Cannot read properties of " + NullishName(v) + " (reading '" + key + "')")
  }

  /**
   * The TypeError V8 raises for a parameter pattern `({key}) => ...` called with null or
   * undefined. A parameter has no source expression to quote, so V8 names the value by its
   * type: `object null` for null, `undefined` for undefined.
   */
  function DestructureError(v: Value, key: string): Exception {
    Thrown("TypeError", "Cannot destructure property '" + key + "' of '"
      + (if v.Null? then "object null" else "undefined") + "' as it is " + NullishName(v) + ".")
  }

  /** The TypeError V8 raises for calling a property that is not a function. */
  function NotAFunction(callee: string): Exception {
    Thrown("TypeError", callee + " is not a function")
  }
}
