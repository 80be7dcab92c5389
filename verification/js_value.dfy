/** The JavaScript values the client handles: parsed JSON bodies, form
    fields, and the objects it builds for requests. Numbers are integers
    or NaN; object identity is not tracked, so two objects are the same
    value exactly when their fields are. */
module JsValue {
  import opened Decimal
  import opened Wrappers

  datatype Value =
    | Undefined
    | Null
    | Bool(b: bool)
    | Num(n: int)
    | NaN
    | Str(s: string)
    | Arr(items: seq<Value>)
    | Obj(fields: map<string, Value>)

  /** `null` or `undefined`: reading a property of these throws. */
  predicate Nullish(v: Value) {
    v.Undefined? || v.Null?
  }

  /** JavaScript truthiness (`if (v)`, `!v`, `v || w`). */
  predicate Truthy(v: Value) {
    match v
    case Undefined => false
    case Null => false
    case Bool(b) => b
    case Num(n) => n != 0
    case NaN => false
    case Str(s) => s != ""
    case Arr(_) => true
    case Obj(_) => true
  }

  /** `v.key` (or `v?.key`) on a value that is not nullish: an own field of
      an object, and `undefined` for anything else. The keys the client
      reads are never inherited properties. */
  function Field(v: Value, key: string): Value {
    if v.Obj? && key in v.fields then v.fields[key] else Undefined
  }

  /** `a === b`: NaN differs from everything, itself included. */
  predicate StrictEq(a: Value, b: Value) {
    a == b && !a.NaN?
  }

  /** `String(v)`, the conversion used by template literals, `new Error(v)`
      and `<option value>`. Arrays join their elements with commas, with
      `null` and `undefined` elements shown as empty. */
  function Display(v: Value): string
    decreases v
  {
    match v
    case Undefined => "undefined"
    case Null => "null"
    case Bool(b) => if b then "true" else "false"
    case Num(n) => IntToString(n)
    case NaN => "NaN"
    case Str(s) => s
    case Arr(items) =>
      JoinComma(seq(|items|, i requires 0 <= i < |items| =>
        if Nullish(items[i]) then "" else Display(items[i])))
    case Obj(_) => "[object Object]"
  }

  function JoinComma(parts: seq<string>): string {
    if |parts| == 0 then ""
    else if |parts| == 1 then parts[0]
    else parts[0] + "," + JoinComma(parts[1..])
  }

  /** The number `n` (an integer or NaN) as a value. */
  function FromNumber(n: Option<int>): (v: Value)
    ensures n.Some? <==> v.Num?
    ensures n.Some? ==> v.n == n.value
    ensures n.None? <==> v.NaN?
  {
    match n
    case Some(k) => Num(k)
    case None => NaN
  }

  /** Numbers (including NaN) are what `Number(...)` and `parseInt(...)` produce. */
  predicate IsNumber(v: Value) {
    v.Num? || v.NaN?
  }

}
