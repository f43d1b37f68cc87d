/** The JSON values that travel between the pages and the server, with the
    JavaScript conversions the code applies to them: truthiness (`if (!x)`),
    `Array.isArray`, property reads and string conversion (template literals
    and `Array.prototype.join`). Numbers are restricted to integers. */
module Values {
  import opened Text

  datatype Option<+T> = None | Some(value: T)

  datatype Value =
    | Undefined
    | Null
    | Bool(b: bool)
    | Num(n: int)
    | Str(s: string)
    | Arr(items: seq<Value>)
    | Obj(fields: map<string, Value>)

  /** JavaScript's ToBoolean: `undefined`, `null`, `false`, `0` and `""` are falsy;
      every array and object, empty or not, is truthy. */
  predicate Truthy(v: Value) {
    match v
    case Undefined => false
    case Null => false
    case Bool(b) => b
    case Num(n) => n != 0
    case Str(s) => s != ""
    case Arr(_) => true
    case Obj(_) => true
  }

  predicate Nullish(v: Value) { v.Undefined? || v.Null? }

  predicate IsArray(v: Value) { v.Arr? }

  /** `v.key` on a value that is not `null` or `undefined`: an own field of an
      object, and `undefined` for anything else. */
  function Get(v: Value, key: string): (r: Value)
    ensures v.Obj? && key in v.fields ==> r == v.fields[key]
    ensures !v.Obj? || key !in v.fields ==> r == Undefined
  {
    if v.Obj? && key in v.fields then v.fields[key] else Undefined
  }

  /** `String(v)`, which is also what a template literal `${v}` inserts. An
      array is joined with "," and its `null` and `undefined` elements become
      empty strings. */
  function JsString(v: Value): string
    decreases v
  {
    match v
    case Undefined => "undefined"
    case Null => "null"
    case Bool(b) => if b then "true" else "false"
    case Num(n) => IntToString(n)
    case Str(s) => s
    case Arr(items) => ArrayJoin(items, ",")
    case Obj(_) => "[object Object]"
  }

  /** `items.join(sep)`. */
  function ArrayJoin(items: seq<Value>, sep: string): string
    decreases items
  {
    Join(seq(|items|, i requires 0 <= i < |items| =>
      if Nullish(items[i]) then "" else JsString(items[i])), sep)
  }

  /** Strings as JSON values, in order. */
  function Strs(ss: seq<string>): (vs: seq<Value>)
    ensures |vs| == |ss|
    ensures forall i :: 0 <= i < |ss| ==> vs[i] == Str(ss[i])
  {
    seq(|ss|, i requires 0 <= i < |ss| => Str(ss[i]))
  }

  /** The message of the TypeError V8 throws for `v.key` when `v` is `null`
      or `undefined`. */
  function ReadError(v: Value, key: string): string {
    "Cannot read properties of " + JsString(v) + " (reading '" + key + "')"
  }
}
