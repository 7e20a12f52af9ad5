/** The JSON-like values the configuration is made of, with the two pieces
    of JavaScript semantics the application code leans on: truthiness and
    property access (a missing property reads as `undefined`, modelled as
    `None`). Numbers are integers here; object key order is not kept. */
module Json {
  import opened Common

  datatype Json =
    | JNull
    | JBool(b: bool)
    | JNum(n: int)
    | JStr(s: string)
    | JArr(items: seq<Json>)
    | JObj(fields: map<string, Json>)

  /** The result of code that may raise a TypeError: a value, or `Throws`. */
  datatype Outcome<T> = Done(value: T) | Throws {
    predicate IsFailure() { Throws? }
    function PropagateFailure<U>(): Outcome<U>
      requires Throws?
    {
      Throws
    }
    function Extract(): T
      requires Done?
    {
      value
    }
  }

  /** JavaScript truthiness: `null`, `false`, `0` and `""` are falsy. */
  predicate Truthy(j: Json) {
    match j
    case JNull => false
    case JBool(b) => b
    case JNum(n) => n != 0
    case JStr(s) => s != ""
    case JArr(_) => true
    case JObj(_) => true
  }

  /** Truthiness of a property read; `undefined` is falsy. */
  predicate TruthyOpt(o: Option<Json>) {
    o.Some? && Truthy(o.value)
  }

  /** `x == null` (loose): the property is missing or holds `null`. */
  predicate Nullish(o: Option<Json>) {
    o.None? || o.value.JNull?
  }

  /** `obj.key` for a JSON value: only objects have named properties. */
  function Get(j: Json, key: string): (r: Option<Json>)
    ensures r.Some? <==> j.JObj? && key in j.fields
  {
    if j.JObj? && key in j.fields then Some(j.fields[key]) else None
  }

  /** `obj.key = v` where `v` may be `undefined` (which JSON drops). */
  function Assign(f: map<string, Json>, key: string, v: Option<Json>): (r: map<string, Json>)
    ensures v.Some? ==> key in r && r[key] == v.value
    ensures v.None? ==> key !in r
    ensures forall k :: k != key ==> (k in r <==> k in f) && (k in f ==> r[k] == f[k])
  {
    if v.Some? then f[key := v.value] else f - {key}
  }

  /** `String(j)`, as a template literal or a property key renders a value. */
  function ToJsString(j: Json): string {
    match j
    case JNull => "null"
    case JBool(b) => if b then "true" else "false"
    case JNum(n) => IntToString(n)
    case JStr(s) => s
    case JArr(items) => JoinElements(items)
    case JObj(_) => "[object Object]"
  }

  /** `Array.prototype.join(",")`: `null` elements print as the empty string. */
  function JoinElements(items: seq<Json>): string
    decreases items
  {
    if items == [] then ""
    else
      var head := if items[0].JNull? then "" else ToJsString(items[0]);
      if |items| == 1 then head else head + "," + JoinElements(items[1..])
  }
}
