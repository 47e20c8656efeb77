/** The already-parsed JSON document, as a closed tagged union, and the few
    JavaScript conversions the export pipeline applies to it. */
module JsonValue {
  import opened Text

  datatype Option<+T> = None | Some(value: T)

  /** A JavaScript number, carried by its rendering `String(n)`: "12", "-3.5",
      "1e+21", "Infinity", "NaN". The pipeline never computes with numbers; it
      only renders them, tests them for finiteness and passes them through. */
  datatype Number = Number(text: string)

  predicate IsFinite(n: Number) {
    n.text != "Infinity" && n.text != "-Infinity" && n.text != "NaN"
  }

  /** A value produced by `JSON.parse` (or a row object produced by a
      spreadsheet reader). Object members keep their insertion order. */
  datatype Value =
    | Null
    | Bool(b: bool)
    | Num(n: Number)
    | Str(s: string)
    | Arr(items: seq<Value>)
    | Obj(fields: seq<(string, Value)>)

  /** `v && typeof v === 'object'`: a non-null object or array. */
  predicate IsNested(v: Value) {
    v.Arr? || v.Obj?
  }

  /** JavaScript truthiness: null, false, 0, NaN and "" are falsy. */
  predicate Truthy(v: Value) {
    match v
    case Null => false
    case Bool(b) => b
    case Num(n) => n.text != "0" && n.text != "NaN"
    case Str(s) => s != ""
    case _ => true
  }

  /** Truthiness of an optional property read (`undefined` is falsy). */
  predicate TruthyOpt(o: Option<Value>) {
    o.Some? && Truthy(o.value)
  }

  /** `obj?.key` on a parsed document: only objects have own properties. */
  function Get(v: Value, key: string): Option<Value> {
    if v.Obj? then Lookup(v.fields, key) else None
  }

  function Lookup(fields: seq<(string, Value)>, key: string): Option<Value> {
    if fields == [] then None
    else if fields[0].0 == key then Some(fields[0].1)
    else Lookup(fields[1..], key)
  }

  /** `String(v)`. Arrays render as their elements joined by ",". */
  function ToJsString(v: Value): string {
    match v
    case Null => "null"
    case Bool(b) => if b then "true" else "false"
    case Num(n) => n.text
    case Str(s) => s
    case Arr(items) => Join(items, ",")
    case Obj(_) => "[object Object]"
  }

  /** `Array.prototype.join`: null elements render as the empty string. */
  function Join(items: seq<Value>, sep: string): string
    decreases items
  {
    if items == [] then ""
    else
      var head := if items[0].Null? then "" else ToJsString(items[0]);
      if |items| == 1 then head else head + sep + Join(items[1..], sep)
  }
}
