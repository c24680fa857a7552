/** JSON request values as the handlers see them, with JavaScript's
    truthiness and its `Number(...)` conversion. A key missing from an object
    is JavaScript's `undefined`; `NaN` never appears inside a value. */
module Json {
  import opened Base
  import opened Numbers

  datatype Json =
    | JNull
    | JBool(b: bool)
    | JNum(n: real)
    | JStr(s: string)
    | JArr(items: seq<Json>)
    | JObj(fields: map<string, Json>)

  /** JavaScript truthiness: `null`, `false`, `0` and `""` are falsy. */
  predicate Truthy(j: Json) {
    match j
    case JNull => false
    case JBool(b) => b
    case JNum(n) => n != 0.0
    case JStr(s) => s != ""
    case _ => true
  }

  /** Truthiness of a possibly missing value (`undefined` is falsy). */
  predicate TruthyField(v: Option<Json>) {
    v.Some? && Truthy(v.value)
  }

  /** The value stored under `key`, if the value is an object that has it. */
  function Field(j: Json, key: string): Option<Json> {
    if j.JObj? && key in j.fields then Some(j.fields[key]) else None
  }

  /** The string stored under `key`, if there is one. */
  function StringField(j: Json, key: string): Option<string> {
    match Field(j, key)
    case Some(JStr(s)) => Some(s)
    case _ => None
  }

  /** `Number(v)`; `None` is `NaN`. An array converts through its text:
      the empty array is 0, a one-element array of a number, a string or
      `null` converts like that element's text, and an array of several
      elements (joined with commas) or an object is `NaN`. */
  function ToNumber(v: Json): Option<real> {
    match v
    case JNull => Some(0.0)
    case JBool(b) => Some(if b then 1.0 else 0.0)
    case JNum(n) => Some(n)
    case JStr(s) => StringToNumber(s)
    case JArr(items) =>
      if items == [] then Some(0.0)
      else if |items| == 1 then
        match items[0]
        case JNull => Some(0.0)
        case JNum(n) => Some(n)
        case JStr(s) => StringToNumber(s)
        case _ => None
      else None
    case JObj(_) => None
  }
}
