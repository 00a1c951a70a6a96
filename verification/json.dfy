/** JSON values as request and response bodies carry them. */
module Json {
  import opened Wrappers

  /** A JSON value; an object key that is absent stands for a property that is `undefined`. */
  datatype Json =
    | JNull
    | JBool(b: bool)
    | JNum(n: real)
    | JStr(s: string)
    | JArr(items: seq<Json>)
    | JObj(fields: map<string, Json>)
  {
    /** Optional chaining `value?.[name]`: the property of an object, absent for anything else. */
    function Get(name: string): (r: Option<Json>)
      ensures r.Some? <==> JObj? && name in fields
    {
      if JObj? && name in fields then Some(fields[name]) else None
    }
  }

  /** `a?.[name]` where `a` may itself be undefined. */
  function GetOpt(a: Option<Json>, name: string): (r: Option<Json>)
    ensures r.Some? ==> a.Some? && a.value.JObj? && name in a.value.fields
  {
    if a.Some? then a.value.Get(name) else None
  }

  /** JavaScript truthiness of a JSON value (`NaN` is not a JSON number). */
  predicate Truthy(j: Json) {
    match j
    case JNull => false
    case JBool(b) => b
    case JNum(n) => n != 0.0
    case JStr(s) => s != ""
    case _ => true
  }
}
