/**
 * JSON values as the services see them after `json.loads`, Python's
 * truthiness of those values, and the decoder, which the model leaves
 * uninterpreted: every operation that decodes takes it as a parameter.
 */
module Json {
  import opened Wrappers

  datatype Value =
    | JNull
    | JBool(b: bool)
    | JNumber(n: real)
    | JString(s: string)
    | JArray(items: seq<Value>)
    | JObject(fields: map<string, Value>)

  /** Python's `bool(v)` for the value `json.loads` produced. */
  predicate Truthy(v: Value) {
    match v
    case JNull => false
    case JBool(b) => b
    case JNumber(n) => n != 0.0
    case JString(s) => s != ""
    case JArray(items) => items != []
    case JObject(fields) => fields != map[]
  }

  /** Whether Python's `len(v)` is defined (str, list, dict); it raises TypeError otherwise. */
  predicate HasLen(v: Value) {
    v.JString? || v.JArray? || v.JObject?
  }

  /** Python's `d.get(key, default)` on a decoded dict. */
  function Get(fields: map<string, Value>, key: string, default: Value): (v: Value)
    ensures key in fields ==> v == fields[key]
    ensures key !in fields ==> v == default
  {
    if key in fields then fields[key] else default
  }

  /** `json.loads`: `None` stands for a `JSONDecodeError`. */
  type Decoder = string -> Option<Value>

  /**
   * The one assumption the model makes about `json.loads`: a text that starts
   * with `[` can only decode to an array, since array syntax is `[ ... ]`
   * (section 5 of RFC 8259).
   */
  ghost predicate ArraySyntax(decode: Decoder) {
    forall s: string {:trigger decode(s)} ::
      |s| > 0 && s[0] == '[' && decode(s).Some? ==> decode(s).value.JArray?
  }
}
