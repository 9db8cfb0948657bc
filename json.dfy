/**
 * Decoded JSON values as the request bodies and the Voiceflow traces carry
 * them, with Python's truthiness and dict.get.
 */
module JsonData {
  import opened Wrappers

  datatype Json =
    | JNull
    | JBool(b: bool)
    | JInt(i: int)
    | JStr(s: string)
    | JArr(items: seq<Json>)
    | JObj(fields: map<string, Json>)

  /** bool(v) in Python for the decoded value v. */
  predicate Truthy(v: Json) {
    match v
    case JNull => false
    case JBool(b) => b
    case JInt(i) => i != 0
    case JStr(s) => s != []
    case JArr(xs) => xs != []
    case JObj(m) => m != map[]
  }

  /** d.get(key): a missing key and a null value both read as None. */
  function Get(d: map<string, Json>, key: string): Json {
    if key in d then d[key] else JNull
  }

  /** The value a request field was given, if the key is present at all. */
  function Field(d: map<string, Json>, key: string): Option<Json> {
    if key in d then Some(d[key]) else None
  }

  /** d.get(key, default). */
  function GetOr(d: map<string, Json>, key: string, default: Json): Json {
    if key in d then d[key] else default
  }

  /** `d.get(key) or default`. */
  function GetOrElse(d: map<string, Json>, key: string, default: Json): Json {
    if Truthy(Get(d, key)) then d[key] else default
  }

  /** d.get(key, default) is the field's value when the key is present, whatever that value is. */
  lemma GetOrIsField(d: map<string, Json>, key: string, default: Json)
    ensures GetOr(d, key, default) == Field(d, key).GetOr(default)
    ensures Field(d, key).Some? <==> key in d
    ensures Get(d, key) == GetOr(d, key, JNull)
  {
  }

  /**
   * `d.get(key) or default` differs from d.get(key, default) only where the
   * key is present with a falsy value; its result is truthy or the default.
   */
  lemma OrDefault(d: map<string, Json>, key: string, default: Json)
    ensures Truthy(GetOrElse(d, key, default)) || GetOrElse(d, key, default) == default
    ensures key !in d ==> GetOrElse(d, key, default) == GetOr(d, key, default)
    ensures key in d && Truthy(d[key]) ==> GetOrElse(d, key, default) == GetOr(d, key, default)
    ensures key in d && !Truthy(d[key]) ==> GetOrElse(d, key, default) == default
  {
  }
}
