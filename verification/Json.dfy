/** Decoded JSON values and the dictionary reads the auditors make of them. */
module Json {
  import opened Common

  datatype Json =
    | Null
    | Bool(b: bool)
    | Num(n: real)
    | Str(s: string)
    | List(items: seq<Json>)
    | Obj(fields: map<string, Json>)

  /** `value.get(key)` on a dictionary; reading anything else, or a missing key, gives null. */
  function Get(value: Json, key: string): Json {
    if value.Obj? && key in value.fields then value.fields[key] else Null
  }

  /** `_decode`: a dictionary as it is, or text that decodes to one. */
  function AsObject(decode: string -> Option<Json>, value: Json): Option<Json> {
    if value.Obj? then Some(value)
    else if value.Str? then
      var decoded := decode(value.s);
      if decoded.Some? && decoded.value.Obj? then decoded else None
    else None
  }

  /** The value is an object that holds `x` under `key`. */
  predicate HasField(value: Json, key: string, x: Json) {
    value.Obj? && key in value.fields && value.fields[key] == x
  }

  lemma GetIsField(value: Json, key: string, x: Json)
    requires x != Null
    ensures Get(value, key) == x <==> HasField(value, key, x)
  {
  }
}
