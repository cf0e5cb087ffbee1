/**
 Decoded wire values as the source's dictionaries hold them. Bool is a case of its own, since
 the source refuses booleans wherever it asks for an integer.
 */
module Json {
  datatype Json =
    | Null
    | Bool(b: bool)
    | Int(i: int)
    | Real(r: real)
    | Str(s: string)
    | List(items: seq<Json>)
    | Tuple(items: seq<Json>)
    | Dict(fields: Object)

  type Object = map<string, Json>

  /** dict.get(key): an absent key reads as None. */
  function Get(o: Object, key: string): Json {
    GetOr(o, key, Null)
  }

  function GetOr(o: Object, key: string, default: Json): Json {
    if key in o then o[key] else default
  }

  /** The entry of a dictionary that may not be one: None unless it is there. */
  function Entry(v: Json, key: string): Json {
    match v
    case Dict(fields) => Get(fields, key)
    case _ => Null
  }

  /** The keys that both hold have equal values, and larger holds every key of smaller. */
  predicate Extends(larger: Object, smaller: Object) {
    forall k :: k in smaller ==> k in larger && larger[k] == smaller[k]
  }
}
