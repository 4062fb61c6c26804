/** A JSON-like value: the shape of every dict the service parses or returns. */
module Json {
  import opened Wrappers

  datatype Json =
    | JNull
    | JBool(b: bool)
    | JNum(n: int)
    | JStr(s: string)
    | JList(items: seq<Json>)
    | JObj(fields: map<string, Json>)

  /** Python's `d.get(key, default)` on a dict. */
  function Get(d: map<string, Json>, key: string, default: Json): (v: Json)
    ensures key in d ==> v == d[key]
    ensures key !in d ==> v == default
  {
    if key in d then d[key] else default
  }

  /** An optional string as it is serialised: `None` becomes `null`. */
  function OptStr(o: Option<string>): (v: Json)
    ensures o.None? ==> v == JNull
    ensures o.Some? ==> v == JStr(o.value)
  {
    match o
    case None => JNull
    case Some(s) => JStr(s)
  }

  /** An optional integer as it is serialised: `None` becomes `null`. */
  function OptNum(o: Option<int>): (v: Json)
    ensures o.None? ==> v == JNull
    ensures o.Some? ==> v == JNum(o.value)
  {
    match o
    case None => JNull
    case Some(n) => JNum(n)
  }
}
