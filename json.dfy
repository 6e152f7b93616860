/** JSON documents as `json.load` returns them and `json.dump` writes them. */
module Json {
  import opened Options

  /** A JSON value. Numbers are integers only: the state files hold no
      fractional numbers. */
  datatype Json =
    | JNull
    | JBool(b: bool)
    | JInt(i: int)
    | JStr(s: string)
    | JArray(items: seq<Json>)
    | JObject(fields: map<string, Json>)

  /** An optional string written as a JSON value: `None` becomes `null`. */
  function OptStr(o: Option<string>): (j: Json)
    ensures o.None? <==> j == JNull
    ensures o.Some? ==> j.JStr? && j.s == o.value
  {
    match o
    case None => JNull
    case Some(s) => JStr(s)
  }

  /** `obj.get(key)` read as a string: absent keys, `null` and values of
      other types all read as `None`. */
  function GetStr(fields: map<string, Json>, key: string): (o: Option<string>)
    ensures o.Some? <==> key in fields && fields[key].JStr?
  {
    if key in fields && fields[key].JStr? then Some(fields[key].s) else None
  }

  /** Reading back a value written by `OptStr` gives the original. */
  lemma GetStrOptStr(fields: map<string, Json>, key: string, o: Option<string>)
    requires key in fields && fields[key] == OptStr(o)
    ensures GetStr(fields, key) == o
  {
  }
}
