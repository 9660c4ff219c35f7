/** Parsed JSON as the application reads it through Android's `org.json`
    accessors. Only the accessor semantics matter here: which stored values a
    `getX` accepts (and coerces), when it throws, and when an `optX` falls
    back to its default. Numbers are integers; arrays are not needed by the
    modelled code. */
module Json {
  import opened Base
  import opened Text

  datatype JValue =
    | JNull                               // JSONObject.NULL
    | JBool(b: bool)
    | JNum(n: int)
    | JStr(s: string)
    | JObj(fields: map<string, JValue>)

  /** A `JSONObject`: names mapped to values. */
  type JObject = map<string, JValue>

  /** The string `getString`/`optString` make of a stored value: strings as
      they are, numbers and booleans printed, JSON null as "null". A nested
      object would be printed as JSON text, which is not modelled: None. */
  function AsString(v: JValue): (r: Option<string>)
    ensures v.JStr? ==> r == Some(v.s)
    ensures r.None? <==> v.JObj?
  {
    match v
    case JNull => Some("null")
    case JBool(b) => Some(if b then "true" else "false")
    case JNum(n) => Some(IntToString(n))
    case JStr(s) => Some(s)
    case JObj(_) => None
  }

  /** `getString(name)`: None where the call throws (missing name). */
  function GetString(o: JObject, name: string): (r: Option<string>)
    ensures name !in o ==> r.None?
  {
    if name in o then AsString(o[name]) else None
  }

  /** `optString(name, fallback)`: the fallback only when the name is
      missing; a stored JSON null reads as "null". */
  function OptString(o: JObject, name: string, fallback: string): (r: string)
    ensures name !in o ==> r == fallback
    ensures name in o && o[name].JStr? ==> r == o[name].s
  {
    if name in o && AsString(o[name]).Some? then AsString(o[name]).value else fallback
  }

  /** The boolean `getBoolean`/`optBoolean` make of a stored value: a boolean,
      or the strings "true"/"false" in any case. */
  function AsBoolean(v: JValue): (r: Option<bool>)
    ensures v.JBool? ==> r == Some(v.b)
    ensures v.JNull? || v.JNum? || v.JObj? ==> r.None?
  {
    match v
    case JBool(b) => Some(b)
    case JStr(s) =>
      if EqualsIgnoreCase(s, "true") then Some(true)
      else if EqualsIgnoreCase(s, "false") then Some(false)
      else None
    case _ => None
  }

  /** `getBoolean(name)`: None where the call throws. */
  function GetBoolean(o: JObject, name: string): (r: Option<bool>)
    ensures name !in o ==> r.None?
  {
    if name in o then AsBoolean(o[name]) else None
  }

  /** `optBoolean(name, fallback)`. */
  function OptBoolean(o: JObject, name: string, fallback: bool): (r: bool)
    ensures name !in o ==> r == fallback
  {
    if name in o && AsBoolean(o[name]).Some? then AsBoolean(o[name]).value else fallback
  }

  /** The `Int` that `getInt`/`optInt` make of a stored value: a number
      narrowed to 32 bits (`Number.intValue()`), or a string holding a
      decimal integer. */
  function AsInt(v: JValue): (r: Option<int>)
    ensures r.Some? ==> IsInt32(r.value)
    ensures v.JNum? && IsInt32(v.n) ==> r == Some(v.n)
    ensures v.JNull? || v.JBool? || v.JObj? ==> r.None?
  {
    match v
    case JNum(n) => Some(WrapInt(n))
    case JStr(s) => ParseInt(s)
    case _ => None
  }

  /** `getInt(name)`: None where the call throws. */
  function GetInt(o: JObject, name: string): (r: Option<int>)
    ensures name !in o ==> r.None?
  {
    if name in o then AsInt(o[name]) else None
  }

  /** `optInt(name, fallback)`. */
  function OptInt(o: JObject, name: string, fallback: int): (r: int)
    ensures name !in o ==> r == fallback
  {
    if name in o && AsInt(o[name]).Some? then AsInt(o[name]).value else fallback
  }

  /** `getJSONObject(name)`: None where the call throws. */
  function GetObject(o: JObject, name: string): (r: Option<JObject>)
    ensures r.Some? <==> name in o && o[name].JObj?
  {
    if name in o && o[name].JObj? then Some(o[name].fields) else None
  }
}
