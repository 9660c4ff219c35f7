/** Android `SharedPreferences` as a plain map from keys to typed values,
    with the typed getters and their caller-supplied defaults. */
module Prefs {
  import opened Base

  datatype PrefValue =
    | PBool(b: bool)
    | PInt(i: int)
    | PLong(l: int)
    | PString(s: string)

  type Store = map<string, PrefValue>

  /** `getBoolean(key, default)`. */
  function GetBool(s: Store, key: string, default: bool): (r: bool)
    ensures key in s && s[key].PBool? ==> r == s[key].b
    ensures key !in s ==> r == default
  {
    if key in s && s[key].PBool? then s[key].b else default
  }

  /** `getInt(key, default)`. */
  function GetInt(s: Store, key: string, default: int): (r: int)
    ensures key in s && s[key].PInt? ==> r == s[key].i
    ensures key !in s ==> r == default
  {
    if key in s && s[key].PInt? then s[key].i else default
  }

  /** `getLong(key, default)`. */
  function GetLong(s: Store, key: string, default: int): (r: int)
    ensures key in s && s[key].PLong? ==> r == s[key].l
    ensures key !in s ==> r == default
  {
    if key in s && s[key].PLong? then s[key].l else default
  }

  /** `getString(key, null)`: None is Kotlin's `null`. */
  function GetString(s: Store, key: string): (r: Option<string>)
    ensures key in s && s[key].PString? ==> r == Some(s[key].s)
    ensures key !in s ==> r.None?
  {
    if key in s && s[key].PString? then Some(s[key].s) else None
  }
}
