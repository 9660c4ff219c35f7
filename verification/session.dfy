/** The login session (SessionManager): the signed-in user kept in the
    "scheduling_system_session" preferences, both as a Gson-serialised
    record and as separate fields, with the role checks, the 24-hour
    validity window, the feature permissions and the first-launch flag. */
module Session {
  import opened Base
  import opened Text
  import opened Prefs

  const KeyIsLoggedIn: string := "is_logged_in"
  const KeyUserData: string := "user_data"
  const KeyPersonId: string := "person_id"
  const KeyUsername: string := "username"
  const KeyAccountType: string := "account_type"
  const KeyAccountId: string := "account_id"
  const KeyUserName: string := "user_name"
  const KeyLoginTime: string := "login_time"
  const KeyFirstLaunch: string := "is_first_launch"

  /** 24 hours in milliseconds. */
  const DayMillis: int := 24 * 60 * 60 * 1000

  /** The user record of the login API. */
  datatype User = User(personId: int, username: string, accountType: string, accountId: int, name: string)

  /** Gson's `toJson`/`fromJson` for User; `fromJson` is None where it
      throws. */
  datatype Codec = Codec(toJson: User -> string, fromJson: string -> Option<User>)

  /** Gson reads back what it wrote. */
  ghost predicate RoundTrips(c: Codec) {
    forall u :: c.fromJson(c.toJson(u)) == Some(u)
  }

  /** `saveUserSession(user)` at clock time `now`: the flag, the serialised
      user, its fields and the login time; other keys are kept. */
  function SaveUserSession(c: Codec, s: Store, u: User, now: int): (r: Store)
    ensures r.Keys == s.Keys + {KeyIsLoggedIn, KeyUserData, KeyPersonId, KeyUsername, KeyAccountType,
                                KeyAccountId, KeyUserName, KeyLoginTime}
    ensures forall k :: (k in s && k !in {KeyIsLoggedIn, KeyUserData, KeyPersonId, KeyUsername, KeyAccountType,
                                        KeyAccountId, KeyUserName, KeyLoginTime}) ==> r[k] == s[k]
  {
    s[KeyIsLoggedIn := PBool(true)]
     [KeyUserData := PString(c.toJson(u))]
     [KeyPersonId := PInt(u.personId)]
     [KeyUsername := PString(u.username)]
     [KeyAccountType := PString(u.accountType)]
     [KeyAccountId := PInt(u.accountId)]
     [KeyUserName := PString(u.name)]
     [KeyLoginTime := PLong(now)]
  }

  /** `updateUserData(user)` saves the session again. */
  function UpdateUserData(c: Codec, s: Store, u: User, now: int): Store
  {
    SaveUserSession(c, s, u, now)
  }

  /** `getUserData()`: the stored user, None when nothing is stored or it
      does not deserialise. */
  function GetUserData(c: Codec, s: Store): (r: Option<User>)
    ensures GetString(s, KeyUserData).None? ==> r.None?
  {
    var json := GetString(s, KeyUserData);
    if json.None? then None else c.fromJson(json.value)
  }

  predicate IsLoggedIn(c: Codec, s: Store) {
    GetBool(s, KeyIsLoggedIn, false) && GetUserData(c, s).Some?
  }

  predicate IsAdmin(c: Codec, s: Store) {
    GetUserData(c, s).Some? && EqualsIgnoreCase(GetUserData(c, s).value.accountType, "Admin")
  }

  predicate IsTeacher(c: Codec, s: Store) {
    GetUserData(c, s).Some? && EqualsIgnoreCase(GetUserData(c, s).value.accountType, "Teacher")
  }

  function GetPersonId(s: Store): int { Prefs.GetInt(s, KeyPersonId, -1) }
  function GetUsername(s: Store): Option<string> { Prefs.GetString(s, KeyUsername) }
  function GetUserName(s: Store): Option<string> { Prefs.GetString(s, KeyUserName) }
  function GetAccountType(s: Store): Option<string> { Prefs.GetString(s, KeyAccountType) }
  function GetAccountId(s: Store): int { Prefs.GetInt(s, KeyAccountId, -1) }
  function GetLoginTime(s: Store): int { GetLong(s, KeyLoginTime, 0) }

  /** `isSessionValid()` at clock time `now`: logged in, and less than a day
      since the login time (a 64-bit subtraction). */
  predicate IsSessionValid(c: Codec, s: Store, now: int) {
    IsLoggedIn(c, s) && WrapLong(now - GetLoginTime(s)) < DayMillis
  }

  /** `clearSession()` removes every key. */
  function ClearSession(s: Store): (r: Store)
    ensures |r| == 0
  {
    map[]
  }

  /** `hasPermission(feature)`. */
  predicate HasPermission(c: Codec, s: Store, feature: string) {
    if feature == "manage_rooms" then IsAdmin(c, s)
    else if feature == "approve_requests" then IsAdmin(c, s)
    else if feature == "create_request" then IsTeacher(c, s)
    else if feature == "view_schedule" then IsLoggedIn(c, s)
    else false
  }

  /** `isFirstLaunch()`: the stored flag (true when absent), which is then
      set to false. */
  function IsFirstLaunch(s: Store): (r: (bool, Store))
    ensures r.0 <==> GetBool(s, KeyFirstLaunch, true)
    ensures GetBool(r.1, KeyFirstLaunch, true) == false
    ensures forall k :: k in s && k != KeyFirstLaunch ==> k in r.1 && r.1[k] == s[k]
  {
    var first := GetBool(s, KeyFirstLaunch, true);
    (first, if first then s[KeyFirstLaunch := PBool(false)] else s)
  }

  /** `savePreference(key, value)`. */
  function SavePreference(s: Store, key: string, value: string): (r: Store)
    ensures GetPreference(r, key, "") == value
    ensures forall k :: k in s && k != key ==> k in r && r[k] == s[k]
  {
    s[key := PString(value)]
  }

  /** `getPreference(key, default)`. */
  function GetPreference(s: Store, key: string, default: string): (r: string)
    ensures key !in s ==> r == default
  {
    Prefs.GetString(s, key).GetOr(default)
  }

  // -------------------------------------------------------------- lemmas

  /** A valid session is a logged-in one. */
  lemma ValidImpliesLoggedIn(c: Codec, s: Store, now: int)
    requires IsSessionValid(c, s, now)
    ensures IsLoggedIn(c, s)
  {
  }

  /** For a logged-in session whose login time is not after `now` (both
      non-negative 64-bit clock values), validity is exactly "less than 24
      hours ago": the subtraction cannot wrap. */
  lemma ValidityWindow(c: Codec, s: Store, now: int)
    requires IsLoggedIn(c, s)
    requires 0 <= GetLoginTime(s) <= now <= LONG_MAX
    ensures IsSessionValid(c, s, now) <==> now - GetLoginTime(s) < DayMillis
  {
  }

  /** The window has no lower end: a login time later than `now` (a clock
      set back) leaves the session valid. */
  lemma ValidWhenClockGoesBack(c: Codec, s: Store, now: int)
    requires IsLoggedIn(c, s)
    requires 0 <= now < GetLoginTime(s) <= LONG_MAX
    ensures IsSessionValid(c, s, now)
  {
  }

  /** After a save at time `now`, with a codec that reads back what it
      writes: the user is logged in, the session is valid at `now`, the
      getters return the user's fields and the roles follow its account
      type. */
  lemma SavedSessionReadsBack(c: Codec, s: Store, u: User, now: int)
    requires RoundTrips(c)
    requires IsInt64(now)
    ensures var r := SaveUserSession(c, s, u, now);
      && GetUserData(c, r) == Some(u)
      && IsLoggedIn(c, r)
      && IsSessionValid(c, r, now)
      && GetPersonId(r) == u.personId && GetAccountId(r) == u.accountId
      && GetUsername(r) == Some(u.username) && GetUserName(r) == Some(u.name)
      && GetAccountType(r) == Some(u.accountType) && GetLoginTime(r) == now
      && (IsAdmin(c, r) <==> EqualsIgnoreCase(u.accountType, "Admin"))
      && (IsTeacher(c, r) <==> EqualsIgnoreCase(u.accountType, "Teacher"))
  {
    var r := SaveUserSession(c, s, u, now);
    assert r[KeyUserData] == PString(c.toJson(u));
    assert c.fromJson(c.toJson(u)) == Some(u);
  }

  /** An update overwrites an earlier session: after a save of one user and
      an update to another, the store reads as the second user's session. */
  lemma UpdateOverwritesSession(c: Codec, s: Store, u1: User, t1: int, u2: User, now: int)
    requires RoundTrips(c)
    requires IsInt64(now)
    ensures var r := UpdateUserData(c, SaveUserSession(c, s, u1, t1), u2, now);
      && GetUserData(c, r) == Some(u2)
      && GetPersonId(r) == u2.personId && GetUsername(r) == Some(u2.username)
      && GetAccountType(r) == Some(u2.accountType) && GetLoginTime(r) == now
      && IsSessionValid(c, r, now)
  {
    SavedSessionReadsBack(c, SaveUserSession(c, s, u1, t1), u2, now);
  }

  /** After a logout every getter gives its default, nobody is logged in and
      no feature is permitted. */
  lemma ClearedSessionIsEmpty(c: Codec, s: Store, feature: string, now: int)
    ensures var r := ClearSession(s);
      && GetPersonId(r) == -1 && GetAccountId(r) == -1 && GetLoginTime(r) == 0
      && GetUsername(r).None? && GetUserName(r).None? && GetAccountType(r).None?
      && GetUserData(c, r).None?
      && !IsLoggedIn(c, r) && !IsSessionValid(c, r, now) && !HasPermission(c, r, feature)
  {
  }

  /** The first call reports a first launch (when never asked before) and
      every later call does not. */
  lemma FirstLaunchOnlyOnce(s: Store)
    ensures KeyFirstLaunch !in s ==> IsFirstLaunch(s).0
    ensures var s1 := IsFirstLaunch(s).1; !IsFirstLaunch(s1).0 && IsFirstLaunch(s1).1 == s1
  {
  }

  /** The store as the session operations leave it: user data is present
      only together with the logged-in flag set. */
  predicate Consistent(s: Store) {
    KeyUserData in s ==> KeyIsLoggedIn in s && s[KeyIsLoggedIn] == PBool(true)
  }

  /** Saving, clearing, the first-launch check and saving a preference under
      any other key keep the store consistent. */
  lemma OperationsKeepConsistent(c: Codec, s: Store, u: User, now: int, key: string, value: string)
    requires Consistent(s)
    ensures Consistent(SaveUserSession(c, s, u, now))
    ensures Consistent(ClearSession(s))
    ensures Consistent(IsFirstLaunch(s).1)
    ensures key != KeyUserData && key != KeyIsLoggedIn ==> Consistent(SavePreference(s, key, value))
  {
  }

  /** In a consistent store every permission needs a logged-in user: the
      admin and teacher checks read only the stored user, and consistency
      supplies the flag. The table is: rooms and approvals for admins,
      requests for teachers, the schedule for anyone logged in. */
  lemma PermissionsNeedLogin(c: Codec, s: Store, feature: string)
    requires Consistent(s)
    ensures HasPermission(c, s, feature) ==> IsLoggedIn(c, s)
    ensures HasPermission(c, s, feature) ==>
      feature in {"manage_rooms", "approve_requests", "create_request", "view_schedule"}
    ensures feature == "manage_rooms" || feature == "approve_requests" ==> (HasPermission(c, s, feature) <==> IsAdmin(c, s))
    ensures feature == "create_request" ==> (HasPermission(c, s, feature) <==> IsTeacher(c, s))
  {
    if GetUserData(c, s).Some? {
      assert KeyUserData in s;
    }
  }
}
