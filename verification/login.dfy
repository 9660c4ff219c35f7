/** The login screen (LoginActivity): the input guard, the classification of
    the server's reply, and, on success, the split of the user's name, the
    session written to the "user_session" preferences and the choice of
    dashboard. */
module Login {
  import opened Base
  import opened Text
  import opened Json
  import Prefs

  const LoginUrl: string := "http://10.0.2.2/scheduling-api/login.php"

  /** The sign-in button: both fields trimmed; a blank one sends nothing,
      otherwise the trimmed pair is posted. */
  function CheckInput(usernameText: string, passwordText: string): (r: Option<(string, string)>)
    ensures r.None? <==> IsBlank(usernameText) || IsBlank(passwordText)
    ensures r.Some? ==> r.value == (Trim(usernameText), Trim(passwordText))
  {
    BlankIffTrimEmpty(usernameText);
    BlankIffTrimEmpty(passwordText);
    var username := Trim(usernameText);
    var password := Trim(passwordText);
    if |username| == 0 || |password| == 0 then None else Some((username, password))
  }

  /** The request body of a login. */
  function LoginPayload(username: string, password: string): JObject {
    map["username" := JStr(username), "password" := JStr(password)]
  }

  /** What the server receives is the pair the input check let through: the
      payload has exactly the two fields, holding the trimmed texts. */
  lemma LoginPayloadCarriesInput(usernameText: string, passwordText: string)
    requires CheckInput(usernameText, passwordText).Some?
    ensures var (u, p) := CheckInput(usernameText, passwordText).value;
      var o := LoginPayload(u, p);
      && o.Keys == {"username", "password"}
      && GetString(o, "username") == Some(Trim(usernameText))
      && GetString(o, "password") == Some(Trim(passwordText))
  {
  }

  /** The dashboard a user is sent to. */
  datatype Dashboard = AdminDashboard | TeacherDashboard

  /** `accountType.lowercase() == "admin"` picks the admin dashboard; every
      other account type the teacher dashboard. */
  function Route(accountType: string): Dashboard {
    if LowerStr(accountType) == "admin" then AdminDashboard else TeacherDashboard
  }

  /** The routing is a case-insensitive comparison with "admin", the same
      test the session's `isAdmin` makes against "Admin". */
  lemma RouteIsAdminIgnoringCase(accountType: string)
    ensures Route(accountType) == AdminDashboard <==> EqualsIgnoreCase(accountType, "admin")
    ensures Route(accountType) == AdminDashboard <==> EqualsIgnoreCase(accountType, "Admin")
  {
    EqualsIgnoreCaseIsLowerEquality(accountType, "admin");
    EqualsIgnoreCaseIsLowerEquality(accountType, "Admin");
    assert LowerStr("admin") == "admin";
    assert LowerStr("Admin") == "admin";
  }

  /** The non-blank parts of `parts`, in order. */
  function NonBlank(parts: seq<string>): (r: seq<string>)
    ensures forall k :: 0 <= k < |r| ==> !IsBlank(r[k]) && r[k] in parts
    ensures forall k :: 0 <= k < |parts| && !IsBlank(parts[k]) ==> parts[k] in r
  {
    if |parts| == 0 then []
    else
      var rest := NonBlank(parts[1..]);
      assert forall k :: 1 <= k < |parts| ==> parts[k] == parts[1..][k - 1];
      if IsBlank(parts[0]) then rest else [parts[0]] + rest
  }

  /** The filter keeps the parts' order and every occurrence: one more part
      adds itself at the end exactly when it is not blank. */
  lemma {:induction false} NonBlankSnoc(parts: seq<string>, p: string)
    ensures NonBlank(parts + [p]) == NonBlank(parts) + (if IsBlank(p) then [] else [p])
  {
    if |parts| > 0 {
      assert (parts + [p])[1..] == parts[1..] + [p];
      NonBlankSnoc(parts[1..], p);
    }
  }

  /** `name.split(" ").filter { it.isNotBlank() }`, then the first part or
      "User" and the last part or "". */
  function SplitName(name: string): (string, string) {
    FirstAndLast(Words(name))
  }

  /** The non-blank pieces of `name` between single spaces. */
  function Words(name: string): seq<string> {
    NonBlank(Split(name, ' '))
  }

  /** The first and the last word, or "User" and "" when there is none. */
  function FirstAndLast(words: seq<string>): (string, string) {
    if |words| > 0 then (words[0], words[|words| - 1]) else ("User", "")
  }

  /** The parts a split leaves are words: none holds a space or is blank. */
  lemma SplitNameGivesWords(name: string)
    ensures var (first, last) := SplitName(name);
      ' ' !in last && (first == "User" || (' ' !in first && !IsBlank(first)))
  {
    var pieces := Split(name, ' ');
    SplitPiecesAvoidSeparator(name, ' ');
    var words := NonBlank(pieces);
    if |words| > 0 {
      assert words[0] in pieces;
      assert words[|words| - 1] in pieces;
    }
  }

  lemma {:induction false} NonBlankKeepsAll(parts: seq<string>)
    requires forall k :: 0 <= k < |parts| ==> !IsBlank(parts[k])
    ensures NonBlank(parts) == parts
    decreases |parts|
  {
    if |parts| > 0 {
      NonBlankKeepsAll(parts[1..]);
      assert [parts[0]] + parts[1..] == parts;
    }
  }

  /** A name made of words joined by single spaces splits into its first
      and its last word. */
  lemma SplitNameOfWords(words: seq<string>)
    requires |words| >= 1
    requires forall k :: 0 <= k < |words| ==> ' ' !in words[k] && !IsBlank(words[k])
    ensures SplitName(Join(words, " ")) == (words[0], words[|words| - 1])
  {
    WordsOfJoin(words, Join(words, " "));
  }

  lemma WordsOfJoin(words: seq<string>, name: string)
    requires |words| >= 1
    requires forall k :: 0 <= k < |words| ==> ' ' !in words[k] && !IsBlank(words[k])
    requires name == Join(words, " ")
    ensures Words(name) == words
  {
    assert " " == [' '];
    SplitJoin(words, ' ');
    NonBlankKeepsAll(words);
  }

  /** A blank name gives "User" and "". */
  lemma SplitBlankName(name: string)
    requires IsBlank(name)
    ensures SplitName(name) == ("User", "")
  {
    var pieces := Split(name, ' ');
    JoinSplit(name, ' ');
    forall k | 0 <= k < |pieces| ensures IsBlank(pieces[k]) {
      PieceOfBlankIsBlank(name, k);
    }
    NonBlankOfBlanks(pieces);
  }

  lemma {:induction false} NonBlankOfBlanks(parts: seq<string>)
    requires forall k :: 0 <= k < |parts| ==> IsBlank(parts[k])
    ensures NonBlank(parts) == []
    decreases |parts|
  {
    if |parts| > 0 {
      NonBlankOfBlanks(parts[1..]);
    }
  }

  /** Every piece of a blank string is blank. */
  lemma {:induction false} PieceOfBlankIsBlank(s: string, k: nat)
    requires IsBlank(s)
    requires k < |Split(s, ' ')|
    ensures IsBlank(Split(s, ' ')[k])
    decreases |s|
  {
    if |s| > 0 {
      var rest := Split(s[1..], ' ');
      if s[0] == ' ' {
        if k > 0 {
          PieceOfBlankIsBlank(s[1..], k - 1);
        }
      } else {
        PieceOfBlankIsBlank(s[1..], if k == 0 then 0 else k);
      }
    }
  }

  /** The session the login writes: user id, username, full, first and last
      name, account type, the logged-in flag and the login time. */
  function SaveLogin(s: Prefs.Store, personId: int, username: string, accountType: string, name: string, now: int): (r: Prefs.Store)
    ensures forall k :: (k in s && k !in {"user_id", "username", "full_name", "first_name", "last_name",
                                         "account_type", "is_logged_in", "login_time"}) ==> k in r && r[k] == s[k]
    ensures Prefs.GetInt(r, "user_id", -1) == personId
    ensures Prefs.GetString(r, "username") == Some(username)
    ensures Prefs.GetString(r, "full_name") == Some(name)
    ensures Prefs.GetString(r, "first_name") == Some(SplitName(name).0)
    ensures Prefs.GetString(r, "last_name") == Some(SplitName(name).1)
    ensures Prefs.GetString(r, "account_type") == Some(accountType)
    ensures Prefs.GetBool(r, "is_logged_in", false)
    ensures Prefs.GetLong(r, "login_time", 0) == now
  {
    SaveAccount(SaveNames(s, personId, username, name), accountType, SplitName(name).1, now)
  }

  /** The first four keys of the login session. */
  function SaveNames(s: Prefs.Store, personId: int, username: string, name: string): (r: Prefs.Store)
    ensures forall k :: (k in s && k !in {"user_id", "username", "full_name", "first_name"}) ==> k in r && r[k] == s[k]
    ensures "user_id" in r && r["user_id"] == Prefs.PInt(personId)
    ensures "username" in r && r["username"] == Prefs.PString(username)
    ensures "full_name" in r && r["full_name"] == Prefs.PString(name)
    ensures "first_name" in r && r["first_name"] == Prefs.PString(SplitName(name).0)
  {
    s["user_id" := Prefs.PInt(personId)]
     ["username" := Prefs.PString(username)]
     ["full_name" := Prefs.PString(name)]
     ["first_name" := Prefs.PString(SplitName(name).0)]
  }

  /** The other four keys of the login session. */
  function SaveAccount(s: Prefs.Store, accountType: string, last: string, now: int): (r: Prefs.Store)
    ensures forall k :: (k in s && k !in {"last_name", "account_type", "is_logged_in", "login_time"}) ==> k in r && r[k] == s[k]
    ensures "last_name" in r && r["last_name"] == Prefs.PString(last)
    ensures "account_type" in r && r["account_type"] == Prefs.PString(accountType)
    ensures "is_logged_in" in r && r["is_logged_in"] == Prefs.PBool(true)
    ensures "login_time" in r && r["login_time"] == Prefs.PLong(now)
  {
    s["last_name" := Prefs.PString(last)]
     ["account_type" := Prefs.PString(accountType)]
     ["is_logged_in" := Prefs.PBool(true)]
     ["login_time" := Prefs.PLong(now)]
  }

  /** How a reply to the login request ends. */
  datatype Outcome =
    | EmptyResponse                 // "Empty Response"
    | HtmlResponse(preview: string) // "HTML Response Received", with the reply's first 200 characters
    | InvalidJson                   // "Invalid JSON"
    | LoginFailed(message: string)  // a toast with the server's message
    | DataError                     // "Data Error": the user object is incomplete
    | LoggedIn(prefs: Prefs.Store, welcome: string, dashboard: Dashboard)

  /** `handleResponse`: `parsed` is what `JSONObject(body)` gives (None where
      it throws); `prefs` is the "user_session" store before the call and
      `now` the clock. */
  function HandleResponse(body: string, parsed: Option<JObject>, prefs: Prefs.Store, now: int): (r: Outcome)
    ensures r.EmptyResponse? <==> body == ""
    ensures r.HtmlResponse? <==> body != "" && StartsWith(Trim(body), "<")
    ensures r.HtmlResponse? ==> r.preview == body[..if |body| < 200 then |body| else 200]
    ensures r.InvalidJson? <==> body != "" && !StartsWith(Trim(body), "<") && parsed.None?
    ensures r.LoginFailed? ==> parsed.Some? && !OptBoolean(parsed.value, "success", false)
    ensures r.LoginFailed? ==> r.message == OptString(parsed.value, "message", "Login failed")
    ensures body != "" && !StartsWith(Trim(body), "<") && parsed.Some? && "success" !in parsed.value ==>
      r == LoginFailed(OptString(parsed.value, "message", "Login failed"))
    ensures r.LoggedIn? || r.DataError? ==> parsed.Some? && OptBoolean(parsed.value, "success", false)
    ensures body != "" && !StartsWith(Trim(body), "<") && parsed.Some? && OptBoolean(parsed.value, "success", false) ==>
      r == HandleLoginSuccess(parsed.value, prefs, now)
  {
    if |body| == 0 then EmptyResponse
    else if StartsWith(Trim(body), "<") then HtmlResponse(body[..if |body| < 200 then |body| else 200])
    else if parsed.None? then InvalidJson
    else if !OptBoolean(parsed.value, "success", false) then
      LoginFailed(OptString(parsed.value, "message", "Login failed"))
    else HandleLoginSuccess(parsed.value, prefs, now)
  }

  /** `handleLoginSuccess`: the `user` object must hold `person_ID`,
      `username`, `account_type` and `name`; then the session is stored and
      the dashboard chosen by account type. */
  function HandleLoginSuccess(reply: JObject, prefs: Prefs.Store, now: int): (r: Outcome)
    ensures r.LoggedIn? || r.DataError?
    ensures r.LoggedIn? <==> var u := GetObject(reply, "user");
      u.Some? && GetInt(u.value, "person_ID").Some? && GetString(u.value, "username").Some?
      && GetString(u.value, "account_type").Some? && GetString(u.value, "name").Some?
  {
    var user := GetObject(reply, "user");
    if user.None? then DataError
    else
      var personId := GetInt(user.value, "person_ID");
      var username := GetString(user.value, "username");
      var accountType := GetString(user.value, "account_type");
      var name := GetString(user.value, "name");
      if personId.None? || username.None? || accountType.None? || name.None? then DataError
      else
        LoggedIn(SaveLogin(prefs, personId.value, username.value, accountType.value, name.value, now),
                 "Welcome, " + name.value + "!", Route(accountType.value))
  }

  /** A successful login stores the user as the reply gave it: reading the
      preferences back yields the id, the username, the account type, the
      full name with its first and last word, the flag and the time; the
      dashboard follows the account type. */
  lemma LoginStoresUser(reply: JObject, prefs: Prefs.Store, now: int, personId: int, username: string,
                        accountType: string, name: string)
    requires GetObject(reply, "user").Some?
    requires var u := GetObject(reply, "user").value;
      && GetInt(u, "person_ID") == Some(personId) && GetString(u, "username") == Some(username)
      && GetString(u, "account_type") == Some(accountType) && GetString(u, "name") == Some(name)
    ensures var r := HandleLoginSuccess(reply, prefs, now);
      && r.LoggedIn?
      && r.prefs == SaveLogin(prefs, personId, username, accountType, name, now)
      && r.dashboard == Route(accountType)
  {
  }
}
