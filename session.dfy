/** The login session of keep2.py (the same logic is in test_audio.py): the session state
    holds `authenticated`, `role` and `username`; logging in checks the user name, then
    compares the stored password hash with the hash of the entered password; logging out
    clears the three fields; the navigation offers, and routes to, the dashboard only to
    the admin role. */
module Session {

  /** A session-state value: Python's None, a boolean or a string. */
  datatype Value = NoValue | Flag(b: bool) | Str(s: string)

  /** An entry of users.json. */
  datatype User = User(password: string, role: string)

  /** The message the login form shows, or success. */
  datatype LoginResult = UsernameNotFound | IncorrectPassword | LoggedIn

  /** The page main() renders. */
  datatype Page = HomePage | FeedbackPage | DashboardPage | NoPage

  type State = map<string, Value>

  /** `authenticate` (keep2.py:100-105): each of the three keys that is missing gets its
      default (False, None, None); the keys already there keep their values. */
  function WithDefaults(st: State): (r: State)
    ensures r.Keys == st.Keys + {"authenticated", "role", "username"}
    ensures forall k :: k in st ==> r[k] == st[k]
    ensures "authenticated" !in st ==> r["authenticated"] == Flag(false)
    ensures "role" !in st ==> r["role"] == NoValue
    ensures "username" !in st ==> r["username"] == NoValue
  {
    var a := if "authenticated" in st then st else st["authenticated" := Flag(false)];
    var b := if "role" in a then a else a["role" := NoValue];
    if "username" in b then b else b["username" := NoValue]
  }

  /** Python truthiness of `st.session_state.authenticated`. */
  predicate Authenticated(st: State)
  {
    "authenticated" in st && (st["authenticated"] == Flag(true) || (st["authenticated"].Str? && st["authenticated"].s != ""))
  }

  /** The login branch (keep2.py:163-174): the result and the session afterwards. */
  function LoginStep(st: State, users: map<string, User>, username: string, password: string,
                     hash: string -> string): (r: (LoginResult, State))
    ensures username !in users ==> r == (UsernameNotFound, st)
    ensures username in users && users[username].password != hash(password) ==> r == (IncorrectPassword, st)
    ensures r.0 == LoggedIn <==> username in users && users[username].password == hash(password)
    ensures r.0 == LoggedIn ==>
              r.1 == st["authenticated" := Flag(true)]["role" := Str(users[username].role)]["username" := Str(username)]
  {
    if username in users then
      if users[username].password == hash(password) then
        (LoggedIn, st["authenticated" := Flag(true)]["role" := Str(users[username].role)]["username" := Str(username)])
      else (IncorrectPassword, st)
    else (UsernameNotFound, st)
  }

  /** `logout` (keep2.py:187-191). */
  function LoggedOut(st: State): (r: State)
    ensures r.Keys == st.Keys + {"authenticated", "role", "username"}
    ensures r["authenticated"] == Flag(false) && r["role"] == NoValue && r["username"] == NoValue
    ensures forall k :: k in st && k !in {"authenticated", "role", "username"} ==> r[k] == st[k]
  {
    st["authenticated" := Flag(false)]["role" := NoValue]["username" := NoValue]
  }

  /** What the three fields say together: a session is signed out with no role and no user,
      or signed in as a user of users.json with that user's role. */
  predicate Consistent(st: State, users: map<string, User>)
  {
    && "authenticated" in st && "role" in st && "username" in st
    && st["authenticated"].Flag?
    && (if st["authenticated"].b
        then st["username"].Str? && st["username"].s in users
             && st["role"] == Str(users[st["username"].s].role)
        else st["role"] == NoValue && st["username"] == NoValue)
  }

  /** A fresh session starts consistent, and logging in and out keep it so. */
  lemma FreshSessionConsistent(users: map<string, User>)
    ensures Consistent(WithDefaults(map[]), users)
  {
  }

  lemma LoginKeepsConsistent(st: State, users: map<string, User>, username: string, password: string,
                             hash: string -> string)
    requires Consistent(st, users)
    ensures Consistent(LoginStep(st, users, username, password, hash).1, users)
  {
  }

  lemma LogoutKeepsConsistent(st: State, users: map<string, User>)
    ensures Consistent(LoggedOut(st), users)
  {
  }

  /** Logging out forgets everything a login set: logging in and then out leaves the
      session as logging out alone would. */
  lemma LogoutUndoesLogin(st: State, users: map<string, User>, username: string, password: string,
                          hash: string -> string)
    ensures LoggedOut(LoginStep(st, users, username, password, hash).1) == LoggedOut(st)
  {
    var r := LoginStep(st, users, username, password, hash);
    if r.0 == LoggedIn {
      assert LoggedOut(r.1) == LoggedOut(st);
    }
  }

  /** The sidebar menu (keep2.py:796-807): "Review Feedback" only for the admin role. */
  function MenuOptions(role: Value): (r: seq<string>)
    ensures "Review Feedback" in r <==> role == Str("admin")
    ensures "Home" in r && "Visitor Feedback" in r
  {
    if role == Str("admin") then ["Home", "Visitor Feedback", "Review Feedback"]
    else ["Home", "Visitor Feedback"]
  }

  /** The routing at the end of main (keep2.py:840-845). */
  function Route(menu: string, role: Value): Page
  {
    if menu == "Home" then HomePage
    else if menu == "Visitor Feedback" then FeedbackPage
    else if menu == "Review Feedback" && role == Str("admin") then DashboardPage
    else NoPage
  }

  /** Only the admin role reaches the dashboard, and every option the menu offers a role
      leads to a page. */
  lemma DashboardOnlyForAdmin(menu: string, role: Value)
    ensures Route(menu, role) == DashboardPage <==> menu == "Review Feedback" && role == Str("admin")
    ensures menu in MenuOptions(role) ==> Route(menu, role) != NoPage
  {
  }

  /** After a successful login the dashboard is offered exactly when users.json gives the
      user the admin role. */
  lemma LoginThenDashboard(st: State, users: map<string, User>, username: string, password: string,
                           hash: string -> string)
    requires LoginStep(st, users, username, password, hash).0 == LoggedIn
    ensures var after := LoginStep(st, users, username, password, hash).1;
            "Review Feedback" in MenuOptions(after["role"]) <==> users[username].role == "admin"
  {
  }

  /** The users file keep2.py writes when there is none (keep2.py:23-34). */
  function DefaultUsers(hash: string -> string): (users: map<string, User>)
    ensures users.Keys == {"admin", "visitor"}
    ensures users["admin"].role == "admin" && users["visitor"].role == "visitor"
  {
    map["admin" := User(hash("admin123"), "admin"), "visitor" := User(hash("visitor123"), "visitor")]
  }

  /** With the default users, logging in as admin with its password offers the dashboard,
      and logging in as visitor with its password does not. */
  lemma DefaultLogins(st: State, hash: string -> string)
    ensures var r := LoginStep(st, DefaultUsers(hash), "admin", "admin123", hash);
            r.0 == LoggedIn && "Review Feedback" in MenuOptions(r.1["role"])
    ensures var r := LoginStep(st, DefaultUsers(hash), "visitor", "visitor123", hash);
            r.0 == LoggedIn && "Review Feedback" !in MenuOptions(r.1["role"])
  {
  }

  /** The session state of a browser session. */
  class SessionState {
    var state: State

    constructor (st: State)
      ensures state == st
    {
      state := st;
    }

    /** keep2.py:100-105 */
    method EnsureDefaults()
      modifies this
      ensures state == WithDefaults(old(state))
    {
      if "authenticated" !in state {
        state := state["authenticated" := Flag(false)];
      }
      if "role" !in state {
        state := state["role" := NoValue];
      }
      if "username" !in state {
        state := state["username" := NoValue];
      }
    }

    /** keep2.py:163-174, the password hashed by hash. */
    method SubmitLogin(users: map<string, User>, username: string, password: string,
                       hash: string -> string) returns (result: LoginResult)
      modifies this
      ensures (result, state) == LoginStep(old(state), users, username, password, hash)
    {
      if username in users {
        var hashedPassword := hash(password);
        if users[username].password == hashedPassword {
          state := state["authenticated" := Flag(true)];
          state := state["role" := Str(users[username].role)];
          state := state["username" := Str(username)];
          result := LoggedIn;
        } else {
          result := IncorrectPassword;
        }
      } else {
        result := UsernameNotFound;
      }
    }

    /** keep2.py:187-191 */
    method Logout()
      modifies this
      ensures state == LoggedOut(old(state))
    {
      state := state["authenticated" := Flag(false)];
      state := state["role" := NoValue];
      state := state["username" := NoValue];
    }

    /** `authenticate` (keep2.py:99-185): the defaults, then the login form when the
        session is not signed in, attempt being the submitted form if any. It lets the
        page through exactly when the session was already signed in. */
    method Authenticate(users: map<string, User>, attempt: Option<(string, string)>,
                        hash: string -> string) returns (passed: bool)
      modifies this
      ensures passed <==> Authenticated(WithDefaults(old(state)))
      ensures passed ==> state == WithDefaults(old(state))
      ensures !passed && attempt.Some? ==>
                state == LoginStep(WithDefaults(old(state)), users, attempt.value.0, attempt.value.1, hash).1
      ensures !passed && attempt.None? ==> state == WithDefaults(old(state))
    {
      EnsureDefaults();
      if !Authenticated(state) {
        if attempt.Some? {
          var _ := SubmitLogin(users, attempt.value.0, attempt.value.1, hash);
        }
        return false;
      }
      return true;
    }
  }

  datatype Option<T> = None | Some(value: T)
}
