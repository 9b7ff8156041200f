/**
 * The signed-in session: a reducer over `{user, token, isAuthenticated,
 * isLoading}` driven by five actions, the fixed-credential login, logout, and
 * the startup decision that restores a session from browser storage.
 *
 * Storage holds the token and the user as JSON text. JSON itself is not
 * modelled: `stringify` and `parse` are parameters, and `parse` answers
 * `None` when the text does not parse, `Some(None)` for the text `null`, and
 * `Some(Some(u))` for a user.
 */
module Auth {
  import opened Outcomes

  // ---------------------------------------------------------------- shapes

  datatype AuthUser = AuthUser(
    id: string,
    username: string,
    email: string,
    firstName: string,
    lastName: string,
    role: string,
    tenantId: string,
    organizationId: Option<string>)

  datatype AuthState = AuthState(user: Option<AuthUser>, token: Option<string>, isAuthenticated: bool, isLoading: bool)

  /**
   * The actions. The user of a restored session is whatever the stored text
   * parsed to, so it may be `null`.
   */
  datatype AuthAction =
    | LoginStart
    | LoginSuccess(user: AuthUser, token: string)
    | LoginFailure
    | Logout
    | RestoreSession(restored: Option<AuthUser>, token: string)

  /** The two browser-storage entries, `auth_token` and `auth_user`. */
  datatype Storage = Storage(token: Option<string>, user: Option<string>)

  /** The invariant: signed in exactly when both a user and a token are held. */
  predicate Consistent(s: AuthState) {
    s.isAuthenticated <==> s.user.Some? && s.token.Some?
  }

  /** An action that carries a user whenever it signs in. */
  predicate Admissible(a: AuthAction) {
    a.RestoreSession? ==> a.restored.Some?
  }

  /** The state before startup has run. */
  function Initial(): (s: AuthState)
    ensures Consistent(s) && !s.isAuthenticated && s.isLoading
  {
    AuthState(None, None, false, true)
  }

  // ---------------------------------------------------------------- the reducer

  /** `authReducer(state, action)`. */
  function Reduce(s: AuthState, a: AuthAction): (r: AuthState)
    ensures a.LoginStart? ==> r.user == s.user && r.token == s.token && r.isAuthenticated == s.isAuthenticated && r.isLoading
    ensures !a.LoginStart? ==> !r.isLoading
    ensures Consistent(s) && Admissible(a) ==> Consistent(r)
    ensures a.LoginFailure? || a.Logout? ==> !r.isAuthenticated && r.user.None? && r.token.None?
    ensures a.LoginSuccess? || a.RestoreSession? ==> r.isAuthenticated && r.token == Some(a.token)
    ensures a.LoginSuccess? ==> r.user == Some(a.user)
    ensures a.RestoreSession? ==> r.user == a.restored
  {
    match a
    case LoginStart => s.(isLoading := true)
    case LoginSuccess(u, t) => s.(user := Some(u), token := Some(t), isAuthenticated := true, isLoading := false)
    case LoginFailure => s.(user := None, token := None, isAuthenticated := false, isLoading := false)
    case Logout => s.(user := None, token := None, isAuthenticated := false, isLoading := false)
    case RestoreSession(u, t) => s.(user := u, token := Some(t), isAuthenticated := true, isLoading := false)
  }

  /** A sign-in and a restore of the same user and token end in the same state. */
  lemma SuccessIsRestore(s: AuthState, u: AuthUser, t: string)
    ensures Reduce(s, LoginSuccess(u, t)) == Reduce(s, RestoreSession(Some(u), t))
  {
  }

  /** A failed sign-in and a sign-out end in the same state, whatever the state before. */
  lemma FailureIsLogout(s: AuthState, s': AuthState)
    ensures Reduce(s, LoginFailure) == Reduce(s', Logout)
  {
  }

  /** Failing twice, or signing out twice, is doing it once. */
  lemma ClearIdempotent(s: AuthState, a: AuthAction)
    requires a.LoginFailure? || a.Logout?
    ensures Reduce(Reduce(s, a), a) == Reduce(s, a)
  {
  }

  /** The state after a run of actions. */
  function Run(s: AuthState, actions: seq<AuthAction>): AuthState
    decreases |actions|
  {
    if |actions| == 0 then s else Run(Reduce(s, actions[0]), actions[1..])
  }

  /** Every run of admissible actions from the initial state keeps the invariant. */
  lemma {:induction false} RunConsistent(s: AuthState, actions: seq<AuthAction>)
    requires Consistent(s)
    requires forall k :: 0 <= k < |actions| ==> Admissible(actions[k])
    ensures Consistent(Run(s, actions))
    decreases |actions|
  {
    if |actions| > 0 {
      RunConsistent(Reduce(s, actions[0]), actions[1..]);
    }
  }

  /** Only a run that ends in `LOGIN_START` can leave the state loading. */
  lemma {:induction false} RunLoading(s: AuthState, actions: seq<AuthAction>)
    requires |actions| > 0 && !actions[|actions| - 1].LoginStart?
    ensures !Run(s, actions).isLoading
    decreases |actions|
  {
    if |actions| > 1 {
      RunLoading(Reduce(s, actions[0]), actions[1..]);
    }
  }

  // ---------------------------------------------------------------- signing in and out

  const AdminName := "admin@system.com"
  const AdminPassword := "admin123"
  const TokenPrefix := "mock-jwt-token-"

  /** The one account the mock accepts. */
  const Admin := AuthUser("1", AdminName, AdminName, "System", "Administrator", "System Admin", "tenant-1", None)

  /** The credential test both login paths share. */
  predicate ValidCredentials(username: string, password: string) {
    username == AdminName && password == AdminPassword
  }

  /** `mockApiService.login(username, password)`, with `Date.now()` passed in as `clock`. */
  function ApiLogin(username: string, password: string, clock: string): (r: Result<(string, AuthUser)>)
    ensures r.Success? <==> ValidCredentials(username, password)
    ensures r.Failure? ==> r.message == "Invalid credentials"
    ensures r.Success? ==> r.value.1 == Admin && r.value.0 == TokenPrefix + clock
  {
    if username == AdminName && password == AdminPassword then Success((TokenPrefix + clock, Admin))
    else Failure("Invalid credentials")
  }

  /** What `login` returns, the state it leaves and the storage it leaves. */
  datatype LoginRun = LoginRun(ok: bool, state: AuthState, storage: Storage)

  /** `login(username, password)` in the provider: start, then succeed and store, or fail. */
  function Login(s: AuthState, store: Storage, username: string, password: string, clock: string, stringify: AuthUser -> string): (r: LoginRun)
    ensures r.ok <==> ValidCredentials(username, password)
    ensures r.ok ==> r.state.user == Some(Admin) && r.state.token == Some(TokenPrefix + clock) && r.state.isAuthenticated
    ensures r.ok ==> r.storage == Storage(Some(TokenPrefix + clock), Some(stringify(Admin)))
    ensures !r.ok ==> r.state.user.None? && r.state.token.None? && !r.state.isAuthenticated && r.storage == store
    ensures !r.state.isLoading && Consistent(r.state)
  {
    var started := Reduce(s, LoginStart);
    if username == AdminName && password == AdminPassword then
      var token := TokenPrefix + clock;
      LoginRun(true, Reduce(started, LoginSuccess(Admin, token)), Storage(Some(token), Some(stringify(Admin))))
    else
      LoginRun(false, Reduce(started, LoginFailure), store)
  }

  /** The provider's login and the API's login accept the same credentials and hand out the same user and token. */
  lemma LoginsAgree(s: AuthState, store: Storage, username: string, password: string, clock: string, stringify: AuthUser -> string)
    ensures Login(s, store, username, password, clock, stringify).ok <==> ApiLogin(username, password, clock).Success?
    ensures ApiLogin(username, password, clock).Success? ==>
      var (token, user) := ApiLogin(username, password, clock).value;
      Login(s, store, username, password, clock, stringify).state.user == Some(user)
        && Login(s, store, username, password, clock, stringify).state.token == Some(token)
  {
  }

  /** `logout()`: both storage entries go and the state is cleared. */
  function SignOut(s: AuthState): (r: (AuthState, Storage))
    ensures r.1.token.None? && r.1.user.None?
    ensures !r.0.isAuthenticated && r.0.user.None? && r.0.token.None? && !r.0.isLoading
  {
    (Reduce(s, Logout), Storage(None, None))
  }

  // ---------------------------------------------------------------- restoring a session

  /** What startup does to storage and which action it dispatches. */
  datatype Restore = Restore(storage: Storage, action: AuthAction)

  /**
   * The startup decision as the provider makes it: with a token and a user
   * text both present, dispatch the parsed user, or clear storage and fail
   * when the text does not parse; otherwise fail. A stored `null` user is
   * dispatched as it is.
   */
  function DecideRestore(store: Storage, parse: string -> Option<Option<AuthUser>>): (r: Restore)
    ensures r.action.RestoreSession? <==> Truthy(store.token) && Truthy(store.user) && parse(store.user.value).Some?
    ensures r.action.RestoreSession? ==> r.action == RestoreSession(parse(store.user.value).value, store.token.value) && r.storage == store
    ensures !r.action.RestoreSession? ==> r.action == LoginFailure
    ensures r.storage != store ==> r.storage == Storage(None, None)
    ensures Truthy(store.token) && Truthy(store.user) && parse(store.user.value).None? ==> r.storage == Storage(None, None)
    ensures !(Truthy(store.token) && Truthy(store.user)) ==> r.storage == store
  {
    if Truthy(store.token) && Truthy(store.user) then
      match parse(store.user.value)
      case Some(u) => Restore(store, RestoreSession(u, store.token.value))
      case None => Restore(Storage(None, None), LoginFailure)
    else Restore(store, LoginFailure)
  }

  /** A stored `null` user restores a session that claims to be signed in without a user. */
  lemma NullUserBreaksInvariant()
    ensures var r := DecideRestore(Storage(Some("t"), Some("null")), (text: string) => Some(None));
      !Consistent(Reduce(Initial(), r.action))
  {
    var r := DecideRestore(Storage(Some("t"), Some("null")), (text: string) => Some(None));
    assert r.action == RestoreSession(None, "t");
  }

  /**
   * The startup decision that keeps the invariant: a stored `null` user is
   * treated like text that does not parse.
   */
  function DecideRestoreChecked(store: Storage, parse: string -> Option<Option<AuthUser>>): (r: Restore)
    ensures Admissible(r.action)
    ensures r.action.RestoreSession? <==> Truthy(store.token) && Truthy(store.user) && parse(store.user.value).Some? && parse(store.user.value).value.Some?
    ensures r.action.RestoreSession? ==> r.action == RestoreSession(parse(store.user.value).value, store.token.value) && r.storage == store
    ensures !r.action.RestoreSession? ==> r.action == LoginFailure
  {
    if Truthy(store.token) && Truthy(store.user) then
      match parse(store.user.value)
      case Some(Some(u)) => Restore(store, RestoreSession(Some(u), store.token.value))
      case _ => Restore(Storage(None, None), LoginFailure)
    else Restore(store, LoginFailure)
  }

  /** The checked decision differs from the provider's only on a stored `null` user. */
  lemma CheckedDiffersOnlyOnNull(store: Storage, parse: string -> Option<Option<AuthUser>>)
    requires !(Truthy(store.token) && Truthy(store.user) && parse(store.user.value) == Some(None))
    ensures DecideRestoreChecked(store, parse) == DecideRestore(store, parse)
  {
  }

  /**
   * Startup as the provider runs it: the state it reaches from the initial
   * one and the storage it leaves. A stored `null` user signs in without a
   * user.
   */
  function StartupAsWritten(store: Storage, parse: string -> Option<Option<AuthUser>>): (r: (AuthState, Storage))
    ensures !r.0.isLoading
    ensures r.0.isAuthenticated <==> Truthy(store.token) && Truthy(store.user) && parse(store.user.value).Some?
    ensures r.0.isAuthenticated ==> r.0.user == parse(store.user.value).value && r.0.token == store.token && r.1 == store
    ensures !r.0.isAuthenticated ==> r.0 == AuthState(None, None, false, false)
  {
    var d := DecideRestore(store, parse);
    (Reduce(Initial(), d.action), d.storage)
  }

  /** Startup with the checked decision: the state it reaches from the initial one. */
  function Startup(store: Storage, parse: string -> Option<Option<AuthUser>>): (r: (AuthState, Storage))
    ensures Consistent(r.0) && !r.0.isLoading
    ensures r.0.isAuthenticated <==> Truthy(store.token) && Truthy(store.user) && parse(store.user.value).Some? && parse(store.user.value).value.Some?
    ensures r.0.isAuthenticated ==> r.0.user == parse(store.user.value).value && r.0.token == store.token && r.1 == store
  {
    var d := DecideRestoreChecked(store, parse);
    (Reduce(Initial(), d.action), d.storage)
  }

  /** The two startups agree everywhere except on a stored `null` user. */
  lemma StartupsAgree(store: Storage, parse: string -> Option<Option<AuthUser>>)
    requires !(Truthy(store.token) && Truthy(store.user) && parse(store.user.value) == Some(None))
    ensures StartupAsWritten(store, parse) == Startup(store, parse)
  {
    CheckedDiffersOnlyOnNull(store, parse);
  }

  /** With token `t` and user text `null`, the provider signs in without a user; the checked startup stays signed out. */
  lemma NullUserStartup()
    ensures var parse := (text: string) => Some(None);
      var written := StartupAsWritten(Storage(Some("t"), Some("null")), parse).0;
      written.isAuthenticated && written.user.None? && !Consistent(written)
        && !Startup(Storage(Some("t"), Some("null")), parse).0.isAuthenticated
  {
  }

  /** Signing in, then starting afresh from what was stored, restores the same session. */
  lemma LoginThenStartup(s: AuthState, store: Storage, clock: string, stringify: AuthUser -> string, parse: string -> Option<Option<AuthUser>>)
    requires parse(stringify(Admin)) == Some(Some(Admin))
    requires stringify(Admin) != ""
    ensures var run := Login(s, store, AdminName, AdminPassword, clock, stringify);
      Startup(run.storage, parse).0 == run.state
  {
    var run := Login(s, store, AdminName, AdminPassword, clock, stringify);
    assert run.storage.token == Some(TokenPrefix + clock);
    assert (TokenPrefix + clock)[0] == 'm';
  }

  /** Signing out, then starting afresh, comes up signed out. */
  lemma LogoutThenStartup(s: AuthState, parse: string -> Option<Option<AuthUser>>)
    ensures Startup(SignOut(s).1, parse).0 == SignOut(s).0
  {
  }
}
