/**
 * The authentication service: the current user, the loading flag, the mock
 * credential registry, and persistence of the user under one storage key.
 *
 * The service's signals become one immutable `AuthState`; every operation is a
 * transition from one state to the next. Router navigations are returned as
 * `Effect`s. The storage slot holding the user is part of the state, because
 * the restore at startup reads back what login wrote.
 */
module AuthService {
  import opened Wrappers
  import opened Effects

  datatype Role = Admin | User | Guest

  /** The role's string literal, as `hasRole` compares it. */
  function RoleName(r: Role): string {
    match r
    case Admin => "admin"
    case User => "user"
    case Guest => "guest"
  }

  datatype AuthUser = AuthUser(id: int, email: string, name: string, role: Role)

  /** One registry entry: the expected password and the user it logs in. */
  datatype Credential = Credential(password: string, user: AuthUser)

  const StorageKey := "angular_poc_user"
  const LoginRoute := ["/login"]
  const SuccessMessage := "Login realizado com sucesso!"
  const FailureMessage := "Email ou senha inválidos!"

  /**
   * The value under `StorageKey`: no item; an empty string (falsy, so restore
   * skips it); the serialization of a user; or text that does not parse.
   */
  datatype Stored = Missing | Blank | Serialized(user: AuthUser) | Malformed

  datatype AuthState = AuthState(currentUser: Option<AuthUser>, isLoading: bool, stored: Stored)

  datatype LoginResult = LoginResult(success: bool, message: string)
  datatype LoginOutcome = LoginOutcome(state: AuthState, result: LoginResult)
  datatype LogoutOutcome = LogoutOutcome(state: AuthState, effects: seq<Effect>)
  datatype RefreshOutcome = RefreshOutcome(state: AuthState, refreshed: bool)

  /** The fixed credential registry consulted by login. */
  function Registry(): map<string, Credential> {
    map[
      "admin@angular.com" := Credential("admin123", AuthUser(1, "admin@angular.com", "Administrador", Admin)),
      "user@angular.com" := Credential("user123", AuthUser(2, "user@angular.com", "Usuário Regular", User)),
      "guest@angular.com" := Credential("guest123", AuthUser(3, "guest@angular.com", "Convidado", Guest))
    ]
  }

  /** The email is registered and the password is the one registered for it. */
  predicate ValidCredentials(email: string, password: string) {
    email in Registry() && Registry()[email].password == password
  }

  // ---------------------------------------------------------------- derived facts

  /** `isAuthenticated`: a user is present. */
  predicate IsAuthenticated(s: AuthState) {
    s.currentUser.Some?
  }

  /** `isAdmin`: a user is present and that user's role is admin. */
  predicate IsAdmin(s: AuthState) {
    s.currentUser.Some? && s.currentUser.value.role == Admin
  }

  /** Admins hold every role; anyone else holds exactly their own role; nobody holds a role while logged out. */
  function HasRole(s: AuthState, role: string): (r: bool)
    ensures r ==> IsAuthenticated(s)
    ensures IsAdmin(s) ==> r
    ensures IsAuthenticated(s) && !IsAdmin(s) ==> (r <==> RoleName(s.currentUser.value.role) == role)
  {
    match s.currentUser
    case None => false
    case Some(user) => if user.role == Admin then true else RoleName(user.role) == role
  }

  // ---------------------------------------------------------------- storage

  /** Writes the user's serialization; a write that throws is swallowed and leaves storage as it was. */
  function SaveUserToStorage(stored: Stored, user: AuthUser, writable: bool): (r: Stored)
    ensures writable ==> r.Serialized? && r.user == user
    ensures !writable ==> r == stored
  {
    if writable then Serialized(user) else stored
  }

  /**
   * The service as constructed at startup: no user, not loading, then the
   * stored value restored. A malformed value is removed; restore never fails.
   */
  function Restore(stored: Stored): (s: AuthState)
    ensures !s.isLoading
    ensures s.currentUser.Some? <==> stored.Serialized?
    ensures stored.Serialized? ==> s.currentUser == Some(stored.user)
    ensures stored.Malformed? ==> s.stored == Missing
    ensures !stored.Malformed? ==> s.stored == stored
  {
    match stored
    case Missing => AuthState(None, false, Missing)
    case Blank => AuthState(None, false, Blank)
    case Serialized(user) => AuthState(Some(user), false, stored)
    case Malformed => AuthState(None, false, Missing)
  }

  // ---------------------------------------------------------------- login and logout

  /** The synchronous part of login, before the simulated delay: loading is raised, nothing else changes. */
  function LoginStart(s: AuthState): (t: AuthState)
    ensures t.isLoading
    ensures t.currentUser == s.currentUser && t.stored == s.stored
  {
    s.(isLoading := true)
  }

  /** The part of login after the delay: the registry check and its two outcomes. */
  function LoginFinish(s: AuthState, email: string, password: string, writable: bool): (out: LoginOutcome)
    ensures !out.state.isLoading
    ensures ValidCredentials(email, password) ==>
      && out.state.currentUser == Some(Registry()[email].user)
      && out.state.stored == SaveUserToStorage(s.stored, Registry()[email].user, writable)
      && out.result == LoginResult(true, SuccessMessage)
    ensures !ValidCredentials(email, password) ==>
      && out.state.currentUser == s.currentUser
      && out.state.stored == s.stored
      && out.result == LoginResult(false, FailureMessage)
  {
    if email in Registry() && Registry()[email].password == password then
      var user := Registry()[email].user;
      LoginOutcome(AuthState(Some(user), false, SaveUserToStorage(s.stored, user, writable)),
                   LoginResult(true, SuccessMessage))
    else
      LoginOutcome(s.(isLoading := false), LoginResult(false, FailureMessage))
  }

  /** `login(email, password)`, with the delay taken as one atomic step. */
  function Login(s: AuthState, email: string, password: string, writable: bool): (out: LoginOutcome)
    ensures !out.state.isLoading
    ensures out.result.success <==> ValidCredentials(email, password)
    ensures out.result.success ==> out.state.currentUser == Some(Registry()[email].user)
    ensures out.result.success && writable ==> out.state.stored == Serialized(Registry()[email].user)
    ensures !out.result.success ==> out.state == s.(isLoading := false)
  {
    LoginFinish(LoginStart(s), email, password, writable)
  }

  /** Clears the user, removes the stored record and navigates to the login page, from any state. */
  function Logout(s: AuthState): (out: LogoutOutcome)
    ensures !IsAuthenticated(out.state)
    ensures out.state.stored == Missing
    ensures out.state.isLoading == s.isLoading
    ensures out.effects == [Navigate(LoginRoute)]
  {
    LogoutOutcome(AuthState(None, s.isLoading, Missing), [Navigate(LoginRoute)])
  }

  /**
   * `refreshToken()`: false without a user, true with one, and the state is kept.
   * The simulated delay cannot reject, so the catch branch that logs out is unreachable.
   */
  function RefreshToken(s: AuthState): (out: RefreshOutcome)
    ensures out.refreshed <==> IsAuthenticated(s)
    ensures out.state == s
  {
    match s.currentUser
    case None => RefreshOutcome(s, false)
    case Some(_) => RefreshOutcome(s, true)
  }

  // ---------------------------------------------------------------- properties

  /** A successful login persists its user so that a fresh service restores exactly that user. */
  lemma LoginThenRestore(s: AuthState, email: string, password: string)
    requires ValidCredentials(email, password)
    ensures var out := Login(s, email, password, true);
            Restore(out.state.stored).currentUser == out.state.currentUser
  {
  }

  /** An unknown email and a wrong password produce the same result and the same state. */
  lemma FailedLoginsIndistinguishable(s: AuthState, email1: string, password1: string,
                                      email2: string, password2: string, w1: bool, w2: bool)
    requires email1 !in Registry()
    requires email2 in Registry() && Registry()[email2].password != password2
    ensures Login(s, email1, password1, w1) == Login(s, email2, password2, w2)
    ensures Login(s, email1, password1, w1).result == LoginResult(false, FailureMessage)
  {
  }

  /** Logging out twice is logging out once, apart from the second redirect. */
  lemma LogoutIdempotent(s: AuthState)
    ensures Logout(Logout(s).state).state == Logout(s).state
    ensures Logout(Logout(s).state).effects == Logout(s).effects
  {
  }

  /** The `hasRole('user')` table: admin and user hold it; guests and anonymous sessions do not. */
  lemma HasUserRole(s: AuthState)
    ensures HasRole(s, "user") <==> s.currentUser.Some? && s.currentUser.value.role in {Admin, User}
  {
  }

  /** Being an admin is the same as holding the role "admin". */
  lemma AdminIffHasAdminRole(s: AuthState)
    ensures IsAdmin(s) <==> HasRole(s, "admin")
  {
  }

  /** After login, someone is signed in exactly when the credentials were valid or someone already was. */
  lemma LoginAuthenticates(s: AuthState, email: string, password: string, writable: bool)
    ensures IsAuthenticated(Login(s, email, password, writable).state)
            <==> ValidCredentials(email, password) || IsAuthenticated(s)
    ensures IsAdmin(Login(s, email, password, writable).state)
            <==> if ValidCredentials(email, password) then Registry()[email].user.role == Admin else IsAdmin(s)
  {
  }

  /** After logout nobody is signed in, so nobody is an admin either. */
  lemma LogoutDeauthenticates(s: AuthState)
    ensures !IsAuthenticated(Logout(s).state)
    ensures !IsAdmin(Logout(s).state)
  {
  }

  /** At startup someone is signed in exactly when a user was stored, and is an admin exactly when that user is. */
  lemma RestoreAuthenticates(stored: Stored)
    ensures IsAuthenticated(Restore(stored)) <==> stored.Serialized?
    ensures IsAdmin(Restore(stored)) <==> stored.Serialized? && stored.user.role == Admin
  {
  }

  /** Every registry entry is filed under its own user's email. */
  lemma RegistryKeyedByEmail(email: string)
    requires email in Registry()
    ensures Registry()[email].user.email == email
  {
  }
}
