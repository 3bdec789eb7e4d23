/**
 * The client's authentication store: the signed-in user and token, the
 * role predicates derived from them, and the transitions login, register,
 * logout and initialisation from the browser's saved session.
 *
 * The HTTP exchange is abstracted to its outcome (`Reply`), and the
 * browser's saved session is a value (`Saved`) rather than global storage.
 */
module Auth {
  import opened Options

  datatype Role = Admin | Teacher | Student

  datatype User = User(id: int, email: string, name: string, role: Role)

  datatype AuthState = AuthState(
    user: Option<User>,
    token: string,
    isLoading: bool,
    error: Option<string>)

  /** The two saved entries, `user` (already parsed) and `token`. */
  datatype Saved = Saved(user: Option<User>, token: Option<string>)

  /** The store plus what it has saved. */
  datatype Client = Client(state: AuthState, saved: Saved)

  /** What a login or register request came back with. */
  datatype Reply =
    | Accepted(user: User, token: string)   // response.ok, JSON body {user, token}
    | Rejected(serverError: Option<string>) // !response.ok, JSON body's `error` field
    | Threw(message: string)                // the request or body parsing raised an Error

  const LoginFailed: string := "Login failed"
  const RegistrationFailed: string := "Registration failed"

  /** A fresh store: the token is the saved one or the empty string, nobody signed in. */
  function Fresh(saved: Saved): (s: AuthState)
    ensures s.user.None? && !s.isLoading && s.error.None?
    ensures s.token == if saved.token.Some? then saved.token.value else ""
    ensures IsAuthenticated(s) <==> saved.token.Some? && saved.token.value != ""
  {
    AuthState(None, saved.token.GetOr(""), false, None)
  }

  /** `isAuthenticated`: a non-empty token, whoever the user is. */
  predicate IsAuthenticated(s: AuthState) {
    s.token != ""
  }

  /** `userRole`. */
  function UserRole(s: AuthState): (r: Option<Role>)
    ensures r.None? <==> s.user.None?
    ensures r.Some? ==> r.value == s.user.value.role
  {
    match s.user
    case None => None
    case Some(u) => Some(u.role)
  }

  predicate IsAdmin(s: AuthState) {
    UserRole(s) == Some(Admin)
  }

  /** Teachers and administrators both count as teachers. */
  predicate IsTeacher(s: AuthState) {
    UserRole(s) == Some(Teacher) || UserRole(s) == Some(Admin)
  }

  predicate IsStudent(s: AuthState) {
    UserRole(s) == Some(Student)
  }

  /**
   * What the role predicates say: every administrator is a teacher, a
   * signed-in user is a teacher or a student but not both, and nobody
   * signed in has no role at all. None of them looks at the token.
   */
  lemma RolePredicates(s: AuthState)
    ensures IsAdmin(s) ==> IsTeacher(s)
    ensures s.user.Some? ==> (IsTeacher(s) <==> !IsStudent(s))
    ensures s.user.None? ==> !IsAdmin(s) && !IsTeacher(s) && !IsStudent(s)
    ensures forall t :: IsTeacher(s.(token := t)) == IsTeacher(s) && IsAdmin(s.(token := t)) == IsAdmin(s)
    ensures forall u :: IsAuthenticated(s.(user := u)) == IsAuthenticated(s)
  {
  }

  /** The message stored when a request fails. */
  function FailureMessage(reply: Reply, fallback: string): (m: string)
    requires !reply.Accepted?
    ensures reply.Rejected? && reply.serverError.Some? && reply.serverError.value != "" ==> m == reply.serverError.value
    ensures reply.Rejected? && (reply.serverError.None? || reply.serverError.value == "") ==> m == fallback
    ensures reply.Threw? ==> m == reply.message
  {
    match reply
    case Rejected(e) => if e.Some? && e.value != "" then e.value else fallback
    case Threw(msg) => msg
  }

  /**
   * The shared body of `login` and `register`: an accepted reply signs the
   * user in and saves the session; any other reply records an error and
   * leaves the session as it was. Loading is over either way.
   */
  function Authenticate(c: Client, reply: Reply, fallback: string): (r: (Client, bool))
    ensures !r.0.state.isLoading
    ensures r.1 <==> reply.Accepted?
    ensures reply.Accepted? ==>
      && r.0.state.user == Some(reply.user)
      && r.0.state.token == reply.token
      && r.0.state.error.None?
      && r.0.saved == Saved(Some(reply.user), Some(reply.token))
    ensures !reply.Accepted? ==>
      && r.0.state.user == c.state.user
      && r.0.state.token == c.state.token
      && r.0.state.error == Some(FailureMessage(reply, fallback))
      && r.0.saved == c.saved
  {
    var pending := c.state.(isLoading := true, error := None);
    match reply
    case Accepted(u, t) =>
      (Client(pending.(user := Some(u), token := t, isLoading := false), Saved(Some(u), Some(t))), true)
    case _ =>
      (Client(pending.(error := Some(FailureMessage(reply, fallback)), isLoading := false), c.saved), false)
  }

  /** `login`. */
  function Login(c: Client, reply: Reply): (r: (Client, bool))
    ensures r.1 <==> reply.Accepted?
    ensures reply.Rejected? && (reply.serverError.None? || reply.serverError.value == "") ==>
      r.0.state.error == Some(LoginFailed)
    ensures reply.Accepted? && reply.token != "" ==> IsAuthenticated(r.0.state)
  {
    Authenticate(c, reply, LoginFailed)
  }

  /** `register`. */
  function Register(c: Client, reply: Reply): (r: (Client, bool))
    ensures r.1 <==> reply.Accepted?
    ensures reply.Rejected? && (reply.serverError.None? || reply.serverError.value == "") ==>
      r.0.state.error == Some(RegistrationFailed)
    ensures reply.Accepted? && reply.token != "" ==> IsAuthenticated(r.0.state)
  {
    Authenticate(c, reply, RegistrationFailed)
  }

  /** `logout`: forgets the user, the token, the error and the saved session. */
  function Logout(c: Client): (r: Client)
    ensures r.state.user.None? && r.state.error.None?
    ensures !IsAuthenticated(r.state)
    ensures UserRole(r.state).None?
    ensures r.state.isLoading == c.state.isLoading
    ensures r.saved == Saved(None, None)
  {
    Client(c.state.(user := None, token := "", error := None), Saved(None, None))
  }

  /**
   * `initializeAuth`: restores user and token when both saved entries are
   * present (an empty saved token counts as absent); otherwise changes
   * nothing.
   */
  function InitializeAuth(c: Client): (r: Client)
    ensures r.saved == c.saved
    ensures c.saved.user.Some? && c.saved.token.Some? && c.saved.token.value != "" ==>
      r.state == c.state.(user := c.saved.user, token := c.saved.token.value)
    ensures !(c.saved.user.Some? && c.saved.token.Some? && c.saved.token.value != "") ==> r == c
  {
    match (c.saved.user, c.saved.token)
    case (Some(u), Some(t)) =>
      if t != "" then Client(c.state.(user := Some(u), token := t), c.saved) else c
    case _ => c
  }

  /** A page load: a fresh store over the saved session, then `initializeAuth`. */
  function Reload(c: Client): Client {
    InitializeAuth(Client(Fresh(c.saved), c.saved))
  }

  /** A successful sign-in with a non-empty token survives a page reload. */
  lemma LoginSurvivesReload(c: Client, reply: Reply)
    requires reply.Accepted? && reply.token != ""
    ensures var after := Reload(Login(c, reply).0);
      && after.state.user == Some(reply.user)
      && after.state.token == reply.token
      && IsAuthenticated(after.state)
  {
  }

  /** After logging out, a page reload finds nobody signed in. */
  lemma LogoutSurvivesReload(c: Client)
    ensures var after := Reload(Logout(c));
      !IsAuthenticated(after.state) && after.state.user.None?
  {
  }
}
