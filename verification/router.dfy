/**
 * The client-side route table and the navigation guard that runs before
 * every navigation.
 */
module Router {
  import opened Options
  import opened Auth

  /** A route's `meta`: whether it needs a token and which role it requires. */
  datatype Meta = Meta(requiresAuth: bool, requiresRole: Option<Role>)

  datatype Route = Route(path: string, name: string, meta: Meta)

  /** What the guard tells the router to do. */
  datatype Decision = ToLogin | ToDashboard | Proceed

  const Public: Meta := Meta(false, None)
  const Private: Meta := Meta(true, None)
  const TeacherOnly: Meta := Meta(true, Some(Teacher))
  const AdminOnly: Meta := Meta(true, Some(Admin))

  const Routes: seq<Route> := [
    Route("/", "Home", Public),
    Route("/login", "Login", Public),
    Route("/register", "Register", Public),
    Route("/dashboard", "Dashboard", Private),
    Route("/game", "Game", Private),
    Route("/wordlists", "Wordlists", TeacherOnly),
    Route("/analytics", "Analytics", TeacherOnly),
    Route("/gamification", "Gamification", Private),
    Route("/spaced-repetition", "SpacedRepetition", TeacherOnly),
    Route("/bible-typing", "BibleTyping", Private),
    Route("/admin", "Admin", AdminOnly)
  ]

  /** The targets of the guard's two redirects. */
  const LoginRoute: Route := Routes[1]
  const DashboardRoute: Route := Routes[3]

  /**
   * The `beforeEach` guard, read as an access policy: a missing token on a
   * protected route sends to the login page before any role is looked at;
   * otherwise insufficient clearance sends to the dashboard; otherwise
   * navigation proceeds.
   */
  function Guard(meta: Meta, s: AuthState): (d: Decision)
    ensures d == ToLogin <==> meta.requiresAuth && !IsAuthenticated(s)
    ensures d == ToDashboard <==>
      (!meta.requiresAuth || IsAuthenticated(s)) && Clearance(s) < Needed(meta.requiresRole)
    ensures d == Proceed <==>
      (meta.requiresAuth ==> IsAuthenticated(s)) && Clearance(s) >= Needed(meta.requiresRole)
  {
    if meta.requiresAuth && !IsAuthenticated(s) then ToLogin
    else if meta.requiresRole.Some? then
      if meta.requiresRole.value == Admin && !IsAdmin(s) then ToDashboard
      else if meta.requiresRole.value == Teacher && !IsTeacher(s) then ToDashboard
      else Proceed
    else Proceed
  }

  /** Clearance of the signed-in user: administrators above teachers above everyone else. */
  function Clearance(s: AuthState): int {
    match UserRole(s)
    case Some(Admin) => 2
    case Some(Teacher) => 1
    case _ => 0
  }

  /**
   * Clearance a role requirement asks for. A student requirement is not
   * checked by the guard, so it asks for nothing.
   */
  function Needed(role: Option<Role>): int {
    match role
    case Some(Admin) => 2
    case Some(Teacher) => 1
    case _ => 0
  }

  /** Routes with no requirement always proceed. */
  lemma PublicAlwaysProceeds(s: AuthState)
    ensures Guard(Public, s) == Proceed
  {
  }

  /** Every route in the table that requires a role also requires a token. */
  lemma RoleRoutesNeedAuth()
    ensures forall i :: 0 <= i < |Routes| && Routes[i].meta.requiresRole.Some? ==> Routes[i].meta.requiresAuth
  {
  }

  /**
   * With a token but no user record, every role-guarded route of the
   * table redirects to the dashboard.
   */
  lemma TokenWithoutUser(s: AuthState)
    requires IsAuthenticated(s) && s.user.None?
    ensures forall i :: 0 <= i < |Routes| && Routes[i].meta.requiresRole.Some? ==>
      Guard(Routes[i].meta, s) == ToDashboard
  {
  }

  /**
   * No redirect loops: for every route of the table, following the
   * guard's redirect lands on a route the guard lets through.
   */
  lemma RedirectsSettle(s: AuthState)
    ensures LoginRoute.path == "/login" && DashboardRoute.path == "/dashboard"
    ensures forall i :: 0 <= i < |Routes| ==>
      && (Guard(Routes[i].meta, s) == ToLogin ==> Guard(LoginRoute.meta, s) == Proceed)
      && (Guard(Routes[i].meta, s) == ToDashboard ==> Guard(DashboardRoute.meta, s) == Proceed)
  {
  }
}
