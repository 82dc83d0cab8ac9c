/**
 * Route guards. The authenticated user arrives from the reverse proxy as an
 * optional value; a guard either returns the user or fails with the redirect
 * it would throw. The admin group comes from the `ADMIN_GROUP` environment
 * variable, which is a parameter here.
 */
module Guards {
  import opened Wrappers

  datatype User = User(id: string, groups: seq<string>)

  /** A thrown `redirect(status, location)`. */
  datatype Redirect = Redirect(status: int, location: string)

  const Found: int := 302
  const SignInPath: string := "/oauth2/sign_in"
  const UnauthorizedPath: string := "/auth/unauthorized"
  const DefaultAdminGroup: string := "admin"

  /** `required.some(g => held.includes(g))`, evaluated left to right. */
  function AnyHeld(required: seq<string>, held: seq<string>): (b: bool)
    ensures b <==> exists g :: g in required && g in held
    decreases |required|
  {
    if required == [] then false
    else required[0] in held || AnyHeld(required[1..], held)
  }

  /** `required.every(g => held.includes(g))`, evaluated left to right. */
  function AllHeld(required: seq<string>, held: seq<string>): (b: bool)
    ensures b <==> forall g :: g in required ==> g in held
    decreases |required|
  {
    if required == [] then true
    else required[0] in held && AllHeld(required[1..], held)
  }

  /** `requireAuth`: the user when there is one, else a redirect to `redirectTo`. */
  function RequireAuth(user: Option<User>, redirectTo: string): (r: Result<User, Redirect>)
    ensures r.Failure? <==> user.None?
    ensures r.Success? ==> r.value == user.value
    ensures r.Failure? ==> r.error == Redirect(Found, redirectTo)
  {
    match user
    case None => Failure(Redirect(Found, redirectTo))
    case Some(u) => Success(u)
  }

  /**
   * `requireGroups`: an anonymous request goes to sign-in (the default target
   * of `requireAuth`); a user holding none of `required` goes to `redirectTo`.
   */
  function RequireGroups(user: Option<User>, required: seq<string>, redirectTo: string): (r: Result<User, Redirect>)
    ensures user.None? ==> r == Failure(Redirect(Found, SignInPath))
    ensures user.Some? ==> (r.Success? <==> exists g :: g in required && g in user.value.groups)
    ensures r.Success? ==> r.value == user.value
    ensures user.Some? && r.Failure? ==> r.error == Redirect(Found, redirectTo)
  {
    match RequireAuth(user, SignInPath)
    case Failure(e) => Failure(e)
    case Success(u) =>
      if AnyHeld(required, u.groups) then Success(u) else Failure(Redirect(Found, redirectTo))
  }

  /** `requireAllGroups`: like `RequireGroups`, but every group of `required` must be held. */
  function RequireAllGroups(user: Option<User>, required: seq<string>, redirectTo: string): (r: Result<User, Redirect>)
    ensures user.None? ==> r == Failure(Redirect(Found, SignInPath))
    ensures user.Some? ==> (r.Success? <==> forall g :: g in required ==> g in user.value.groups)
    ensures r.Success? ==> r.value == user.value
    ensures user.Some? && r.Failure? ==> r.error == Redirect(Found, redirectTo)
  {
    match RequireAuth(user, SignInPath)
    case Failure(e) => Failure(e)
    case Success(u) =>
      if AllHeld(required, u.groups) then Success(u) else Failure(Redirect(Found, redirectTo))
  }

  /** `env.ADMIN_GROUP || 'admin'`: an unset or empty variable selects the default. */
  function AdminGroup(adminGroupEnv: Option<string>): (g: string)
    ensures g != ""
    ensures adminGroupEnv.Some? && adminGroupEnv.value != "" ==> g == adminGroupEnv.value
    ensures adminGroupEnv.None? || adminGroupEnv.value == "" ==> g == DefaultAdminGroup
  {
    if adminGroupEnv.Some? && adminGroupEnv.value != "" then adminGroupEnv.value else DefaultAdminGroup
  }

  function RequireAdmin(user: Option<User>, adminGroupEnv: Option<string>, redirectTo: string): (r: Result<User, Redirect>)
    ensures user.None? ==> r == Failure(Redirect(Found, SignInPath))
    ensures user.Some? ==> (r.Success? <==> AdminGroup(adminGroupEnv) in user.value.groups)
  {
    RequireGroups(user, [AdminGroup(adminGroupEnv)], redirectTo)
  }

  function IsAdmin(user: User, adminGroupEnv: Option<string>): (admin: bool)
    ensures adminGroupEnv.Some? && adminGroupEnv.value != "" ==> (admin <==> adminGroupEnv.value in user.groups)
    ensures adminGroupEnv.None? || adminGroupEnv.value == "" ==> (admin <==> DefaultAdminGroup in user.groups)
  {
    AdminGroup(adminGroupEnv) in user.groups
  }

  /** An empty list of alternatives never lets anyone through. */
  lemma EmptyAnyRedirects(user: Option<User>, redirectTo: string)
    ensures RequireGroups(user, [], redirectTo).Failure?
  {
  }

  /** An empty list of requirements lets every authenticated user through. */
  lemma EmptyAllPasses(user: User, redirectTo: string)
    ensures RequireAllGroups(Some(user), [], redirectTo) == Success(user)
  {
  }

  /** For a non-empty list, holding all groups implies holding one. */
  lemma AllImpliesAny(user: Option<User>, required: seq<string>, redirectTo: string)
    requires required != []
    ensures RequireAllGroups(user, required, redirectTo).Success? ==> RequireGroups(user, required, redirectTo).Success?
  {
    assert required[0] in required;
  }

  /** The admin guard admits exactly the users `IsAdmin` accepts. */
  lemma AdminGuardAgreesWithIsAdmin(user: User, adminGroupEnv: Option<string>, redirectTo: string)
    ensures RequireAdmin(Some(user), adminGroupEnv, redirectTo).Success? <==> IsAdmin(user, adminGroupEnv)
  {
  }
}
