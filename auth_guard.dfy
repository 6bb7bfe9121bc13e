/** The page guards `withAuth` and `withAdminAuth` (lib/auth.tsx, and the older
    lib/auth.ts): where a visitor is sent with `router.replace`, and what is
    drawn meanwhile. The two files share `withAuth` word for word; their
    `withAdminAuth` differ only in testing the role against a set built from
    `allowed` or against the list itself. */
module AuthGuard {
  import opened Shared
  import opened Models
  import Sidebar

  const LoginPath := "/login"
  const DashboardPath := "/dashboard"

  /** The page a guard draws: its placeholder text, or the guarded page. */
  datatype GuardView = Placeholder(message: string) | Guarded

  /** `withAuth`'s effect: to the login page once loading has finished without
      a user, otherwise nowhere. */
  function AuthRedirect(loading: bool, user: Option<User>): (r: Option<string>)
    ensures r.Some? <==> !loading && user.None?
    ensures r.Some? ==> r.value == LoginPath
  {
    if !loading && user.None? then Some(LoginPath) else None
  }

  /** A guard's drawing: the placeholder while loading or without a user. */
  function GuardRender(loading: bool, user: Option<User>, message: string): (v: GuardView)
    ensures v.Guarded? <==> !loading && user.Some?
    ensures v.Placeholder? ==> v.message == message
  {
    if loading || user.None? then Placeholder(message) else Guarded
  }

  /** `withAuth`'s drawing: its dashboard placeholder until a user is known. */
  function AuthView(loading: bool, user: Option<User>): (v: GuardView)
    ensures v.Guarded? <==> !loading && user.Some?
    ensures v.Placeholder? ==> v.message == "Loading your dashboard..."
  {
    GuardRender(loading, user, "Loading your dashboard...")
  }

  /** `withAuth` never draws the page for a visitor it sends away, and sends
      away every visitor without a user once loading is over. */
  lemma AuthGuardConsistent(loading: bool, user: Option<User>)
    ensures AuthRedirect(loading, user).Some? ==> AuthView(loading, user) == Placeholder("Loading your dashboard...")
    ensures AuthView(loading, user).Guarded? ==> AuthRedirect(loading, user).None?
    ensures AuthView(loading, user).Placeholder? && !loading ==> AuthRedirect(loading, user) == Some(LoginPath)
  {
  }

  /** `allowed`'s default. */
  const DefaultAllowed: seq<Role> := [Admin, Instructor, Superadmin]

  /** `withAdminAuth`'s effect in lib/auth.tsx, testing `allowedRoles.current.has`
      on the set built from `allowed`. */
  function AdminRedirectWithSet(loading: bool, user: Option<User>, allowed: seq<Role>): (r: Option<string>)
    ensures r == Some(LoginPath) <==> !loading && user.None?
    ensures r == Some(DashboardPath) <==> !loading && user.Some? && user.value.role !in allowed
    ensures r.None? <==> loading || (user.Some? && user.value.role in allowed)
  {
    var allowedRoles := set x | x in allowed;
    if loading then None
    else if user.None? then Some(LoginPath)
    else if user.value.role !in allowedRoles then Some(DashboardPath)
    else None
  }

  /** `allowed.includes(role)`. */
  function Includes(allowed: seq<Role>, role: Role): (b: bool)
    ensures b <==> role in allowed
    decreases |allowed|
  {
    if allowed == [] then false
    else
      var rest := Includes(allowed[1..], role);
      assert allowed == [allowed[0]] + allowed[1..];
      allowed[0] == role || rest
  }

  /** `withAdminAuth`'s effect in lib/auth.ts, testing `allowed.includes`. */
  function AdminRedirectWithIncludes(loading: bool, user: Option<User>, allowed: seq<Role>): (r: Option<string>)
    ensures r == Some(LoginPath) <==> !loading && user.None?
    ensures r == Some(DashboardPath) <==> !loading && user.Some? && user.value.role !in allowed
    ensures r.None? <==> loading || (user.Some? && user.value.role in allowed)
  {
    if loading then None
    else if user.None? then Some(LoginPath)
    else if !Includes(allowed, user.value.role) then Some(DashboardPath)
    else None
  }

  /** The two admin guards send every visitor to the same place. */
  lemma AdminRedirectsAgree(loading: bool, user: Option<User>, allowed: seq<Role>)
    ensures AdminRedirectWithSet(loading, user, allowed) == AdminRedirectWithIncludes(loading, user, allowed)
  {
  }

  /** `withAdminAuth`'s drawing as written: like `withAuth`, it tests only
      loading and the user; `allowed` is in scope but not consulted, so the
      page is drawn also for a user the effect sends to the dashboard. */
  function AdminViewAsWritten(loading: bool, user: Option<User>, allowed: seq<Role>): (v: GuardView)
    ensures v.Guarded? <==> !loading && user.Some?
    ensures v.Placeholder? ==> v.message == "Checking permissions..."
    ensures v.Guarded? && user.value.role !in allowed ==> AdminRedirectWithSet(loading, user, allowed) == Some(DashboardPath)
  {
    GuardRender(loading, user, "Checking permissions...")
  }

  /** The admin guard's drawing as its redirect evidently intends: the
      placeholder for every visitor without an allowed role. */
  function AdminView(loading: bool, user: Option<User>, allowed: seq<Role>): (v: GuardView)
    ensures v.Guarded? <==> !loading && AdminRedirectWithSet(loading, user, allowed).None?
    ensures v.Placeholder? ==> v.message == "Checking permissions..."
  {
    if loading || user.None? || user.value.role !in allowed then Placeholder("Checking permissions...")
    else Guarded
  }

  /** The corrected admin guard never draws the page for a visitor it sends
      away, and agrees with the written one on every allowed user. */
  lemma AdminGuardConsistent(loading: bool, user: Option<User>, allowed: seq<Role>)
    ensures AdminRedirectWithSet(loading, user, allowed).Some? ==> AdminView(loading, user, allowed).Placeholder?
    ensures user.Some? && user.value.role in allowed ==> AdminView(loading, user, allowed) == AdminViewAsWritten(loading, user, allowed)
  {
  }

  /** With the default roles, the admin guard lets through exactly the users
      the sidebar treats as staff. */
  lemma DefaultAllowedIsStaff(loading: bool, user: Option<User>)
    requires !loading && user.Some?
    ensures AdminRedirectWithSet(loading, user, DefaultAllowed).None? <==> Sidebar.IsAdmin(user)
  {
    assert user.value.role != Learner ==> user.value.role in DefaultAllowed;
  }

  /** As written, a signed-in user without an allowed role, a learner under
      the default roles, is sent to the dashboard and yet the guarded page is
      drawn. */
  lemma DisallowedUserStillDrawn(user: User, allowed: seq<Role>)
    requires user.role !in allowed
    ensures AdminRedirectWithSet(false, Some(user), allowed) == Some(DashboardPath)
    ensures AdminRedirectWithIncludes(false, Some(user), allowed) == Some(DashboardPath)
    ensures AdminViewAsWritten(false, Some(user), allowed) == Guarded
    ensures AdminView(false, Some(user), allowed) == Placeholder("Checking permissions...")
  {
    AdminRedirectsAgree(false, Some(user), allowed);
  }
}
