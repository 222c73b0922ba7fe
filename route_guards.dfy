/** The client's route guards and the navigation bar's dashboard link:
    client/src/components/ProtectedRoutes.jsx, client/src/components/RequireRole.js
    and `getDashboardPath` in client/src/components/Navbar.js. */
module RouteGuards {
  import opened Base
  import opened JsStrings
  import opened AuthSession

  /** What a guard renders: nothing yet, a redirect, or the guarded page. */
  datatype Render = Nothing | Redirect(to: string) | Children

  /** `user?.role === r`. */
  predicate HasRole(user: Option<ClientUser>, r: string) {
    user.Some? && user.value.role == Some(r)
  }

  /** Lines 12-14. */
  predicate IsProtected(path: string) {
    StartsWith(path, "/admin") || StartsWith(path, "/instructor") || path == "/dashboard"
  }

  /** `ProtectedRoute` (ProtectedRoutes.jsx lines 9-46). */
  function Guard(loading: bool, user: Option<ClientUser>, path: string): (r: Render)
    ensures loading <==> r == Nothing
    ensures !loading && IsProtected(path) && !(user.Some? && TruthyOpt(user.value.email)) ==> r == Redirect("/login")
    ensures !loading && !IsProtected(path) ==> r == Children
    ensures !loading && user.Some? && TruthyOpt(user.value.email) && StartsWith(path, "/admin") && !HasRole(user, "admin") ==>
      r == Redirect("/dashboard")
    ensures !loading && user.Some? && TruthyOpt(user.value.email) && StartsWith(path, "/instructor") && !HasRole(user, "instructor") ==>
      r == Redirect("/dashboard")
    ensures !loading && user.Some? && TruthyOpt(user.value.email) && path == "/dashboard" && HasRole(user, "instructor") ==>
      r == Redirect("/instructor/dashboard")
    ensures !loading && user.Some? && TruthyOpt(user.value.email) && path == "/dashboard" && HasRole(user, "admin") ==>
      r == Redirect("/admin")
    ensures r == Children ==> !loading && (IsProtected(path) ==> user.Some? && TruthyOpt(user.value.email))
    ensures r == Children && StartsWith(path, "/admin") ==> HasRole(user, "admin")
    ensures r == Children && StartsWith(path, "/instructor") ==> HasRole(user, "instructor")
    ensures r == Children && path == "/dashboard" ==> !HasRole(user, "admin") && !HasRole(user, "instructor")
    // and conversely: a visitor who passes every check sees the page
    ensures r == Children <==>
      && !loading
      && (IsProtected(path) ==> user.Some? && TruthyOpt(user.value.email))
      && (StartsWith(path, "/admin") ==> HasRole(user, "admin"))
      && (StartsWith(path, "/instructor") ==> HasRole(user, "instructor"))
      && (path == "/dashboard" ==> !HasRole(user, "admin") && !HasRole(user, "instructor"))
  {
    PathFacts();
    if loading then Nothing
    else if IsProtected(path) && !(user.Some? && TruthyOpt(user.value.email)) then Redirect("/login")
    else if StartsWith(path, "/admin") && !HasRole(user, "admin") then Redirect("/dashboard")
    else if StartsWith(path, "/instructor") && !HasRole(user, "instructor") then Redirect("/dashboard")
    else if path == "/dashboard" && HasRole(user, "instructor") then Redirect("/instructor/dashboard")
    else if path == "/dashboard" && HasRole(user, "admin") then Redirect("/admin")
    else Children
  }

  /** `RequireRole` (RequireRole.js lines 7-10): the user's role must be one
      of `roles`. */
  function RequireRole(roles: seq<string>, user: Option<ClientUser>): (r: Render)
    ensures r == Children <==> user.Some? && user.value.role.Some? && user.value.role.value in roles
    ensures r != Children ==> r == Redirect("/login")
  {
    if user.None? || !(user.value.role.Some? && user.value.role.value in roles) then Redirect("/login")
    else Children
  }

  /** With no roles allowed, every visitor is sent to the login page. */
  lemma NoRolesAlwaysRedirect(user: Option<ClientUser>)
    ensures RequireRole([], user) == Redirect("/login")
  {
  }

  /** `getDashboardPath` (Navbar.js lines 46-56). */
  function DashboardPath(user: Option<ClientUser>): (r: string)
    ensures user.None? ==> r == "/login"
    ensures HasRole(user, "admin") ==> r == "/admin"
    ensures HasRole(user, "instructor") ==> r == "/instructor/dashboard"
    ensures user.Some? && !HasRole(user, "admin") && !HasRole(user, "instructor") ==> r == "/dashboard"
  {
    if user.None? then "/login"
    else if user.value.role == Some("admin") then "/admin"
    else if user.value.role == Some("instructor") then "/instructor/dashboard"
    else "/dashboard"
  }

  /** The dashboard button's label (Navbar.js lines 104-106), shown to a
      signed-in user. */
  function DashboardLabel(user: ClientUser): (r: string)
    ensures r == "Admin Dashboard" <==> DashboardPath(Some(user)) == "/admin"
    ensures r == "Instructor Dashboard" <==> DashboardPath(Some(user)) == "/instructor/dashboard"
    ensures r == "My Dashboard" <==> DashboardPath(Some(user)) == "/dashboard"
  {
    if user.role == Some("admin") then "Admin Dashboard"
    else if user.role == Some("instructor") then "Instructor Dashboard"
    else "My Dashboard"
  }

  /** A string that differs from `p` at some position of `p` does not start
      with `p`. */
  lemma DiffersAt(s: string, p: string, k: nat)
    requires k < |p| && (k >= |s| || s[k] != p[k])
    ensures !StartsWith(s, p)
  {
    if |p| <= |s| {
      assert s[..|p|][k] == s[k];
    }
  }

  /** The fixed paths the guards and the navigation bar use, and the
      prefixes each starts with. */
  lemma PathFacts()
    ensures !IsProtected("/login")
    ensures !StartsWith("/dashboard", "/admin") && !StartsWith("/dashboard", "/instructor")
    ensures !StartsWith("/admin", "/instructor") && !StartsWith("/instructor/dashboard", "/admin")
    ensures StartsWith("/admin", "/admin") && StartsWith("/instructor/dashboard", "/instructor")
  {
    DiffersAt("/login", "/admin", 1);
    DiffersAt("/login", "/instructor", 1);
    DiffersAt("/dashboard", "/admin", 1);
    DiffersAt("/dashboard", "/instructor", 1);
    DiffersAt("/admin", "/instructor", 1);
    DiffersAt("/instructor/dashboard", "/admin", 1);
  }

  /** The navigation bar's dashboard link leads a signed-in user with an email
      straight to a page the guard renders. */
  lemma DashboardLinkAdmitted(user: ClientUser)
    requires TruthyOpt(user.email)
    ensures Guard(false, Some(user), DashboardPath(Some(user))) == Children
  {
    PathFacts();
  }

  /** The guard's own redirect from `/dashboard` is the navigation bar's
      dashboard path. */
  lemma DashboardRedirectMatchesNavbar(user: ClientUser)
    requires TruthyOpt(user.email)
    ensures var r := Guard(false, Some(user), "/dashboard");
            r == (if DashboardPath(Some(user)) == "/dashboard" then Children else Redirect(DashboardPath(Some(user))))
  {
    PathFacts();
  }

  /** Following the guard's redirects never loops: after at most two of them
      the page renders. */
  lemma RedirectsSettle(user: Option<ClientUser>, path: string)
    ensures var g1 := Guard(false, user, path);
            g1.Redirect? ==>
              var g2 := Guard(false, user, g1.to);
              g2 == Children || (g2.Redirect? && Guard(false, user, g2.to) == Children)
  {
    PathFacts();
  }

  /** After a logout every protected page sends the visitor to log in. */
  lemma LoggedOutIsSentToLogin(s: Session, path: string)
    requires IsProtected(path) && !s.loading
    ensures Guard(LogoutSpec(s).loading, LogoutSpec(s).user, path) == Redirect("/login")
  {
  }
}
