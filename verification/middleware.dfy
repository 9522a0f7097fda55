/**
  The request middleware (middleware.ts): prefix-matched route tables and the chain of
  checks that lets a request through with security headers or redirects it. The identity
  lookup and the admin-record lookup are inputs: their outcomes, not the backend calls.
*/
module Middleware {
  import opened Common
  import opened JsString

  const ProtectedRoutes: seq<string> := [
    "/dashboard", "/master-dashboard", "/admin-management", "/activity-logs", "/backup-export",
    "/bulk-import", "/game-analytics", "/quick-add", "/team-setup", "/api"]

  const MasterAdminRoutes: seq<string> := [
    "/master-dashboard", "/admin-management", "/activity-logs", "/backup-export",
    "/bulk-import", "/game-analytics", "/quick-add"]

  /** The headers set on every response that passes the checks on a protected route. */
  const SecurityHeaders: seq<(string, string)> := [
    ("Cache-Control", "no-cache, no-store, must-revalidate"),
    ("Pragma", "no-cache"),
    ("Expires", "0"),
    ("X-Frame-Options", "DENY"),
    ("X-Content-Type-Options", "nosniff"),
    ("Referrer-Policy", "strict-origin-when-cross-origin"),
    ("X-XSS-Protection", "1; mode=block"),
    ("Permissions-Policy", "camera=(), microphone=(), geolocation=()")]

  predicate StartsWithAny(pathname: string, prefixes: seq<string>) {
    exists p :: p in prefixes && StartsWith(pathname, p)
  }

  /** A cookie value that is present and non-empty (a truthy `?.value`). */
  predicate Present(cookie: Option<string>) {
    cookie.Some? && cookie.value != []
  }

  /**
    The outcome of a backend lookup: a value, an `error` (or no data) in the reply, or an
    exception thrown while asking.
  */
  datatype Lookup<T> = Found(value: T) | Failed | Missing | Threw

  datatype AdminRecord = AdminRecord(role: string, status: string)

  datatype Request = Request(pathname: string, accessToken: Option<string>, refreshToken: Option<string>)

  /** `NextResponse.next()` with its headers, or a redirect with an optional `redirect` parameter. */
  datatype Response = Next(headers: seq<(string, string)>) | Redirect(location: string, redirectParam: Option<string>)

  /**
    `middleware`. `envConfigured` says whether both backend settings are present, `user` is
    the outcome of the identity lookup for the access token, and `admin` that of the admins
    table query for the user's email.
  */
  function Decide(req: Request, envConfigured: bool, user: Lookup<string>, admin: Lookup<AdminRecord>): (r: Response)
    ensures !StartsWithAny(req.pathname, ProtectedRoutes) ==> r == Next([])
    ensures StartsWithAny(req.pathname, ProtectedRoutes) && !Present(req.accessToken) && !Present(req.refreshToken)
            ==> r == Redirect("/login", Some(req.pathname))
    ensures r.Redirect? && r.redirectParam.Some? ==> r.location == "/login" && r.redirectParam.value == req.pathname
    ensures r.Next? && r.headers != [] ==> r.headers == SecurityHeaders
  {
    var pathname := req.pathname;
    if !StartsWithAny(pathname, ProtectedRoutes) then Next([])
    else if !Present(req.accessToken) && !Present(req.refreshToken) then Redirect("/login", Some(pathname))
    else if !envConfigured then Redirect("/login", None)
    else match user
      case Threw => Redirect("/login", None)
      case Failed => Redirect("/login", Some(pathname))
      case Missing => Redirect("/login", Some(pathname))
      case Found(_) =>
        match admin
        case Found(a) =>
          if a.status != "active" then Redirect("/login", None)
          else if StartsWithAny(pathname, MasterAdminRoutes) && a.role != "master_admin" then Redirect("/dashboard", None)
          else Next(SecurityHeaders)
        case _ => Redirect("/login", None)
  }

  /** The credentials and lookups that let a request to a protected route through. */
  predicate Admitted(req: Request, envConfigured: bool, user: Lookup<string>, admin: Lookup<AdminRecord>) {
    && (Present(req.accessToken) || Present(req.refreshToken))
    && envConfigured && user.Found? && admin.Found? && admin.value.status == "active"
    && (StartsWithAny(req.pathname, MasterAdminRoutes) ==> admin.value.role == "master_admin")
  }

  /** Every master-only route is also protected. */
  lemma MasterRoutesProtected(pathname: string)
    ensures StartsWithAny(pathname, MasterAdminRoutes) ==> StartsWithAny(pathname, ProtectedRoutes)
  {
    if StartsWithAny(pathname, MasterAdminRoutes) {
      var p :| p in MasterAdminRoutes && StartsWith(pathname, p);
      assert p in ProtectedRoutes;
    }
  }

  /**
    A protected route is served, with exactly the security headers, if and only if a token is
    present, the backend is configured, the user is known, the admin record is active, and a
    master-only route is requested by a master admin.
  */
  lemma PassIff(req: Request, envConfigured: bool, user: Lookup<string>, admin: Lookup<AdminRecord>)
    requires StartsWithAny(req.pathname, ProtectedRoutes)
    ensures Decide(req, envConfigured, user, admin).Next? <==> Admitted(req, envConfigured, user, admin)
    ensures Decide(req, envConfigured, user, admin).Next? ==> Decide(req, envConfigured, user, admin).headers == SecurityHeaders
  {
  }

  /**
    The checks that end without the `redirect` parameter: a missing configuration, a thrown
    lookup, and a missing or inactive admin record send the browser to the login page; a
    non-master admin on a master-only route goes to the dashboard.
  */
  lemma RedirectCases(req: Request, envConfigured: bool, user: Lookup<string>, admin: Lookup<AdminRecord>)
    requires StartsWithAny(req.pathname, ProtectedRoutes)
    requires Present(req.accessToken) || Present(req.refreshToken)
    ensures !envConfigured ==> Decide(req, envConfigured, user, admin) == Redirect("/login", None)
    ensures envConfigured && (user.Failed? || user.Missing?)
            ==> Decide(req, envConfigured, user, admin) == Redirect("/login", Some(req.pathname))
    ensures envConfigured && user.Found? && (!admin.Found? || admin.value.status != "active")
            ==> Decide(req, envConfigured, user, admin) == Redirect("/login", None)
    ensures Decide(req, envConfigured, user, admin) == Redirect("/dashboard", None) <==>
      (envConfigured && user.Found? && admin.Found? && admin.value.status == "active"
       && StartsWithAny(req.pathname, MasterAdminRoutes) && admin.value.role != "master_admin")
  {
  }

  /**
    The dashboard a non-master admin is sent to lets that admin in: following the redirect
    with the same credentials does not redirect again.
  */
  lemma DashboardRedirectSettles(req: Request, envConfigured: bool, user: Lookup<string>, admin: Lookup<AdminRecord>)
    requires Decide(req, envConfigured, user, admin) == Redirect("/dashboard", None)
    ensures Decide(req.(pathname := "/dashboard"), envConfigured, user, admin) == Next(SecurityHeaders)
  {
    var d := "/dashboard";
    assert d in ProtectedRoutes && StartsWith(d, d);
  }
}
