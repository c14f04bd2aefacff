/**
 * The request guard of middleware.ts: from the request path and the session
 * cookie it decides between a redirect to the login page, a 401 answer and
 * letting the request through. Only the presence of a non-empty cookie is
 * looked at; its signature is checked by the handlers, not here.
 */
module Middleware {
  import opened Text

  const CookieName: string := "ar_admin_session"
  const LoginPath: string := "/admin/login"
  const AdminPrefix: string := "/admin"
  const PoisApiPrefix: string := "/api/pois"

  /** What the guard answers. */
  datatype Decision =
    | Redirect(location: string)             // NextResponse.redirect to the login page
    | Unauthorized(status: nat, error: string) // 401 with `{ ok: false, error }`
    | Next                                    // NextResponse.next()

  /** `Boolean(req.cookies.get(COOKIE_NAME)?.value)` */
  predicate HasSession(cookies: map<string, string>)
  {
    CookieName in cookies && cookies[CookieName] != ""
  }

  /** `middleware(req)` */
  function Guard(pathname: string, cookies: map<string, string>): (d: Decision)
    ensures d.Redirect? <==> StartsWith(pathname, AdminPrefix) && pathname != LoginPath && !HasSession(cookies)
    ensures d.Redirect? ==> d.location == LoginPath
    ensures d.Unauthorized? <==>
              StartsWith(pathname, PoisApiPrefix) && !HasSession(cookies)
              && !(StartsWith(pathname, AdminPrefix) && pathname != LoginPath)
    ensures d.Unauthorized? ==> d.status == 401 && d.error == "Não autorizado"
    ensures HasSession(cookies) ==> d == Next
  {
    var isAdminArea := StartsWith(pathname, AdminPrefix);
    var isAdminLogin := pathname == LoginPath;
    var isPoisApi := StartsWith(pathname, PoisApiPrefix);
    var hasSession := HasSession(cookies);
    if isAdminArea && !isAdminLogin && !hasSession then Redirect(LoginPath)
    else if isPoisApi && !hasSession then Unauthorized(401, "Não autorizado")
    else Next
  }

  /**
   * The `matcher` of the exported config: the guard runs for "/admin" and
   * "/api/pois" and for any path below them, and for no other path.
   */
  predicate Matched(pathname: string)
  {
    pathname == AdminPrefix || StartsWith(pathname, AdminPrefix + "/")
    || pathname == PoisApiPrefix || StartsWith(pathname, PoisApiPrefix + "/")
  }

  /** What a request meets: the guard where the matcher selects it, the route itself otherwise. */
  function Route(pathname: string, cookies: map<string, string>): (d: Decision)
    ensures !Matched(pathname) ==> d == Next
    ensures Matched(pathname) ==> d == Guard(pathname, cookies)
  {
    if Matched(pathname) then Guard(pathname, cookies) else Next
  }

  /** The login page is never redirected, with or without a session. */
  lemma LoginNeverRedirected(cookies: map<string, string>)
    ensures Guard(LoginPath, cookies) == Next
  {
    DiffersAt(LoginPath, PoisApiPrefix, 2);
  }

  /** A cookie with any non-empty value counts as a session: its content is not checked. */
  lemma AnyCookiePasses(pathname: string, cookies: map<string, string>, value: string)
    requires value != ""
    ensures Guard(pathname, cookies[CookieName := value]) == Next
  {
  }

  /** The list endpoint, public as the route file describes it, is refused without a session. */
  lemma PoisListNeedsSession()
    ensures Route(PoisApiPrefix, map[]) == Unauthorized(401, "Não autorizado")
  {
    assert StartsWith(PoisApiPrefix, PoisApiPrefix);
    DiffersAt(PoisApiPrefix, AdminPrefix, 2);
  }

  /**
   * The admin test is a raw prefix test: the guard alone would send
   * "/administrator" to the login page, but the matcher never hands it that
   * path.
   */
  lemma AdministratorPrefix()
    ensures Guard("/administrator", map[]) == Redirect(LoginPath)
    ensures Route("/administrator", map[]) == Next
  {
    var p := "/administrator";
    assert p[..|AdminPrefix|] == AdminPrefix;
    assert p != LoginPath by {
      assert |p| != |LoginPath|;
    }
    assert !StartsWith(p, AdminPrefix + "/") by {
      assert p[6] != '/';
    }
    DiffersAt(p, PoisApiPrefix + "/", 2);
  }
}
