/**
 * The route guard of the request middleware: after the session is refreshed,
 * anonymous requests for the admin area are sent to the login page and
 * signed-in requests for the login or sign-up pages are sent to the admin area.
 */
module Middleware {
  import opened JsStrings

  /** A request URL: the pathname, and the origin and query that a clone of
      `nextUrl` keeps around it. */
  datatype Url = Url(origin: string, pathname: string, search: string)

  /** What the middleware answers: the response that carries the refreshed
      cookies, or a redirect. */
  datatype Decision = PassThrough | Redirect(location: Url)

  const AdminPath: string := "/admin"
  const LoginPath: string := "/auth/login"
  const SignUpPath: string := "/auth/sign-up"

  /** `pathname.startsWith("/admin")`: this also matches `/administrator`. */
  predicate IsAdminPath(pathname: string) {
    StartsWith(pathname, AdminPath)
  }

  /** Under the login or the sign-up page. */
  predicate IsAuthPath(pathname: string) {
    StartsWith(pathname, LoginPath) || StartsWith(pathname, SignUpPath)
  }

  /** The decision for a request, given whether `getUser()` returned a user:
      anonymous requests for the admin area go to the login page, signed-in
      requests for the login or sign-up page go to the admin area, and every
      other request passes through. The exclusion of the auth pages in the
      first rule never matters (AdminPathNotAuthPath). */
  function Decide(signedIn: bool, url: Url): (d: Decision)
    ensures d.Redirect? ==> d.location.origin == url.origin && d.location.search == url.search
    ensures d == Redirect(url.(pathname := LoginPath)) <==> !signedIn && IsAdminPath(url.pathname)
    ensures d == Redirect(url.(pathname := AdminPath)) <==> signedIn && IsAuthPath(url.pathname)
    ensures d == PassThrough
      <==> !(!signedIn && IsAdminPath(url.pathname)) && !(signedIn && IsAuthPath(url.pathname))
  {
    AdminPathNotAuthPath(url.pathname);
    if !signedIn && IsAdminPath(url.pathname) && !StartsWith(url.pathname, LoginPath)
       && !StartsWith(url.pathname, SignUpPath)
    then Redirect(url.(pathname := LoginPath))
    else if signedIn && (StartsWith(url.pathname, LoginPath) || StartsWith(url.pathname, SignUpPath))
    then Redirect(url.(pathname := AdminPath))
    else PassThrough
  }

  // ---------------------------------------------------------------------
  // Lemmas
  // ---------------------------------------------------------------------

  /** No admin path is under the login or sign-up page, so the exclusion of
      those pages in the first rule never changes the decision. */
  lemma AdminPathNotAuthPath(pathname: string)
    ensures IsAdminPath(pathname) ==> !IsAuthPath(pathname)
  {
    if IsAdminPath(pathname) {
      assert pathname[..|AdminPath|][2] == pathname[2];
      assert |LoginPath| <= |pathname| ==> pathname[..|LoginPath|][2] == pathname[2];
      assert |SignUpPath| <= |pathname| ==> pathname[..|SignUpPath|][2] == pathname[2];
    }
  }

  /** Anonymous requests are redirected exactly for the admin area, and only
      to the login page. */
  lemma AnonymousRedirect(url: Url)
    ensures Decide(false, url).Redirect? <==> IsAdminPath(url.pathname)
    ensures Decide(false, url).Redirect? ==> Decide(false, url).location.pathname == LoginPath
  {
  }

  /** Signed-in requests are redirected exactly for the login and sign-up
      pages, and only to the admin area. */
  lemma SignedInRedirect(url: Url)
    ensures Decide(true, url).Redirect? <==> IsAuthPath(url.pathname)
    ensures Decide(true, url).Redirect? ==> Decide(true, url).location.pathname == AdminPath
  {
  }

  /** The login page is outside the admin area. */
  lemma LoginPathIsNotAdmin()
    ensures !IsAdminPath(LoginPath)
  {
    assert LoginPath[..|AdminPath|][2] == 'u';
  }

  /** The admin dashboard is not a login or sign-up page. */
  lemma AdminPathIsNotAuth()
    ensures !IsAuthPath(AdminPath)
  {
    assert |AdminPath| < |LoginPath| && |AdminPath| < |SignUpPath|;
  }

  /** A redirect never leads to another redirect for the same user. */
  lemma NoRedirectLoop(signedIn: bool, url: Url)
    requires Decide(signedIn, url).Redirect?
    ensures Decide(signedIn, Decide(signedIn, url).location) == PassThrough
  {
    LoginPathIsNotAdmin();
    AdminPathIsNotAuth();
  }

  /** Prefix matching: `/administrator` counts as the admin area. */
  lemma AdministratorIsGuarded(origin: string, search: string)
    ensures Decide(false, Url(origin, "/administrator", search)) == Redirect(Url(origin, LoginPath, search))
  {
    var p := "/administrator";
    assert p[..|AdminPath|] == AdminPath;
    AdminPathNotAuthPath(p);
  }
}
