/** The `authorized` callback of the authentication setup (auth.ts): only the
    dashboard is protected here, and a signed-out visitor is sent to the
    sign-in page with the page they asked for as `callbackUrl`. */
module AuthCallback {
  import opened Common
  import Text
  import Middleware

  datatype Decision = Allow | RedirectToSignin(callbackUrl: string)

  /** `callbacks.authorized`; `loggedIn` is `!!auth?.user`, `href` the full request URL. */
  function Authorized(loggedIn: bool, pathname: string, href: string): (d: Decision)
    ensures d.RedirectToSignin? <==> Text.StartsWith(pathname, "/dashboard") && !loggedIn
    ensures d.RedirectToSignin? ==> d.callbackUrl == href
    ensures loggedIn ==> d == Allow
  {
    var isProtected := Text.StartsWith(pathname, "/dashboard");
    if isProtected && !loggedIn then RedirectToSignin(href) else Allow
  }

  /** Every page the callback protects, the middleware protects too: a
      signed-out request it redirects is also sent to `/signin` by the middleware. */
  lemma CallbackAgreesWithMiddleware(req: Middleware.Request, cronSecret: Option<string>,
                                     lookup: string -> Middleware.Lookup, href: string)
    requires !Middleware.IsCronRequest(req.pathname, req.secretParam, req.authHeader, cronSecret)
    requires Authorized(req.auth.Some?, req.pathname, href).RedirectToSignin?
    ensures Middleware.Handle(req, cronSecret, lookup) == Middleware.Redirect("/signin")
  {
    DashboardIsNotPublic(req.pathname);
  }

  lemma DashboardIsNotPublic(pathname: string)
    requires Text.StartsWith(pathname, "/dashboard")
    ensures !Middleware.IsPublicRoute(pathname)
  {
    assert pathname[1] == 'd';
    assert pathname != "/";
    assert "/api/auth"[1] == 'a';
  }

  /** The converse fails: the middleware also protects pages the callback lets through. */
  lemma MiddlewareProtectsMore(cronSecret: Option<string>, lookup: string -> Middleware.Lookup)
    ensures var req := Middleware.Request("/profile", None, None, None);
      && Authorized(false, "/profile", "/profile") == Allow
      && Middleware.Handle(req, cronSecret, lookup) == Middleware.Redirect("/signin")
  {
    assert "/profile"[1] == 'p';
    assert !Text.StartsWith("/profile", "/dashboard");
    assert !Text.StartsWith("/profile", "/api/auth");
    assert "/profile" != Middleware.CronPath;
  }
}
