/** The request middleware (middleware.ts): the cron bypass, the public routes,
    the sign-in redirect, and the two redirects that depend on whether the
    signed-in user has an email address on file. The user lookup is a parameter. */
module Middleware {
  import opened Common
  import Text
  import Reminder

  const CronPath: string := "/api/reminder/sendEmail"

  /** A JavaScript value compared with `===`: `searchParams.get` and
      `headers.get` give `null` when absent, an unset environment variable is
      `undefined`. */
  function QueryValue(param: Option<string>): JsValue {
    if param.Some? then Str(param.value) else Null
  }

  function EnvValue(v: Option<string>): JsValue {
    if v.Some? then Str(v.value) else Undefined
  }

  /** A value interpolated into a template literal. */
  function Interpolated(v: JsValue): string {
    match v
    case Undefined => "undefined"
    case Null => "null"
    case Str(s) => s
  }

  /** `isCronRequest`. */
  function IsCronRequest(pathname: string, secretParam: Option<string>, authHeader: Option<string>,
                         cronSecret: Option<string>): (cron: bool)
    // An absent `secret` parameter is `null` and never equals an unset secret (`undefined`).
    ensures cron <==> (
      && pathname == CronPath
      && (|| (secretParam.Some? && cronSecret == secretParam)
          || (cronSecret.Some? && authHeader == Some(BearerPrefix + cronSecret.value))
          || (cronSecret.None? && authHeader == Some("Bearer undefined"))))
  {
    assert BearerPrefix + "undefined" == "Bearer undefined";
    pathname == CronPath
    && (QueryValue(secretParam) == EnvValue(cronSecret)
        || QueryValue(authHeader) == Str(BearerPrefix + Interpolated(EnvValue(cronSecret))))
  }

  /** With no secret configured the bypass is not open to a request without
      credentials, unlike the route's own check: only the literal header
      `Bearer undefined` passes. */
  lemma UnsetSecretNeedsLiteralUndefined(pathname: string, secretParam: Option<string>, authHeader: Option<string>)
    ensures IsCronRequest(pathname, secretParam, authHeader, None)
      <==> pathname == CronPath && authHeader == Some("Bearer undefined")
    ensures !IsCronRequest(pathname, None, None, None)
    ensures Reminder.VerifyAuth(None, None, None)
  {
  }

  /** A request the bypass admits under a configured secret without spaces is
      also accepted by the job's own secret check. */
  lemma CronBypassImpliesJobAuth(pathname: string, secretParam: Option<string>, authHeader: Option<string>, secret: string)
    requires ' ' !in secret && secret != ""
    requires IsCronRequest(pathname, secretParam, authHeader, Some(secret))
    ensures Reminder.VerifyAuthStrict(secretParam, authHeader, Some(secret))
  {
    if secretParam == Some(secret) {
      var repaired := Text.ReplaceChar(secret, ' ', '+');
      forall i | 0 <= i < |secret| ensures repaired[i] == secret[i] {
        assert secret[i] != ' ';
      }
      assert repaired == secret;
    }
  }

  /** The paths the middleware runs on: everything except the build assets, the
      icon and the cron route, plus the dashboard and the email form. */
  predicate Matched(pathname: string) {
    || (Text.StartsWith(pathname, "/")
        && !Text.StartsWith(pathname, "/_next/static")
        && !Text.StartsWith(pathname, "/_next/image")
        && !Text.StartsWith(pathname, "/favicon.ico")
        && !Text.StartsWith(pathname, CronPath))
    || pathname == "/dashboard" || Text.StartsWith(pathname, "/dashboard/")
    || pathname == "/collect-email"
  }

  /** The matcher keeps the cron route away from the middleware, so the bypass
      is never taken for a request the middleware actually sees. */
  lemma CronBypassUnreachable(pathname: string, secretParam: Option<string>, authHeader: Option<string>,
                              cronSecret: Option<string>)
    requires Matched(pathname)
    ensures !IsCronRequest(pathname, secretParam, authHeader, cronSecret)
  {
    CronPathNotMatched();
  }

  lemma CronPathNotMatched()
    ensures !Matched(CronPath)
  {
    assert Text.StartsWith(CronPath, CronPath);
    assert CronPath[1] == 'a';
  }

  /** The signed-in identity on the request (`req.auth`), if any. */
  datatype AuthSession = AuthSession(githubUsername: Option<string>)

  datatype Request = Request(
    pathname: string,
    secretParam: Option<string>,
    authHeader: Option<string>,
    auth: Option<AuthSession>)

  /** What `getUser` gave: the stored email (`None` for no user or no email), or a thrown error. */
  datatype Lookup = Returned(email: Option<string>) | Threw

  datatype Response = Next(noCache: bool) | Redirect(path: string)

  /** The routes a signed-out visitor may open. */
  predicate IsPublicRoute(pathname: string) {
    pathname == "/" || pathname == "/signin" || Text.StartsWith(pathname, "/api/auth") || pathname == "/collect-email"
  }

  /** The signed-in user's lookup ran, returned, and found no email (absent or empty). */
  predicate EmailMissing(req: Request, lookup: string -> Lookup) {
    && req.auth.Some? && Truthy(req.auth.value.githubUsername)
    && lookup(req.auth.value.githubUsername.value).Returned?
    && !Truthy(lookup(req.auth.value.githubUsername.value).email)
  }

  /** The signed-in user's lookup ran, returned, and found a non-empty email. */
  predicate EmailPresent(req: Request, lookup: string -> Lookup) {
    && req.auth.Some? && Truthy(req.auth.value.githubUsername)
    && lookup(req.auth.value.githubUsername.value).Returned?
    && Truthy(lookup(req.auth.value.githubUsername.value).email)
  }

  /** The middleware handler. */
  function Handle(req: Request, cronSecret: Option<string>, lookup: string -> Lookup): (resp: Response)
    ensures resp == Next(true) <==> IsCronRequest(req.pathname, req.secretParam, req.authHeader, cronSecret)
    ensures resp.Redirect? ==> resp.path in {"/signin", "/collect-email", "/dashboard"}
    ensures !IsCronRequest(req.pathname, req.secretParam, req.authHeader, cronSecret) ==> (
      && (resp == Redirect("/signin") <==> !IsPublicRoute(req.pathname) && req.auth.None?)
      && (resp == Redirect("/collect-email") <==>
            EmailMissing(req, lookup) && Text.StartsWith(req.pathname, "/dashboard"))
      && (resp == Redirect("/dashboard") <==>
            || (EmailPresent(req, lookup) && req.pathname == "/collect-email")
            || (req.auth.Some? && req.pathname == "/signin")))
  {
    if IsCronRequest(req.pathname, req.secretParam, req.authHeader, cronSecret) then
      Next(true)
    else if !IsPublicRoute(req.pathname) && req.auth.None? then
      Redirect("/signin")
    else
      var emailRedirect :=
        if req.auth.Some? && Truthy(req.auth.value.githubUsername) then
          match lookup(req.auth.value.githubUsername.value)
          // The lookup error is logged and the request goes on.
          case Threw => None
          case Returned(email) =>
            if !Truthy(email) && Text.StartsWith(req.pathname, "/dashboard") then Some("/collect-email")
            else if Truthy(email) && req.pathname == "/collect-email" then Some("/dashboard")
            else None
        else None;
      if emailRedirect.Some? then Redirect(emailRedirect.value)
      else if req.pathname == "/signin" && req.auth.Some? then Redirect("/dashboard")
      else Next(false)
  }

  /** A failing user lookup behaves as if the session carried no username: the
      email redirects are skipped and the later checks still apply. */
  lemma LookupFailureContinues(req: Request, cronSecret: Option<string>, lookup: string -> Lookup)
    requires req.auth.Some? && Truthy(req.auth.value.githubUsername)
    requires lookup(req.auth.value.githubUsername.value) == Threw
    ensures Handle(req, cronSecret, lookup) == Handle(req.(auth := Some(AuthSession(None))), cronSecret, lookup)
  {
  }

  /** Following the middleware's redirects with the same session and lookup
      reaches a page it lets through after at most two hops. */
  lemma RedirectsSettle(req: Request, cronSecret: Option<string>, lookup: string -> Lookup)
    ensures var r1 := Handle(req, cronSecret, lookup);
      r1.Redirect? ==>
        var r2 := Handle(req.(pathname := r1.path), cronSecret, lookup);
        r2 == Next(false)
        || (r2.Redirect? && Handle(req.(pathname := r2.path), cronSecret, lookup) == Next(false))
  {
    var r1 := Handle(req, cronSecret, lookup);
    if r1.Redirect? {
      assert r1.path != CronPath;
      var r2 := Handle(req.(pathname := r1.path), cronSecret, lookup);
      if r2.Redirect? {
        assert r2.path == "/collect-email";
        assert "/collect-email"[1] == 'c';
        assert !Text.StartsWith("/collect-email", "/dashboard");
      }
    }
  }
}
