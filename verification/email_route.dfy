/** The email-save endpoint (app/api/user/email/route.ts): the status code of
    `POST` and the one field it writes. Users are keyed by their hosting-service
    login (`githubId`), the key `update` selects on. */
module EmailRoute {
  import opened Common
  import Middleware

  /** A parsed JSON value. */
  datatype Json = JNull | JBool(b: bool) | JNum(n: int) | JStr(s: string) | JArray(items: seq<Json>) | JObject(fields: map<string, Json>)

  /** The request body: text that is not JSON makes `req.json()` throw. */
  datatype Body = Unparsable | Parsed(json: Json)

  datatype UserRecord = UserRecord(id: string, email: Option<string>)

  type Users = map<string, UserRecord>

  datatype EmailResponse = EmailResponse(status: int, users: Users)

  /** The `email` property of the parsed body: `None` when it throws (destructuring
      `null`), `Some(None)` when the property is absent (`undefined`). */
  function EmailProperty(json: Json): (v: Option<Option<Json>>)
    ensures v.None? <==> json.JNull?
    ensures json.JObject? && "email" in json.fields ==> v == Some(Some(json.fields["email"]))
    // Any other body, an object without the field included, reads as `undefined`.
    ensures !json.JNull? && !(json.JObject? && "email" in json.fields) ==> v == Some(None)
  {
    match json
    case JNull => None
    case JObject(fields) => if "email" in fields then Some(Some(fields["email"])) else Some(None)
    case _ => Some(None)
  }

  /** JavaScript truthiness of a JSON value (`undefined` is `None`). */
  predicate TruthyJson(v: Option<Json>) {
    match v
    case None => false
    case Some(JNull) => false
    case Some(JBool(b)) => b
    case Some(JNum(n)) => n != 0
    case Some(JStr(s)) => s != ""
    case Some(_) => true
  }

  /** `POST`. `sessionUser` is `session?.user?.githubUsername`; `writeFails`
      stands for the store being unavailable. A truthy email that is not a
      string is refused by the store's type check. */
  function PostEmail(sessionUser: Option<string>, body: Body, users: Users, writeFails: bool): (r: EmailResponse)
    ensures r.status in {200, 400, 401, 500}
    ensures r.status == 401 <==> !Truthy(sessionUser)
    ensures r.status == 400 <==> (
      && Truthy(sessionUser) && body.Parsed?
      && EmailProperty(body.json).Some? && !TruthyJson(EmailProperty(body.json).value))
    ensures r.status == 200 <==> (
      && Truthy(sessionUser) && body.Parsed?
      && EmailProperty(body.json).Some? && TruthyJson(EmailProperty(body.json).value)
      && EmailProperty(body.json).value.value.JStr?
      && sessionUser.value in users && !writeFails)
    // Only a successful call writes, and it sets exactly that user's email.
    ensures r.status != 200 ==> r.users == users
    ensures r.status == 200 ==>
      var u := sessionUser.value;
      && r.users.Keys == users.Keys
      && r.users[u] == users[u].(email := Some(EmailProperty(body.json).value.value.s))
      && forall v :: v in users && v != u ==> r.users[v] == users[v]
  {
    if !Truthy(sessionUser) then
      EmailResponse(401, users)
    else
      match body
      case Unparsable => EmailResponse(500, users)
      case Parsed(json) =>
        match EmailProperty(json)
        case None => EmailResponse(500, users)
        case Some(email) =>
          if !TruthyJson(email) then
            EmailResponse(400, users)
          else if !email.value.JStr? || sessionUser.value !in users || writeFails then
            // A non-string value, a missing user and a store failure all throw.
            EmailResponse(500, users)
          else
            var u := sessionUser.value;
            EmailResponse(200, users[u := users[u].(email := Some(email.value.s))])
  }

  /** The body `{"email": s}`. */
  function EmailBody(s: string): Body {
    Parsed(JObject(map["email" := JStr(s)]))
  }

  /** Any non-empty string is stored as given: there is no format check. */
  lemma AnyNonEmptyStringAccepted(u: string, s: string, users: Users)
    requires u != "" && u in users && s != ""
    ensures PostEmail(Some(u), EmailBody(s), users, false).status == 200
    ensures PostEmail(Some(u), EmailBody(s), users, false).users[u].email == Some(s)
  {
  }

  /** Posting the same address twice leaves the store as posting it once. */
  lemma PostEmailIdempotent(u: string, s: string, users: Users)
    requires u != "" && u in users && s != ""
    ensures var once := PostEmail(Some(u), EmailBody(s), users, false).users;
      PostEmail(Some(u), EmailBody(s), once, false).users == once
  {
    var once := PostEmail(Some(u), EmailBody(s), users, false).users;
    assert once[u := once[u].(email := Some(s))] == once;
  }

  /** `getUser` over the stored users: the email column of the user with that
      login, nothing for an unknown login. */
  function LookupIn(users: Users): string -> Middleware.Lookup {
    u => if u in users then Middleware.Returned(users[u].email) else Middleware.Returned(None)
  }

  /** After a successful save, the middleware no longer sends that user's
      dashboard visits to the email form. */
  lemma SavedEmailUnblocksDashboard(u: string, s: string, users: Users, req: Middleware.Request, cronSecret: Option<string>)
    requires u != "" && u in users && s != ""
    requires req.auth == Some(Middleware.AuthSession(Some(u)))
    ensures var after := PostEmail(Some(u), EmailBody(s), users, false).users;
      Middleware.Handle(req, cronSecret, LookupIn(after)) != Middleware.Redirect("/collect-email")
  {
    var after := PostEmail(Some(u), EmailBody(s), users, false).users;
    assert LookupIn(after)(u) == Middleware.Returned(Some(s));
  }
}
