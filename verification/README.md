# Job Not Finished — a Dafny model of its logic

Job Not Finished is a web dashboard. It imports a user's repositories from
the hosting service and stores two annotations per repository: a completion
percentage and a "remind me" flag. Once a week it emails a sarcastic roast
of every flagged project. Under the user interface sit a few small pieces of
deterministic logic, and this project models them in Dafny and proves their
properties:

- **Repository reconciliation** (`reconcile.dfy`, `legacy_reconcile.dfy`):
  both revisions of `UpdateRepositoriesAction`. Each merges the fetched list
  with the stored project records, creates records for repositories seen for
  the first time, and attaches the stored annotations. The project table is
  an immutable map from the repository id (in decimal) to the record
  (`store.dfy`). `createMany` with and without `skipDuplicates` are two
  functions on that map.
- **Annotations** (`annotations.dfy`): `updateProgress` and `toggleReminder`,
  each an update of one record keyed by id.
- **Payload normalisation** (`github.dfy`): the request headers, the per-item
  defaults, and the rule that any failure gives an empty list.
- **Classifiers** (`motivation.dfy`, `card.dfy`): the motivational roast and
  the status colour, the repository card's own copies of both, the language
  colour table, the progress input clamp, and the card's local state around a
  save or a toggle.
- **Weekly reminder job** (`reminder.dfy`): parsing project names into
  `owner/name`, the roast bands and suffixes, the cron secret check, the user
  and project selection, the owner fallback, and the result counts.
- **Routing decisions** (`middleware.dfy`, `auth.dfy`, `email_route.dfy`): the
  middleware's cron bypass and redirects, the `authorized` callback, and the
  email-save endpoint's status codes and write.
- **Shared pieces**: `common.dfy` holds `Option`/`Result` and JavaScript
  truthiness. `text.dfy` holds the string builtins the source relies on
  (`includes`, `startsWith`, `split`, `join`, `filter(Boolean)`, `replace`, and
  the decimal `toString` of integers). Each comes with a round trip, a
  positional characterisation, or (for `filter(Boolean)`) a lemma naming the
  first two parts it keeps.

Every I/O collaborator is a parameter:

- the fetcher's answer;
- store failures (a `Faults` value, or a `Result` from the user query);
- the repository statistics;
- the mailer's per-email outcome;
- the user lookup;
- the URL parser;
- the current time as a string.

Three modelling choices follow the program's code:

- **Store key.** Each project record is keyed by the repository id alone,
  not by (owner, id). If another user has already stored an id, the current
  action skips it through `skipDuplicates` and reports it to this user as
  progress 0, reminder off. The older action fails as a whole instead
  (`Reconcile.UpdateRepositoriesAction`, `LegacyReconcile.LegacyUpdateRepositoriesAction`).
- **Store errors.** Store failures in the reconciliation are rethrown, not
  degraded.
- **Fetcher shape.** `lib/github.ts` declares and returns a bare array, but
  both actions destructure `{ public_repos, repos }` from it. The actions are
  modelled against the shape they destructure: a `Listing(publicRepos, repos)`
  value.

The `authorized` callback and the middleware are modelled as two separate
decisions and compared with each other (`AuthCallback`); the order in which the
framework runs them is not modelled, so they are not composed.

The middleware's route matcher excludes `/api/reminder/sendEmail`, so its
cron bypass can never be taken. `Middleware.CronBypassUnreachable` states this.

## Model

| member | source | states |
|---|---|---|
| Text.ContainsIff | app/api/reminder/sendEmail/route.ts:45 | the scanning `includes` holds exactly when the pattern occurs at some index |
| Text.Split | app/api/reminder/sendEmail/route.ts:54 | `split` on one character gives at least one part, no part holds the separator, and joining the parts gives back the input |
| Text.SplitJoin | app/api/reminder/sendEmail/route.ts:47 | splitting a join of separator-free parts gives back exactly those parts |
| Text.NonEmpty | app/api/reminder/sendEmail/route.ts:47 | `filter(Boolean)` keeps every non-empty part and only parts of the input |
| Text.NonEmptyDropEmpty | app/api/reminder/sendEmail/route.ts:47 | empty parts at the front of the list are dropped without changing what is kept |
| Text.FirstTwoNonEmpty | app/api/reminder/sendEmail/route.ts:47-49 | the first two kept parts are the parts at the first two non-empty positions, in order |
| Text.ReplaceChar | app/api/reminder/sendEmail/route.ts:138 | the global one-character replace changes exactly the matching positions, and none of the replaced character is left |
| Text.NatToStringRoundTrip | app/actions/update-repositories.ts:37 | reading back the decimal digits of `toString` gives the number |
| Text.IntToStringInjective | app/actions/update-repositories.ts:46 | distinct repository ids give distinct key strings |
| Store.OwnedBy | app/actions/update-repositories.ts:19-28 | the records read are exactly the stored records whose owner is the given user, unchanged |
| Store.InsertSkippingDuplicates | app/actions/update-repositories.ts:54-63 | the batch adds exactly the ids not yet stored; a stored record is never overwritten; a repeated id takes its first row |
| Store.InsertAll | app/actions/update-repositories/index.ts:20-27 | without duplicate skipping the batch succeeds iff its ids are distinct and none is stored, and then it adds every row as given |
| Store.InsertSkippingDuplicatesIdempotent | app/actions/update-repositories.ts:54-63 | replaying the same batch after it succeeded inserts nothing |
| Github.ReposUrl | lib/github.ts:43-44 | the listing URL is the users endpoint of the API, then the username verbatim, then `/repos` |
| Github.RequestHeaders | lib/github.ts:33-41 | media type and API version always; an `Authorization` header iff a non-empty token is configured |
| Github.AuthorizationCarriesToken | lib/github.ts:39-41 | the header is the bearer prefix followed by exactly the configured token |
| Github.Normalize | lib/github.ts:49-60 | identity, name, URL and fork copied; null description becomes ""; language kept; missing counts become 0; missing timestamp becomes the current time; no progress |
| Github.NormalizeRoundTrip | lib/github.ts:52-56 | an item with every field present is passed through unchanged |
| Github.FetchUserRepositories | lib/github.ts:49-64 | any failure gives the empty list; otherwise the items are normalised one for one, in payload order |
| Reconcile.MergeOne | app/actions/update-repositories.ts:36-43 | a repository with a record of the user reports its stored progress and flag; one without reports 0 and false; the remote fields are carried over |
| Reconcile.Unseen | app/actions/update-repositories.ts:46-53 | a fetched repository is new iff its id string has no record of the session user |
| Reconcile.NewRowsIds | app/actions/update-repositories.ts:55-56 | the created rows carry exactly the ids of the new repositories |
| Reconcile.CreateNew | app/actions/update-repositories.ts:50-63 | adds exactly the new ids with the remote name, progress 0, reminder off and the owner; never touches a stored record; writes nothing when every id is already stored |
| Reconcile.UpdateRepositoriesAction | app/actions/update-repositories.ts:7-74 | no session user: fetched listing returned and store untouched; store failures rethrown; no write when nothing is new; merged listing in fetch order; stored records never changed; exactly the new ids added with defaults and the session owner |
| Reconcile.RerunChangesNothing | app/actions/update-repositories.ts:54-63 | a second run with an unchanged fetch creates nothing and reports the same listing |
| Reconcile.ListingReadsOnlySessionRecords | app/actions/update-repositories.ts:17-28 | the listing depends on the store only through the session user's own records, not on the `username` argument |
| LegacyReconcile.LegacyItemOf | app/actions/update-repositories/index.ts:28-41 | an item copies the remote fields, carries `userId = username`, and has the snapshot's progress for a known id and none for a new one |
| LegacyReconcile.LegacyCreate | app/actions/update-repositories/index.ts:20-27 | the create without duplicate skipping succeeds iff the diff ids are distinct and none is stored for any owner; then it adds every diff repository and leaves stored records alone |
| LegacyReconcile.LegacyUpdateRepositoriesAction | app/actions/update-repositories/index.ts:6-46 | the create is always issued, so a write failure always surfaces; success iff no fault and the diff ids are distinct and unstored; items in fetch order with the snapshot progress; `public_repos` passed through; the store gains exactly the diff |
| LegacyReconcile.RevisionsAgree | app/actions/update-repositories/index.ts:17-40 | with the session user equal to `username` and no collisions, both revisions leave the same store, and where the older one reports a progress the newer one reports the same |
| Annotations.UpdateProgress | app/actions/update-progress/index.ts:12-19 | fails iff the id is not stored; otherwise that record's progress becomes exactly the value sent and nothing else changes |
| Annotations.ToggleReminder | app/actions/toggle-reminder/index.ts:12-19 | fails iff the id is not stored; otherwise that record's flag becomes the negation of the argument and nothing else changes |
| Annotations.UpdateProgressIdempotent | app/actions/update-progress/index.ts:16-18 | sending the same progress twice equals sending it once |
| Annotations.UpdateProgressLastWins | app/actions/update-progress/index.ts:16-18 | of two updates to one record the last one wins |
| Annotations.ToggleReminderIdempotent | app/actions/toggle-reminder/index.ts:16-18 | repeating a toggle with the same argument is idempotent |
| Annotations.ToggleFlipsIffInSync | app/actions/toggle-reminder/index.ts:17 | the stored flag flips iff the argument equals it |
| Annotations.AnnotationsCommute | app/actions/update-progress/index.ts:12-19 | a progress update and a reminder update give the same store in either order |
| Motivation.Message | utils/helpter.ts:3-13 | every roast shows one of the five fixed texts |
| Motivation.MessageInjective | utils/helpter.ts:3-13 | distinct roasts show distinct texts |
| Motivation.MotivationalRoast | utils/helpter.ts:2-14 | each roast holds exactly on its own region: on a roll iff days ≤ 14; coffee iff days > 14 and (days ≤ 30 or progress ≥ 70); excuse, milk and dust on the nested 30/70, 60/50, 90/30 regions |
| Motivation.RoastMonotone | utils/helpter.ts:2-14 | more days and less progress never give a gentler roast |
| Motivation.GetStatusColor | utils/helpter.ts:16-21 | destructive iff days > 60, warning iff 30 < days ≤ 60, info iff 14 < days ≤ 30, success otherwise (0 included) |
| Motivation.StatusColorMonotone | utils/helpter.ts:16-21 | more days never give a calmer colour, whatever the progress |
| Motivation.RollIffSuccess | utils/helpter.ts:2-21 | the roast is "on a roll" exactly when the colour is success |
| Card.LanguageColor | components/RepositoryCard.tsx:110-111 | a listed language gets its table colour, anything else the grey fallback, always a colour of the table |
| Card.CardRoastAgrees | components/RepositoryCard.tsx:69-81 | the card's copy of the roast agrees with the shared one on every input |
| Card.CardRoast | components/RepositoryCard.tsx:112 | missing activity or progress counts as 0, so no activity count means "on a roll" |
| Card.CardStatusColor | components/RepositoryCard.tsx:115-120 | the card's colour equals the shared colour for every progress; a missing count gives success |
| Card.ClampInput | components/RepositoryCard.tsx:240-244 | a parsed value above 100 becomes exactly 100; others, negatives and NaN included, are kept |
| Card.ClampIdempotent | components/RepositoryCard.tsx:240-244 | clamping twice equals clamping once |
| Card.SavedValue | components/RepositoryCard.tsx:129 | the value sent is the number typed, and 0 for undefined or NaN |
| Card.InitCard | components/RepositoryCard.tsx:98-102 | a new card is idle, shows exactly the stored progress (undefined when there is none) in the field and on the badge, and its flag is on only when the prop is true |
| Card.OnProgressInput | components/RepositoryCard.tsx:240-244 | typing sets the field to the clamped parse, which never exceeds 100; the badge, the flag and the editing state are unchanged |
| Card.SaveProgressAsWritten | components/RepositoryCard.tsx:122-138 | the save as written: the store changes only through `updateProgress` with the `\|\| 0` value, while the badge takes the field's own value; a failed save changes neither |
| Card.SaveAsWrittenShowsNaN | components/RepositoryCard.tsx:129-132 | clearing the field and saving stores 0 but shows NaN |
| Card.SaveProgress | components/RepositoryCard.tsx:122-138 | the store changes only through `updateProgress` with the `\|\| 0` value; after a successful save the badge equals the stored value, after a failed one it is unchanged |
| Card.SaveVersionsAgreeOnNumbers | components/RepositoryCard.tsx:129-132 | both save versions agree whenever the field holds a number |
| Card.ToggleOnCard | components/RepositoryCard.tsx:139-145 | the local flag is sent, then negated locally, and nothing else on the card changes; a failed call leaves card and store as they were |
| Card.ToggleKeepsCardInStep | components/RepositoryCard.tsx:139-145 | after a successful toggle the card's flag equals the stored flag; if they started equal, both have flipped |
| Reminder.ExtractGitHubInfo | app/api/reminder/sendEmail/route.ts:41-65 | a result always has two non-empty, slash-free parts; neither `github.com` nor `/` gives null; an unparsable URL gives null; in the plain form the result spells a prefix of the input; in the URL form fewer than two non-empty path segments give null, and otherwise the result is the first two |
| Reminder.ExtractUrlFirstSegments | app/api/reminder/sendEmail/route.ts:45-49 | a URL is read as the path segments at the first two non-empty positions, however many empty segments precede or separate them |
| Reminder.SplitPrefix | app/api/reminder/sendEmail/route.ts:53-54 | a name with a slash splits into at least two parts, and the first two with the slash begin the name |
| Reminder.ExtractPlainRoundTrip | app/api/reminder/sendEmail/route.ts:53-57 | `owner/name` followed by any further segments parses to exactly that owner and name |
| Reminder.ExtractUrlRoundTrip | app/api/reminder/sendEmail/route.ts:45-50 | a URL whose path begins `/owner/name` parses to that owner and name, whatever follows |
| Reminder.BucketOf | app/api/reminder/sendEmail/route.ts:86-96 | first match wins on strict thresholds 30, 14, 7, 3; each band holds exactly on its interval |
| Reminder.BucketMonotone | app/api/reminder/sendEmail/route.ts:86-96 | a staler repository never falls in a fresher band |
| Reminder.GenerateProjectRoast | app/api/reminder/sendEmail/route.ts:68-125 | the error flag is set iff the statistics could not be read, with the fallback text and no URL, stars, days or issue count; otherwise URL, days, stars and issues are reported |
| Reminder.RoastLayout | app/api/reminder/sendEmail/route.ts:98-107 | the roast starts with the band's sentence; the size note follows iff the size is under 1000 KB; the issues note ends it iff more than five issues are open |
| Reminder.VerifyAuth | app/api/reminder/sendEmail/route.ts:128-142 | accepted iff no secret is configured and no `secret` parameter is present, or the repaired parameter or the bearer token equals the configured secret |
| Reminder.UnsetSecretAcceptsBareRequest | app/api/reminder/sendEmail/route.ts:141 | with no secret configured, a request without any credential is accepted |
| Reminder.VerifyAuthStrict | app/api/reminder/sendEmail/route.ts:128-142 | accepts nothing unless a secret is configured, and then agrees with the check as written |
| Reminder.QuerySecretRepair | app/api/reminder/sendEmail/route.ts:137-138 | a secret without spaces whose `+` the query string turned into spaces is accepted |
| Reminder.ReminderProjects | app/api/reminder/sendEmail/route.ts:170-176 | exactly the reminder-enabled projects are kept |
| Reminder.UsersWithReminders | app/api/reminder/sendEmail/route.ts:166-179 | a user is kept, with only their reminder projects, iff they have an email column and a reminder project |
| Reminder.RepoFor | app/api/reminder/sendEmail/route.ts:209-221 | a name that does not parse is roasted as the user's login with the project name |
| Reminder.Addressable | app/api/reminder/sendEmail/route.ts:194-198 | a user is mailed iff their address is a non-empty string |
| Reminder.SuccessCount | app/api/reminder/sendEmail/route.ts:293-294 | the count is the number of successful sends; it equals the total iff all succeeded and is 0 iff none did |
| Reminder.ReminderJob | app/api/reminder/sendEmail/route.ts:144-317 | 401 iff the check failed; 500 iff the query failed; the early return iff nobody qualifies; mail is sent whenever a selected user has an address; the send details name each email's user and address; the success count is the number of successful sends and success plus failure equals the emails queued, one per mailable user with a reminder project |
| Reminder.EveryReminderUserMailed | app/api/reminder/sendEmail/route.ts:166-203 | every queried user with an address and a reminder-enabled project receives an email addressed to them |
| Reminder.SendEmailRouteAsWritten | app/api/reminder/sendEmail/route.ts:155-162 | the route as written answers 401 iff `verifyAuth` rejects; with `CRON_SECRET` unset, a request carrying no secret runs the job and sends the mail |
| Reminder.SendEmailRoute | app/api/reminder/sendEmail/route.ts:155-162 | the corrected route answers 401 iff the strict check rejects, so always when no secret is configured; with a secret configured it answers as the route as written |
| Middleware.IsCronRequest | middleware.ts:12-23 | cron iff the path is the job's path and the query secret equals the configured one (an absent parameter never equals an unset secret) or the header is `Bearer ` followed by the secret, or `Bearer undefined` when unset |
| Middleware.UnsetSecretNeedsLiteralUndefined | middleware.ts:18-20 | with no secret configured only the literal header `Bearer undefined` passes the bypass, while the job's own check accepts a bare request |
| Middleware.CronBypassImpliesJobAuth | middleware.ts:18-20 | under a configured secret without spaces, what the bypass admits the job's check accepts |
| Middleware.CronPathNotMatched | middleware.ts:82-87 | the matcher does not run the middleware on the job's path |
| Middleware.CronBypassUnreachable | middleware.ts:82-87 | no request the middleware runs on is a cron request |
| Middleware.Handle | middleware.ts:26-79 | cron passes with no-cache; to `/signin` iff non-public and signed out; to `/collect-email` iff the lookup found no email on a dashboard path; to `/dashboard` iff an email is on file on the form, or signed in on `/signin`; only those three targets |
| Middleware.LookupFailureContinues | middleware.ts:67-70 | a failing lookup behaves as a session without a username: email redirects skipped, later checks kept |
| Middleware.RedirectsSettle | middleware.ts:49-76 | following the redirects with the same session reaches a page that is let through within two hops |
| AuthCallback.Authorized | auth.ts:28-40 | redirect iff a dashboard path while signed out, with `callbackUrl` the original href; signed in is always allowed |
| AuthCallback.DashboardIsNotPublic | middleware.ts:42-46 | no dashboard path is a public route |
| AuthCallback.CallbackAgreesWithMiddleware | auth.ts:33-36 | whatever the callback sends to sign-in, the middleware sends to `/signin` too |
| AuthCallback.MiddlewareProtectsMore | auth.ts:30-31 | a signed-out `/profile` is allowed by the callback but redirected by the middleware |
| EmailRoute.EmailProperty | app/api/user/email/route.ts:12 | destructuring `email` throws only for a `null` body, reads the field of an object that has it, and gives undefined for any other body |
| EmailRoute.PostEmail | app/api/user/email/route.ts:5-32 | 401 iff no session username; 400 iff the email is falsy; 200 iff a string email for a stored user; every failure writes nothing; a 200 sets only that user's email |
| EmailRoute.AnyNonEmptyStringAccepted | app/api/user/email/route.ts:12-27 | any non-empty string is stored as given, with no format check |
| EmailRoute.PostEmailIdempotent | app/api/user/email/route.ts:18-25 | posting the same address twice equals posting it once |
| EmailRoute.SavedEmailUnblocksDashboard | app/api/user/email/route.ts:18-25 | after a save, the middleware no longer sends that user's dashboard visits to the email form |

## Left out

- Rendering: JSX, animation, the email HTML template and date formatting are not modelled; they compute no decision.
- `playCompletionSound`: not modelled; it uses Web Audio, floating point and timers.
- Clocks: `new Date()` is not read. The days since the last push are an integer input, and the fallback timestamp of the normalisation is a parameter.
- Concurrency: the `Promise.all` fan-out over users, projects and emails is modelled as a sequential map in input order.
- External clients: the HTTP client, the repository API client, the mailer, the ORM and the authentication library are parameters. Statistics are `GitHubRepo -> Option<RepoStats>`, delivery is `Email -> bool`, the user lookup is `string -> Lookup`, the store is a map, and store failures are flags.
- URL parsing: `new URL(s).pathname` is the parameter `pathnameOf`, with `None` meaning the constructor throws.
- The route matcher of the middleware is modelled as prefix tests on the path. Next.js path-pattern semantics beyond that are not modelled.
- Integer width: the store's 32-bit progress column and JavaScript's float numbers are not modelled. Counts and ids are unbounded integers, and `toString` is exact decimal, with no exponent notation for huge ids.
- `Card.LanguageColor`: the inherited keys of a JavaScript object (`toString`, `constructor`) are not modelled as table entries.
- `LegacyReconcile.LegacyUpdateRepositoriesAction`: the reminder default of the database schema is not part of this model, so it is the parameter `schemaReminder`.
- `Reconcile.UpdateRepositoriesAction`: a failing `auth()` call is caught, logged and rethrown by the action; that path is not modelled, and the session is an input.
- `EmailRoute.PostEmail`: whether the ORM refuses a truthy non-string email depends on the schema, which is not part of this model. It is modelled as a thrown error (500). A failing `auth()` call is not modelled.
- `Reminder.ReminderJob`: the response headers, the HTTP body layout and the `POST` alias are not modelled. The roast texts and counts are.

## Findings

| source | as written | input that shows it | evidently intended | confidence | as-written member | corrected member |
|---|---|---|---|---|---|---|
| app/api/reminder/sendEmail/route.ts:138-141 | `fixedSecret === CRON_SECRET` compares `undefined` with `undefined` when the secret is unset and the request has no `secret` parameter | `CRON_SECRET` unset, a request with no `secret` parameter and no header: accepted, and every reminder email is sent | no request is accepted unless a secret is configured | high, not executed | Reminder.SendEmailRouteAsWritten | Reminder.SendEmailRoute |
| components/RepositoryCard.tsx:129-132 | `progressValue \|\| 0` is stored but `progressValue` itself is displayed | clear the progress field (`parseInt("")` is NaN) and save: the store holds 0, the badge shows `NaN%` | the badge shows the value that was stored | high, not executed | Card.SaveAsWrittenShowsNaN | Card.SaveProgress |
