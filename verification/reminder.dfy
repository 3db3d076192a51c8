/** The weekly reminder job (app/api/reminder/sendEmail/route.ts): the check of
    the cron secret, the parsing of stored project names into repository
    references, the roast built from a repository's statistics, and the
    selection of users, projects and emails. The repository API, the mailer and
    the URL parser are parameters; the HTML template is left out. */
module Reminder {
  import opened Common
  import Text
  import Store

  /** A repository reference on the hosting service. */
  datatype GitHubRepo = GitHubRepo(owner: string, name: string)

  /** `extractGitHubInfo`. `pathnameOf` stands for `new URL(s).pathname`, `None`
      when the URL constructor throws. */
  function ExtractGitHubInfo(fullName: string, pathnameOf: string -> Option<string>): (r: Option<GitHubRepo>)
    ensures r.Some? ==> r.value.owner != "" && r.value.name != ""
    ensures r.Some? ==> '/' !in r.value.owner && '/' !in r.value.name
    ensures !Text.Contains(fullName, "github.com") && '/' !in fullName ==> r.None?
    ensures Text.Contains(fullName, "github.com") && pathnameOf(fullName).None? ==> r.None?
    // In the URL form the owner and name are the first two non-empty path segments.
    ensures Text.Contains(fullName, "github.com") && pathnameOf(fullName).Some? ==>
      var segments := Text.NonEmpty(Text.Split(pathnameOf(fullName).value, '/'));
      && (|segments| < 2 ==> r.None?)
      && (|segments| >= 2 ==> r == Some(GitHubRepo(segments[0], segments[1])))
    // In the `owner/name` form the result spells a prefix of the input.
    ensures !Text.Contains(fullName, "github.com") && r.Some? ==>
      Text.StartsWith(fullName, r.value.owner + "/" + r.value.name)
  {
    if Text.Contains(fullName, "github.com") then
      match pathnameOf(fullName)
      case None => None
      case Some(path) =>
        var parts := Text.NonEmpty(Text.Split(path, '/'));
        if |parts| >= 2 then Some(GitHubRepo(parts[0], parts[1])) else None
    else if '/' in fullName then
      var parts := Text.Split(fullName, '/');
      SplitPrefix(parts, '/');
      if parts[0] != "" && parts[1] != "" then Some(GitHubRepo(parts[0], parts[1])) else None
    else
      None
  }

  /** A string with the separator splits into at least two parts, and the first
      two parts, joined by the separator, begin the string. */
  lemma SplitPrefix(parts: seq<string>, sep: char)
    requires |parts| >= 1
    requires forall k :: 0 <= k < |parts| ==> sep !in parts[k]
    requires sep in Text.Join(parts, sep)
    ensures |parts| >= 2
    ensures Text.StartsWith(Text.Join(parts, sep), parts[0] + [sep] + parts[1])
  {
    var tail := Text.Join(parts[1..], sep);
    assert Text.Join(parts, sep) == parts[0] + [sep] + tail;
    if |parts| > 2 {
      assert tail == parts[1] + [sep] + Text.Join(parts[2..], sep);
    }
    assert Text.StartsWith(tail, parts[1]);
  }

  /** An `owner/name` reference, optionally followed by more `/` segments, is
      read back as exactly that owner and name. */
  lemma ExtractPlainRoundTrip(owner: string, name: string, rest: seq<string>, pathnameOf: string -> Option<string>)
    requires owner != "" && name != "" && '/' !in owner && '/' !in name
    requires forall k :: 0 <= k < |rest| ==> '/' !in rest[k]
    requires !Text.Contains(Text.Join([owner, name] + rest, '/'), "github.com")
    ensures ExtractGitHubInfo(Text.Join([owner, name] + rest, '/'), pathnameOf) == Some(GitHubRepo(owner, name))
  {
    var parts := [owner, name] + rest;
    var full := Text.Join(parts, '/');
    Text.SplitJoin(parts, '/');
    assert Text.Split(full, '/') == parts;
    assert full == owner + "/" + Text.Join(parts[1..], '/');
    assert full[|owner|] == '/';
    assert '/' in full;
    assert parts[0] == owner && parts[1] == name;
  }

  /** A URL whose path starts with `/owner/name` is read back as that owner and
      name, whatever segments follow. */
  lemma ExtractUrlRoundTrip(fullName: string, owner: string, name: string, rest: seq<string>,
                            pathnameOf: string -> Option<string>)
    requires Text.Contains(fullName, "github.com")
    requires owner != "" && name != "" && '/' !in owner && '/' !in name
    requires forall k :: 0 <= k < |rest| ==> '/' !in rest[k]
    requires pathnameOf(fullName) == Some(Text.Join(["", owner, name] + rest, '/'))
    ensures ExtractGitHubInfo(fullName, pathnameOf) == Some(GitHubRepo(owner, name))
  {
    var parts := ["", owner, name] + rest;
    Text.SplitJoin(parts, '/');
    Text.NonEmptyCons("", parts[1..]);
    assert parts == [""] + parts[1..];
    Text.NonEmptyCons(owner, parts[2..]);
    assert parts[1..] == [owner] + parts[2..];
    Text.NonEmptyCons(name, parts[3..]);
    assert parts[2..] == [name] + parts[3..];
  }

  /** For a URL, the owner and name are the path segments at the first two
      positions holding something, whatever empty segments (doubled or leading
      slashes) surround them. */
  lemma ExtractUrlFirstSegments(fullName: string, pathnameOf: string -> Option<string>, i: nat, j: nat)
    requires Text.Contains(fullName, "github.com") && pathnameOf(fullName).Some?
    requires var split := Text.Split(pathnameOf(fullName).value, '/');
      && i < j < |split| && split[i] != "" && split[j] != ""
      && forall m :: 0 <= m < j && m != i ==> split[m] == ""
    ensures var split := Text.Split(pathnameOf(fullName).value, '/');
      ExtractGitHubInfo(fullName, pathnameOf) == Some(GitHubRepo(split[i], split[j]))
  {
    Text.FirstTwoNonEmpty(Text.Split(pathnameOf(fullName).value, '/'), i, j);
  }

  /** The activity band of the roast, from the most recent to the stalest. */
  datatype Bucket = Recent | Counting | QuietWeek | Neglected | Fossil

  /** First match wins on strictly-greater thresholds 30, 14, 7 and 3. */
  function BucketOf(days: int): (b: Bucket)
    ensures b == Fossil <==> days > 30
    ensures b == Neglected <==> 14 < days <= 30
    ensures b == QuietWeek <==> 7 < days <= 14
    ensures b == Counting <==> 3 < days <= 7
    ensures b == Recent <==> days <= 3
  {
    if days > 30 then Fossil
    else if days > 14 then Neglected
    else if days > 7 then QuietWeek
    else if days > 3 then Counting
    else Recent
  }

  function BucketRank(b: Bucket): nat {
    match b
    case Recent => 0
    case Counting => 1
    case QuietWeek => 2
    case Neglected => 3
    case Fossil => 4
  }

  /** A staler repository never falls in a fresher band. */
  lemma BucketMonotone(days1: int, days2: int)
    requires days1 <= days2
    ensures BucketRank(BucketOf(days1)) <= BucketRank(BucketOf(days2))
  {
  }

  function Quoted(name: string): string {
    "\"" + name + "\""
  }

  /** The opening sentence of the roast for a band. */
  function BaseRoast(b: Bucket, name: string, days: int): string {
    match b
    case Fossil =>
      "Your project " + Quoted(name) + " hasn't seen a commit in " + Text.IntToString(days)
      + " days! Even dinosaurs moved faster than your development pace. Is this a project or a digital fossil?"
    case Neglected =>
      "Two weeks without a commit to " + Quoted(name)
      + "? Your code must be feeling neglected. Even house plants get more attention!"
    case QuietWeek =>
      "A week without touching " + Quoted(name)
      + "? Your GitHub contribution graph is getting as empty as a developer's social calendar."
    case Counting =>
      Text.IntToString(days) + " days since your last commit to " + Quoted(name)
      + ". At this rate, you'll finish just in time for the retirement party."
    case Recent =>
      "Nice recent activity on " + Quoted(name)
      + ", but let's be honest - we both know it won't last. Prove me wrong!"
  }

  function SizeNote(size: int): string {
    " And with only " + Text.IntToString(size) + "KB? That's not a project, that's a digital sticky note!"
  }

  function IssuesNote(openIssues: int): string {
    " With " + Text.IntToString(openIssues) + " open issues, you're collecting bugs like they're trading cards."
  }

  function FailureRoast(name: string): string {
    "I tried to roast your project " + Quoted(name)
    + ", but it's so inactive even my roasting algorithm got bored looking at it."
  }

  /** What the repository API reports; `daysSinceLastCommit` is derived from
      the last push and the current time. */
  datatype RepoStats = RepoStats(htmlUrl: string, daysSinceLastCommit: int, size: int, openIssues: int, stars: int)

  /** One project's section of the email. */
  datatype ProjectRoast = ProjectRoast(
    name: string,
    url: Option<string>,
    roast: string,
    daysSinceLastCommit: Option<int>,
    stars: Option<int>,
    openIssues: Option<int>,
    error: bool)

  /** `generateProjectRoast`: `stats` is the API's answer, `None` when the call failed. */
  function GenerateProjectRoast(repo: GitHubRepo, stats: Option<RepoStats>): (pr: ProjectRoast)
    ensures pr.name == repo.name
    ensures pr.error <==> stats.None?
    ensures stats.None? ==> (
      && pr.roast == FailureRoast(repo.name) && pr.url.None? && pr.stars.None?
      && pr.daysSinceLastCommit.None? && pr.openIssues.None?)
    ensures stats.Some? ==> (
      && pr.url == Some(stats.value.htmlUrl)
      && pr.daysSinceLastCommit == Some(stats.value.daysSinceLastCommit)
      && pr.stars == Some(stats.value.stars)
      && pr.openIssues == Some(stats.value.openIssues))
  {
    match stats
    case None => ProjectRoast(repo.name, None, FailureRoast(repo.name), None, None, None, true)
    case Some(s) =>
      var roast := BaseRoast(BucketOf(s.daysSinceLastCommit), repo.name, s.daysSinceLastCommit)
        + (if s.size < 1000 then SizeNote(s.size) else "")
        + (if s.openIssues > 5 then IssuesNote(s.openIssues) else "");
      ProjectRoast(repo.name, Some(s.htmlUrl), roast, Some(s.daysSinceLastCommit), Some(s.stars), Some(s.openIssues), false)
  }

  /** The roast opens with the band's sentence; the size note follows it exactly
      when the repository is under 1000 KB, and the issues note comes last exactly
      when more than five issues are open. */
  lemma RoastLayout(repo: GitHubRepo, s: RepoStats)
    ensures var roast := GenerateProjectRoast(repo, Some(s)).roast;
      var base := BaseRoast(BucketOf(s.daysSinceLastCommit), repo.name, s.daysSinceLastCommit);
      && Text.StartsWith(roast, base)
      && (s.size < 1000 ==> Text.StartsWith(roast[|base|..], SizeNote(s.size)))
      && (s.openIssues > 5 ==> Text.EndsWith(roast, IssuesNote(s.openIssues)))
      && |roast| == |base| + (if s.size < 1000 then |SizeNote(s.size)| else 0)
                           + (if s.openIssues > 5 then |IssuesNote(s.openIssues)| else 0)
  {
    var base := BaseRoast(BucketOf(s.daysSinceLastCommit), repo.name, s.daysSinceLastCommit);
    var size := if s.size < 1000 then SizeNote(s.size) else "";
    var issues := if s.openIssues > 5 then IssuesNote(s.openIssues) else "";
    assert GenerateProjectRoast(repo, Some(s)).roast == base + size + issues;
    ThreePieces(base, size, issues);
  }

  /** Where the three pieces of a concatenation sit. */
  lemma ThreePieces(a: string, b: string, c: string)
    ensures Text.StartsWith(a + b + c, a)
    ensures Text.StartsWith((a + b + c)[|a|..], b)
    ensures Text.EndsWith(a + b + c, c)
  {
    var s := a + b + c;
    assert s[..|a|] == a;
    assert s[|a|..] == b + c;
    assert (b + c)[..|b|] == b;
    assert s[|s| - |c|..] == c;
  }

  /** `verifyAuth` as written. `secretParam` is the `secret` query parameter,
      `authHeader` the `authorization` header and `cronSecret` the configured
      `CRON_SECRET`, each `None` when absent. */
  function VerifyAuth(secretParam: Option<string>, authHeader: Option<string>, cronSecret: Option<string>): (ok: bool)
    ensures ok <==>
      || (cronSecret.None? && secretParam.None?)
      || (cronSecret.Some? && secretParam.Some? && Text.ReplaceChar(secretParam.value, ' ', '+') == cronSecret.value)
      || (cronSecret.Some? && authHeader.Some? && authHeader.value == BearerPrefix + cronSecret.value)
  {
    // `secret?.replace(/ /g, '+')` is undefined when the parameter is absent.
    var fixedSecret := if secretParam.Some? then Str(Text.ReplaceChar(secretParam.value, ' ', '+')) else Undefined;
    // The bearer token, or null.
    var authToken :=
      if authHeader.Some? && Text.StartsWith(authHeader.value, BearerPrefix)
      then Str(authHeader.value[|BearerPrefix|..]) else Null;
    var expected := if cronSecret.Some? then Str(cronSecret.value) else Undefined;
    assert forall h: string, k: string ::
      (Text.StartsWith(h, BearerPrefix) && h[|BearerPrefix|..] == k) <==> h == BearerPrefix + k by {
      forall h: string, k: string
        ensures Text.StartsWith(h, BearerPrefix) && h[|BearerPrefix|..] == k <==> h == BearerPrefix + k
      {
        if h == BearerPrefix + k {
          assert h[..|BearerPrefix|] == BearerPrefix;
        }
        if Text.StartsWith(h, BearerPrefix) {
          assert h == h[..|BearerPrefix|] + h[|BearerPrefix|..];
        }
      }
    }
    fixedSecret == expected || authToken == expected
  }

  /** As written, with no `CRON_SECRET` configured, a request that carries no
      `secret` parameter at all is accepted (`undefined === undefined`). */
  lemma UnsetSecretAcceptsBareRequest(authHeader: Option<string>)
    ensures VerifyAuth(None, authHeader, None)
  {
  }

  /** `verifyAuth` as evidently intended: nothing is accepted unless a secret is
      configured, and then exactly the two ways of presenting it are. */
  function VerifyAuthStrict(secretParam: Option<string>, authHeader: Option<string>, cronSecret: Option<string>): (ok: bool)
    ensures ok ==> Truthy(cronSecret)
    ensures ok <==> (
      && Truthy(cronSecret)
      && (|| (secretParam.Some? && Text.ReplaceChar(secretParam.value, ' ', '+') == cronSecret.value)
          || (authHeader.Some? && authHeader.value == BearerPrefix + cronSecret.value)))
    ensures Truthy(cronSecret) ==> ok == VerifyAuth(secretParam, authHeader, cronSecret)
  {
    Truthy(cronSecret) && VerifyAuth(secretParam, authHeader, cronSecret)
  }

  /** A secret without spaces survives the query string turning `+` into a space:
      the repair restores it, so the job accepts it. */
  lemma QuerySecretRepair(secret: string)
    requires ' ' !in secret && secret != ""
    ensures VerifyAuthStrict(Some(Text.ReplaceChar(secret, '+', ' ')), None, Some(secret))
  {
    var decoded := Text.ReplaceChar(secret, '+', ' ');
    var repaired := Text.ReplaceChar(decoded, ' ', '+');
    assert |repaired| == |secret|;
    forall i | 0 <= i < |secret|
      ensures repaired[i] == secret[i]
    {
      assert secret[i] != ' ';
    }
    assert repaired == secret;
  }

  /** A project row as the user query returns it. */
  datatype ProjectRow = ProjectRow(id: string, name: string, reminder: bool)

  /** A user row with its projects. */
  datatype UserRow = UserRow(id: string, githubId: string, email: Option<string>, projects: seq<ProjectRow>)

  /** One queued email: recipient and the project sections. */
  datatype Email = Email(userId: string, to: string, roasts: seq<ProjectRoast>)

  /** What the mailer reported for one email. */
  datatype SendResult = SendResult(userId: string, to: string, success: bool)

  datatype JobResponse =
    | Unauthorized                   // 401
    | NoReminderUsers                // 200, nothing to do
    | NoneQueued                     // 200, no user had a usable address
    | Sent(totalEmails: nat, successCount: nat, failureCount: nat, details: seq<SendResult>, emails: seq<Email>)
    | ServerError                    // 500, the user query failed

  /** `projects: { where: { reminder: true } }` */
  function ReminderProjects(projects: seq<ProjectRow>): (r: seq<ProjectRow>)
    ensures |r| <= |projects|
    ensures forall p :: p in r <==> p in projects && p.reminder
    decreases |projects|
  {
    if |projects| == 0 then []
    else
      assert forall p :: p in projects <==> p == projects[0] || p in projects[1..];
      (if projects[0].reminder then [projects[0]] else []) + ReminderProjects(projects[1..])
  }

  /** A user as the query and the `usersWithProjects` filter leave it: present
      only with an email column set and a reminder-enabled project, and then
      carrying only those projects. */
  function Selected(u: UserRow): Option<UserRow> {
    var kept := u.(projects := ReminderProjects(u.projects));
    if u.email.Some? && |kept.projects| > 0 then Some(kept) else None
  }

  /** The user query with the `usersWithProjects` filter, in query order. */
  function UsersWithReminders(users: seq<UserRow>): (r: seq<UserRow>)
    ensures |r| <= |users|
    ensures forall v :: v in r ==> v.email.Some? && |v.projects| > 0 && forall p :: p in v.projects ==> p.reminder
    ensures forall k :: 0 <= k < |users| && Selected(users[k]).Some? ==> Selected(users[k]).value in r
    ensures forall v :: v in r ==> exists k :: 0 <= k < |users| && Selected(users[k]) == Some(v)
    decreases |users|
  {
    if |users| == 0 then []
    else
      var rest := UsersWithReminders(users[1..]);
      assert forall k :: 1 <= k < |users| ==> users[k] == users[1..][k - 1];
      var r := (if Selected(users[0]).Some? then [Selected(users[0]).value] else []) + rest;
      assert forall v :: v in r ==> exists k :: 0 <= k < |users| && Selected(users[k]) == Some(v) by {
        forall v | v in r
          ensures exists k :: 0 <= k < |users| && Selected(users[k]) == Some(v)
        {
          if v !in rest {
            assert Selected(users[0]) == Some(v);
          } else {
            var k :| 0 <= k < |users[1..]| && Selected(users[1..][k]) == Some(v);
            assert Selected(users[k + 1]) == Some(v);
          }
        }
      }
      r
  }

  /** The repository a project is roasted as: the parsed reference, or the user's
      account with the project name when the name does not parse. */
  function RepoFor(user: UserRow, project: ProjectRow, pathnameOf: string -> Option<string>): (repo: GitHubRepo)
    ensures ExtractGitHubInfo(project.name, pathnameOf).None? ==> repo == GitHubRepo(user.githubId, project.name)
    ensures ExtractGitHubInfo(project.name, pathnameOf).Some? ==> repo == ExtractGitHubInfo(project.name, pathnameOf).value
  {
    match ExtractGitHubInfo(project.name, pathnameOf)
    case Some(info) => info
    case None => GitHubRepo(user.githubId, project.name)
  }

  /** The email for one user: one section per reminder project, in order. */
  function EmailFor(user: UserRow, pathnameOf: string -> Option<string>, stats: GitHubRepo -> Option<RepoStats>): (e: Email)
    requires user.email.Some?
    ensures e.to == user.email.value && e.userId == user.id
    ensures |e.roasts| == |user.projects|
    ensures forall i :: 0 <= i < |user.projects| ==>
      var repo := RepoFor(user, user.projects[i], pathnameOf);
      e.roasts[i] == GenerateProjectRoast(repo, stats(repo))
  {
    Email(user.id, user.email.value, seq(|user.projects|, i requires 0 <= i < |user.projects| =>
      var repo := RepoFor(user, user.projects[i], pathnameOf);
      GenerateProjectRoast(repo, stats(repo))))
  }

  /** The loop over users: a user whose address is empty is skipped. */
  function QueueEmails(users: seq<UserRow>, pathnameOf: string -> Option<string>, stats: GitHubRepo -> Option<RepoStats>): (emails: seq<Email>)
    ensures |emails| == |Addressable(users)|
    ensures forall i :: 0 <= i < |emails| ==> emails[i] == EmailFor(Addressable(users)[i], pathnameOf, stats)
  {
    var targets := Addressable(users);
    seq(|targets|, i requires 0 <= i < |targets| => EmailFor(targets[i], pathnameOf, stats))
  }

  /** The users the loop does not skip: those whose address is a non-empty string. */
  function Addressable(users: seq<UserRow>): (r: seq<UserRow>)
    ensures |r| <= |users|
    ensures forall u :: u in r <==> u in users && Truthy(u.email)
    decreases |users|
  {
    if |users| == 0 then []
    else
      assert forall u :: u in users <==> u == users[0] || u in users[1..];
      (if Truthy(users[0].email) then [users[0]] else []) + Addressable(users[1..])
  }

  /** The success flags of the results, in order. */
  function Flags(results: seq<SendResult>): (flags: seq<bool>)
    ensures |flags| == |results|
    ensures forall i :: 0 <= i < |results| ==> flags[i] == results[i].success
  {
    seq(|results|, i requires 0 <= i < |results| => results[i].success)
  }

  /** `emailResults.filter(result => result.success).length`: the number of
      successful sends. */
  function SuccessCount(results: seq<SendResult>): (n: nat)
    ensures n == multiset(Flags(results))[true]
    ensures n <= |results|
    ensures n == |results| <==> forall i :: 0 <= i < |results| ==> results[i].success
    ensures n == 0 <==> forall i :: 0 <= i < |results| ==> !results[i].success
    decreases |results|
  {
    if |results| == 0 then 0
    else
      var rest := SuccessCount(results[1..]);
      assert forall i :: 1 <= i < |results| ==> results[i] == results[1..][i - 1];
      assert Flags(results) == [results[0].success] + Flags(results[1..]);
      (if results[0].success then 1 else 0) + rest
  }

  /** The `GET` handler after authentication has been decided. `users` is the
      user query's answer, `stats` the repository API and `deliver` the mailer. */
  function ReminderJob(
    authorized: bool, users: Result<seq<UserRow>, Store.StoreError>,
    pathnameOf: string -> Option<string>, stats: GitHubRepo -> Option<RepoStats>,
    deliver: Email -> bool): (r: JobResponse)
    // A failed check answers 401 before the user query is looked at.
    ensures r == Unauthorized <==> !authorized
    ensures r == ServerError <==> authorized && users.Err?
    ensures r == NoReminderUsers <==> authorized && users.Ok? && UsersWithReminders(users.value) == []
    // Mail goes out as soon as one selected user has an address.
    ensures authorized && users.Ok? && Addressable(UsersWithReminders(users.value)) != [] ==> r.Sent?
    // One email per user with an address and a reminder project; every email is counted once.
    ensures r.Sent? ==>
      && users.Ok?
      && r.totalEmails == |r.emails| == |r.details| == |Addressable(UsersWithReminders(users.value))| > 0
      && r.successCount == SuccessCount(r.details)
      && r.successCount + r.failureCount == r.totalEmails
      && (forall i :: 0 <= i < |r.details| ==> r.details[i].success == deliver(r.emails[i]))
      && (forall i :: 0 <= i < |r.details| ==>
            r.details[i].userId == r.emails[i].userId && r.details[i].to == r.emails[i].to)
      && forall i :: 0 <= i < |r.emails| ==>
           r.emails[i] == EmailFor(Addressable(UsersWithReminders(users.value))[i], pathnameOf, stats)
    // Users were selected but none had a usable address.
    ensures r == NoneQueued <==> (
      && authorized && users.Ok? && UsersWithReminders(users.value) != []
      && Addressable(UsersWithReminders(users.value)) == [])
  {
    if !authorized then
      Unauthorized
    else
      match users
      case Err(_) => ServerError
      case Ok(rows) =>
        var withProjects := UsersWithReminders(rows);
        if |withProjects| == 0 then
          NoReminderUsers
        else
          var emails := QueueEmails(withProjects, pathnameOf, stats);
          if |emails| == 0 then
            NoneQueued
          else
            var results := seq(|emails|, i requires 0 <= i < |emails| =>
              SendResult(emails[i].userId, emails[i].to, deliver(emails[i])));
            var successCount := SuccessCount(results);
            Sent(|results|, successCount, |results| - successCount, results, emails)
  }

  /** Every user of the query who has an address and a reminder-enabled project
      gets an email of their own, addressed to them. */
  lemma EveryReminderUserMailed(
    rows: seq<UserRow>, u: UserRow, p: ProjectRow,
    pathnameOf: string -> Option<string>, stats: GitHubRepo -> Option<RepoStats>, deliver: Email -> bool)
    requires u in rows && Truthy(u.email) && p in u.projects && p.reminder
    ensures var r := ReminderJob(true, Ok(rows), pathnameOf, stats, deliver);
      && r.Sent?
      && exists i :: 0 <= i < |r.emails| && r.emails[i].userId == u.id && r.emails[i].to == u.email.value
  {
    var k :| 0 <= k < |rows| && rows[k] == u;
    var kept := u.(projects := ReminderProjects(u.projects));
    assert p in kept.projects;
    assert Selected(rows[k]) == Some(kept);
    var selected := UsersWithReminders(rows);
    assert kept in selected;
    var targets := Addressable(selected);
    assert kept in targets;
    var i :| 0 <= i < |targets| && targets[i] == kept;
    var r := ReminderJob(true, Ok(rows), pathnameOf, stats, deliver);
    assert r.emails[i] == EmailFor(kept, pathnameOf, stats);
  }

  /** The `GET` handler as written: `verifyAuth` in front of the job. With no
      `CRON_SECRET` configured, a request without any secret runs the job and
      sends the mail. */
  function SendEmailRouteAsWritten(
    secretParam: Option<string>, authHeader: Option<string>, cronSecret: Option<string>,
    users: Result<seq<UserRow>, Store.StoreError>,
    pathnameOf: string -> Option<string>, stats: GitHubRepo -> Option<RepoStats>,
    deliver: Email -> bool): (r: JobResponse)
    ensures r == Unauthorized <==> !VerifyAuth(secretParam, authHeader, cronSecret)
    ensures (&& cronSecret.None? && secretParam.None? && users.Ok?
             && Addressable(UsersWithReminders(users.value)) != []) ==> r.Sent?
  {
    ReminderJob(VerifyAuth(secretParam, authHeader, cronSecret), users, pathnameOf, stats, deliver)
  }

  /** The route with the corrected secret check in front of the job: nothing
      runs unless a secret is configured, and with one it answers as the route
      as written does. */
  function SendEmailRoute(
    secretParam: Option<string>, authHeader: Option<string>, cronSecret: Option<string>,
    users: Result<seq<UserRow>, Store.StoreError>,
    pathnameOf: string -> Option<string>, stats: GitHubRepo -> Option<RepoStats>,
    deliver: Email -> bool): (r: JobResponse)
    ensures !Truthy(cronSecret) ==> r == Unauthorized
    ensures r == Unauthorized <==> !VerifyAuthStrict(secretParam, authHeader, cronSecret)
    ensures Truthy(cronSecret) ==>
      r == SendEmailRouteAsWritten(secretParam, authHeader, cronSecret, users, pathnameOf, stats, deliver)
  {
    ReminderJob(VerifyAuthStrict(secretParam, authHeader, cronSecret), users, pathnameOf, stats, deliver)
  }
}
