/** The repository fetcher (`lib/github.ts`): the request it builds and the
    normalisation of the API's answer. The HTTP call itself is a parameter: the
    payload it produced, or the failure it raised. */
module Github {
  import opened Common
  import Text

  /** One item of the `/users/{username}/repos` payload; absent fields are `None`. */
  datatype ApiRepo = ApiRepo(
    id: int,
    name: string,
    description: Option<string>,
    language: Option<string>,
    stargazersCount: Option<int>,
    forksCount: Option<int>,
    updatedAt: Option<string>,
    htmlUrl: string,
    fork: bool)

  /** A normalised repository summary, as handed to the rest of the application. */
  datatype Repository = Repository(
    id: int,
    name: string,
    description: string,
    language: Option<string>,
    stargazersCount: int,
    forksCount: int,
    updatedAt: string,
    htmlUrl: string,
    fork: bool,
    progress: Option<int>)

  /** Any failure of the request: network, HTTP status, or an unreadable body. */
  datatype FetchError = FetchError

  const AcceptHeader: string := "application/vnd.github.v3+json"
  const ApiVersion: string := "2022-11-28"

  /** The URL of the listing request for `username`. */
  function ReposUrl(username: string): (url: string)
    ensures Text.StartsWith(url, "https://api.github.com/users/")
    ensures Text.EndsWith(url, "/repos")
    ensures |url| == |"https://api.github.com/users/"| + |username| + |"/repos"|
    ensures url[|"https://api.github.com/users/"|..|url| - |"/repos"|] == username
  {
    "https://api.github.com/users/" + username + "/repos"
  }

  /** The request headers: the media type and API version always, and a bearer
      `Authorization` header exactly when a (non-empty) token is configured. */
  function RequestHeaders(token: Option<string>): (h: map<string, string>)
    ensures "Accept" in h && h["Accept"] == AcceptHeader
    ensures "X-GitHub-Api-Version" in h && h["X-GitHub-Api-Version"] == ApiVersion
    ensures "Authorization" in h <==> Truthy(token)
    ensures h.Keys <= {"Accept", "X-GitHub-Api-Version", "Authorization"}
  {
    var base := map["Accept" := AcceptHeader, "X-GitHub-Api-Version" := ApiVersion];
    if Truthy(token) then base["Authorization" := BearerPrefix + token.value] else base
  }

  /** The configured token can be read back from the `Authorization` header by
      stripping the seven-character bearer prefix. */
  lemma AuthorizationCarriesToken(token: Option<string>)
    requires Truthy(token)
    ensures "Authorization" in RequestHeaders(token)
    ensures Text.StartsWith(RequestHeaders(token)["Authorization"], BearerPrefix)
    ensures RequestHeaders(token)["Authorization"][|BearerPrefix|..] == token.value
  {
    var h := BearerPrefix + token.value;
    assert h[..|BearerPrefix|] == BearerPrefix;
    assert h[|BearerPrefix|..] == token.value;
  }

  /** The per-item mapping: identity, name, URL and fork flag are copied, a
      missing description becomes `""`, a missing language stays missing,
      missing counts become 0, a missing timestamp becomes `now`, and progress
      is left unset. */
  function Normalize(item: ApiRepo, now: string): (r: Repository)
    ensures r.id == item.id && r.name == item.name
    ensures r.htmlUrl == item.htmlUrl && r.fork == item.fork
    ensures item.description.None? ==> r.description == ""
    ensures item.description.Some? ==> r.description == item.description.value
    ensures r.language == item.language
    ensures item.stargazersCount.None? ==> r.stargazersCount == 0
    ensures item.stargazersCount.Some? ==> r.stargazersCount == item.stargazersCount.value
    ensures item.forksCount.None? ==> r.forksCount == 0
    ensures item.forksCount.Some? ==> r.forksCount == item.forksCount.value
    ensures item.updatedAt.None? ==> r.updatedAt == now
    ensures item.updatedAt.Some? ==> r.updatedAt == item.updatedAt.value
    ensures r.progress.None?
  {
    Repository(
      item.id,
      item.name,
      item.description.GetOr(""),
      item.language,
      item.stargazersCount.GetOr(0),
      item.forksCount.GetOr(0),
      item.updatedAt.GetOr(now),
      item.htmlUrl,
      item.fork,
      None)
  }

  /** A repository with no progress, presented as a payload item with every
      field present. */
  function AsApiRepo(r: Repository): ApiRepo {
    ApiRepo(r.id, r.name, Some(r.description), r.language, Some(r.stargazersCount),
            Some(r.forksCount), Some(r.updatedAt), r.htmlUrl, r.fork)
  }

  /** A payload item that already has every field is passed through unchanged:
      normalisation only fills defaults and never rewrites a present value. */
  lemma NormalizeRoundTrip(r: Repository, now: string)
    requires r.progress.None?
    ensures Normalize(AsApiRepo(r), now) == r
  {
  }

  /** `fetchUserRepositories`: the normalised items in payload order, or the
      empty list when the request failed in any way. */
  function FetchUserRepositories(response: Result<seq<ApiRepo>, FetchError>, now: string): (repos: seq<Repository>)
    ensures response.Err? ==> repos == []
    ensures response.Ok? ==> |repos| == |response.value|
    ensures response.Ok? ==> forall i :: 0 <= i < |repos| ==> repos[i] == Normalize(response.value[i], now)
    ensures forall i :: 0 <= i < |repos| ==> repos[i].progress.None?
  {
    match response
    case Err(_) => []
    case Ok(items) => seq(|items|, i requires 0 <= i < |items| => Normalize(items[i], now))
  }
}
