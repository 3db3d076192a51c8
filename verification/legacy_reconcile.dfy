/** The older `UpdateRepositoriesAction` (app/actions/update-repositories/index.ts):
    no session check, the store is read and written for the `username` argument,
    the batch create is always issued and has no duplicate skipping, and the
    reported progress is looked up in the snapshot read before the create. */
module LegacyReconcile {
  import opened Common
  import opened Store
  import opened Github
  import opened Reconcile

  /** An item of the returned list: the remote fields copied one by one, the
      owner, and the stored progress when there was one (`undefined` otherwise). */
  datatype LegacyItem = LegacyItem(
    id: int,
    name: string,
    description: string,
    language: Option<string>,
    stargazersCount: int,
    forksCount: int,
    updatedAt: string,
    htmlUrl: string,
    fork: bool,
    userId: string,
    progress: Option<int>)

  /** The returned listing together with the store left behind. */
  datatype LegacyEffect = LegacyEffect(listing: Listing<LegacyItem>, store: Projects)

  /** The created record does not set `reminder`; the column default of the
      database schema applies, passed in as `schemaReminder`. */
  function LegacyRows(diff: seq<Repository>, username: string, schemaReminder: bool): (rows: seq<Row>)
    ensures |rows| == |diff|
    ensures forall i :: 0 <= i < |diff| ==>
      rows[i] == Row(IdKey(diff[i]), ProjectRecord(diff[i].name, 0, schemaReminder, username))
  {
    seq(|diff|, i requires 0 <= i < |diff| =>
      Row(IdKey(diff[i]), ProjectRecord(diff[i].name, 0, schemaReminder, username)))
  }

  /** One output item: the remote fields copied, the owner tag, and the progress
      read from the pre-create snapshot (`undefined` for an id it does not hold). */
  function LegacyItemOf(repo: Repository, username: string, owned: Projects): (item: LegacyItem)
    ensures && item.id == repo.id && item.name == repo.name && item.description == repo.description
            && item.language == repo.language && item.stargazersCount == repo.stargazersCount
            && item.forksCount == repo.forksCount && item.updatedAt == repo.updatedAt
            && item.htmlUrl == repo.htmlUrl && item.fork == repo.fork
    ensures item.userId == username
    ensures IdKey(repo) in owned ==> item.progress == Some(owned[IdKey(repo)].progress)
    ensures IdKey(repo) !in owned ==> item.progress.None?
  {
    var key := IdKey(repo);
    LegacyItem(repo.id, repo.name, repo.description, repo.language, repo.stargazersCount,
               repo.forksCount, repo.updatedAt, repo.htmlUrl, repo.fork, username,
               if key in owned then Some(owned[key].progress) else None)
  }

  /** No two repositories of `repos` share an id string. */
  predicate DistinctKeys(repos: seq<Repository>) {
    forall i, j :: 0 <= i < j < |repos| ==> IdKey(repos[i]) != IdKey(repos[j])
  }

  /** The older action's batch create, issued even for an empty diff and without
      duplicate skipping: it fails as a whole when a diff id is already stored
      (for any owner) or repeats, and otherwise adds every diff repository. */
  function LegacyCreate(store: Projects, diff: seq<Repository>, username: string, schemaReminder: bool)
    : (r: Result<Projects, StoreError>)
    ensures r.Ok? <==> DistinctKeys(diff) && Keys(diff) !! store.Keys
    ensures r.Err? ==> r.error.UniqueViolation? && r.error.id in Keys(diff)
    ensures r.Ok? ==> r.value.Keys == store.Keys + Keys(diff)
    ensures r.Ok? ==> forall id :: id in store ==> r.value[id] == store[id]
    ensures r.Ok? ==> forall x :: x in diff ==> r.value[IdKey(x)] == ProjectRecord(x.name, 0, schemaReminder, username)
  {
    var rows := LegacyRows(diff, username, schemaReminder);
    assert Ids(rows) == Keys(diff) by {
      forall id | id in Keys(diff) ensures id in Ids(rows) {
        var x :| x in diff && IdKey(x) == id;
        var i :| 0 <= i < |diff| && diff[i] == x;
        assert rows[i].id == id;
      }
    }
    assert DistinctIds(rows) <==> DistinctKeys(diff);
    var r := InsertAll(store, rows);
    assert r.Ok? ==> forall x :: x in diff ==>
      r.value[IdKey(x)] == ProjectRecord(x.name, 0, schemaReminder, username) by {
      if r.Ok? {
        forall x | x in diff
          ensures r.value[IdKey(x)] == ProjectRecord(x.name, 0, schemaReminder, username)
        {
          var i :| 0 <= i < |diff| && diff[i] == x;
          assert rows[i].id == IdKey(x);
        }
      }
    }
    r
  }

  /** The returned items, one per fetched repository, in fetch order. */
  function LegacyItems(repos: seq<Repository>, username: string, owned: Projects): (items: seq<LegacyItem>)
    ensures |items| == |repos|
    ensures forall i :: 0 <= i < |repos| ==> items[i] == LegacyItemOf(repos[i], username, owned)
  {
    seq(|repos|, i requires 0 <= i < |repos| => LegacyItemOf(repos[i], username, owned))
  }

  function LegacyUpdateRepositoriesAction(
    username: string, fetch: string -> Listing<Repository>, store: Projects,
    faults: Faults, schemaReminder: bool): (r: Result<LegacyEffect, StoreError>)
    // The create is issued even for an empty diff, so a failing write always surfaces.
    ensures faults.writeFails ==> r.Err?
    // Without skipDuplicates the batch fails as a whole when a diff id is already
    // stored (for another user) or repeats in the fetch.
    ensures var diff := Unseen(fetch(username).repos, OwnedBy(store, username));
      r.Ok? <==> (!faults.readFails && !faults.writeFails && DistinctKeys(diff) && Keys(diff) !! store.Keys)
    // The listing: `public_repos` passed through, one item per fetched repository in order.
    ensures r.Ok? ==>
      var listing := fetch(username);
      && r.value.listing.publicRepos == listing.publicRepos
      && |r.value.listing.repos| == |listing.repos|
      && forall i :: 0 <= i < |listing.repos| ==>
           r.value.listing.repos[i] == LegacyItemOf(listing.repos[i], username, OwnedBy(store, username))
    // The store gains exactly the diff, each record with the remote name, progress 0 and the owner.
    ensures r.Ok? ==>
      var diff := Unseen(fetch(username).repos, OwnedBy(store, username));
      && r.value.store.Keys == store.Keys + Keys(diff)
      && (forall id :: id in store ==> r.value.store[id] == store[id])
      && (forall x :: x in diff ==>
            r.value.store[IdKey(x)] == ProjectRecord(x.name, 0, schemaReminder, username))
  {
    var listing := fetch(username);
    if faults.readFails then
      Err(StoreUnavailable)
    else
      var owned := OwnedBy(store, username);
      var diff := Unseen(listing.repos, owned);
      if faults.writeFails then
        Err(StoreUnavailable)
      else
        match LegacyCreate(store, diff, username, schemaReminder)
        case Err(e) => Err(e)
        case Ok(store') => Ok(LegacyEffect(Listing(listing.publicRepos, LegacyItems(listing.repos, username, owned)), store'))
  }

  /** When the session user is the `username` argument, the schema default is
      `false` and nothing collides, both revisions leave the same store behind,
      and the progress they report agrees wherever the older revision reports any. */
  lemma RevisionsAgree(username: string, fetch: string -> Listing<Repository>, store: Projects)
    requires LegacyUpdateRepositoriesAction(username, fetch, store, NoFaults, false).Ok?
    requires username != ""
    ensures var prev := LegacyUpdateRepositoriesAction(username, fetch, store, NoFaults, false).value;
      var cur := UpdateRepositoriesAction(Some(username), username, fetch, store, NoFaults).value;
      && cur.store == prev.store
      && forall i :: 0 <= i < |prev.listing.repos| && prev.listing.repos[i].progress.Some? ==>
           prev.listing.repos[i].progress.value == cur.outcome.merged.repos[i].progress
  {
    var prev := LegacyUpdateRepositoriesAction(username, fetch, store, NoFaults, false).value;
    var cur := UpdateRepositoriesAction(Some(username), username, fetch, store, NoFaults).value;
    var diff := Unseen(fetch(username).repos, OwnedBy(store, username));
    assert cur.store.Keys == prev.store.Keys;
    forall id | id in cur.store
      ensures cur.store[id] == prev.store[id]
    {
      if id !in store {
        var x :| x in diff && IdKey(x) == id && cur.store[id] == ProjectRecord(x.name, 0, false, username);
      }
    }
    assert cur.store == prev.store;
    forall i | 0 <= i < |prev.listing.repos| && prev.listing.repos[i].progress.Some?
      ensures prev.listing.repos[i].progress.value == cur.outcome.merged.repos[i].progress
    {
      var repo := fetch(username).repos[i];
      assert prev.listing.repos[i] == LegacyItemOf(repo, username, OwnedBy(store, username));
    }
  }
}
