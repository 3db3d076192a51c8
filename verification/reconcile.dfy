/** The current `UpdateRepositoriesAction` (app/actions/update-repositories.ts):
    merges the fetched repository list with the session user's stored project
    records, creating a record (progress 0, reminder off) for every repository
    the user has no record for yet. */
module Reconcile {
  import opened Common
  import opened Store
  import opened Github
  import Text

  /** The fetcher's answer as the actions destructure it. */
  datatype Listing<T> = Listing(publicRepos: int, repos: seq<T>)

  /** A fetched repository with the stored annotations attached
      (`{...repo, progress, project_reminder}`). */
  datatype MergedRepo = MergedRepo(repo: Repository, progress: int, projectReminder: bool)

  /** Without a session the fetched listing comes back as it is; with one, merged. */
  datatype Outcome = Unmerged(plain: Listing<Repository>) | Merged(merged: Listing<MergedRepo>)

  /** Which store statements fail if issued (the failure is rethrown to the caller). */
  datatype Faults = Faults(readFails: bool, writeFails: bool)

  /** The action's return value together with the store it leaves behind. */
  datatype Effect = Effect(outcome: Outcome, store: Projects)

  /** The store key of a repository: `repo.id.toString()`. */
  function IdKey(repo: Repository): string {
    Text.IntToString(repo.id)
  }

  /** The annotations reported for one repository: the stored ones when the
      user has a record under its id, `0` and `false` otherwise. */
  function MergeOne(repo: Repository, owned: Projects): (m: MergedRepo)
    ensures m.repo == repo
    ensures IdKey(repo) in owned ==> m.progress == owned[IdKey(repo)].progress
    ensures IdKey(repo) in owned ==> m.projectReminder == owned[IdKey(repo)].reminder
    ensures IdKey(repo) !in owned ==> m.progress == 0 && !m.projectReminder
  {
    var key := IdKey(repo);
    if key in owned then
      MergedRepo(repo, OrZero(Some(owned[key].progress)), OrFalse(Some(owned[key].reminder)))
    else
      MergedRepo(repo, 0, false)
  }

  function MergeAll(repos: seq<Repository>, owned: Projects): (merged: seq<MergedRepo>)
    ensures |merged| == |repos|
    ensures forall i :: 0 <= i < |repos| ==> merged[i] == MergeOne(repos[i], owned)
  {
    seq(|repos|, i requires 0 <= i < |repos| => MergeOne(repos[i], owned))
  }

  /** The fetched repositories whose id has no record among `owned`, in fetch order. */
  function Unseen(repos: seq<Repository>, owned: Projects): (newRepos: seq<Repository>)
    ensures |newRepos| <= |repos|
    ensures forall x :: x in newRepos <==> x in repos && IdKey(x) !in owned
    decreases |repos|
  {
    if |repos| == 0 then []
    else
      var rest := Unseen(repos[1..], owned);
      assert forall x :: x in repos <==> x == repos[0] || x in repos[1..];
      if IdKey(repos[0]) in owned then rest else [repos[0]] + rest
  }

  /** The record created for a repository seen for the first time. */
  function NewRow(repo: Repository, userId: string): Row {
    Row(IdKey(repo), ProjectRecord(repo.name, 0, false, userId))
  }

  function NewRows(newRepos: seq<Repository>, userId: string): (rows: seq<Row>)
    ensures |rows| == |newRepos|
    ensures forall i :: 0 <= i < |newRepos| ==> rows[i] == NewRow(newRepos[i], userId)
  {
    seq(|newRepos|, i requires 0 <= i < |newRepos| => NewRow(newRepos[i], userId))
  }

  /** The ids of the repositories in `newRepos`. */
  function Keys(newRepos: seq<Repository>): set<string> {
    set x | x in newRepos :: IdKey(x)
  }

  lemma NewRowsIds(newRepos: seq<Repository>, userId: string)
    ensures Ids(NewRows(newRepos, userId)) == Keys(newRepos)
  {
    var rows := NewRows(newRepos, userId);
    forall id | id in Keys(newRepos)
      ensures id in Ids(rows)
    {
      var x :| x in newRepos && IdKey(x) == id;
      var i :| 0 <= i < |newRepos| && newRepos[i] == x;
      assert rows[i].id == id;
    }
  }

  /** The current action's batch create, skipped when nothing is new: every new
      id is added with the remote name, progress 0, reminder off and the given
      owner, and an id stored for another user is skipped. */
  function CreateNew(store: Projects, newRepos: seq<Repository>, userId: string): (r: Projects)
    ensures r.Keys == store.Keys + Keys(newRepos)
    ensures forall id :: id in store ==> r[id] == store[id]
    ensures forall id :: id in r && id !in store ==>
      exists x :: x in newRepos && IdKey(x) == id && r[id] == ProjectRecord(x.name, 0, false, userId)
    // Nothing is written when every id is already stored.
    ensures Keys(newRepos) <= store.Keys ==> r == store
  {
    if |newRepos| == 0 then
      assert Keys(newRepos) == {};
      store
    else
      var rows := NewRows(newRepos, userId);
      NewRowsIds(newRepos, userId);
      var r := InsertSkippingDuplicates(store, rows);
      assert forall id :: id in r && id !in store ==>
        var x := newRepos[FirstIndex(rows, id)];
        x in newRepos && IdKey(x) == id && r[id] == ProjectRecord(x.name, 0, false, userId);
      assert Keys(newRepos) <= store.Keys ==> r.Keys == store.Keys;
      r
  }

  /** The action itself. `fetch` answers for the `username` argument; the store
      is read and written on behalf of the session's user. */
  function UpdateRepositoriesAction(
    session: Option<string>, username: string, fetch: string -> Listing<Repository>,
    store: Projects, faults: Faults): (r: Result<Effect, StoreError>)
    // Without a session user the fetched listing is returned and the store is untouched.
    ensures !Truthy(session) ==> r == Ok(Effect(Unmerged(fetch(username)), store))
    // Store failures are rethrown, never swallowed; no write is issued when nothing is new.
    ensures r.Err? <==> (Truthy(session) && (faults.readFails
      || (faults.writeFails && Unseen(fetch(username).repos, OwnedBy(store, session.value)) != [])))
    // With a session user: same count, same order, remote fields carried over, annotations attached.
    ensures Truthy(session) && r.Ok? ==>
      var listing := fetch(username);
      var owned := OwnedBy(store, session.value);
      && r.value.outcome.Merged?
      && r.value.outcome.merged.publicRepos == listing.publicRepos
      && |r.value.outcome.merged.repos| == |listing.repos|
      && forall i :: 0 <= i < |listing.repos| ==>
           var m := r.value.outcome.merged.repos[i];
           && m.repo == listing.repos[i]
           && (IdKey(listing.repos[i]) in owned ==>
                 m.progress == owned[IdKey(listing.repos[i])].progress
                 && m.projectReminder == owned[IdKey(listing.repos[i])].reminder)
           && (IdKey(listing.repos[i]) !in owned ==> m.progress == 0 && !m.projectReminder)
    // Stored records are never modified or deleted.
    ensures r.Ok? ==> forall id :: id in store ==> id in r.value.store && r.value.store[id] == store[id]
    // Exactly the fetched ids unknown to the user are added (an id stored for another user is skipped) ...
    ensures Truthy(session) && r.Ok? ==>
      r.value.store.Keys == store.Keys + Keys(Unseen(fetch(username).repos, OwnedBy(store, session.value)))
    // ... each with the remote name, progress 0, reminder off, owned by the session user.
    ensures Truthy(session) && r.Ok? ==> forall id :: id in r.value.store && id !in store ==>
      exists x :: x in Unseen(fetch(username).repos, OwnedBy(store, session.value)) && IdKey(x) == id
        && r.value.store[id] == ProjectRecord(x.name, 0, false, session.value)
  {
    var listing := fetch(username);
    if !Truthy(session) then
      Ok(Effect(Unmerged(listing), store))
    else if faults.readFails then
      Err(StoreUnavailable)
    else
      var owned := OwnedBy(store, session.value);
      var newRepos := Unseen(listing.repos, owned);
      if faults.writeFails && |newRepos| > 0 then
        Err(StoreUnavailable)
      else
        var merged := Merged(Listing(listing.publicRepos, MergeAll(listing.repos, owned)));
        Ok(Effect(merged, CreateNew(store, newRepos, session.value)))
  }

  const NoFaults: Faults := Faults(false, false)

  /** Running the action a second time with an unchanged fetch creates nothing
      and reports the same listing: the first run made a record for every id
      it could, and an id stored for another user is skipped both times. */
  lemma {:induction false} RerunChangesNothing(
    session: Option<string>, username: string, fetch: string -> Listing<Repository>, store: Projects)
    ensures var first := UpdateRepositoriesAction(session, username, fetch, store, NoFaults);
      && first.Ok?
      && UpdateRepositoriesAction(session, username, fetch, first.value.store, NoFaults) == first
  {
    var first := UpdateRepositoriesAction(session, username, fetch, store, NoFaults);
    if Truthy(session) {
      var u := session.value;
      var listing := fetch(username);
      var owned1 := OwnedBy(store, u);
      var unseen1 := Unseen(listing.repos, owned1);
      var s1 := CreateNew(store, unseen1, u);
      var owned2 := OwnedBy(s1, u);
      forall i | 0 <= i < |listing.repos|
        ensures MergeOne(listing.repos[i], owned2) == MergeOne(listing.repos[i], owned1)
      {
        var k := IdKey(listing.repos[i]);
        if k !in owned1 {
          assert listing.repos[i] in unseen1;
          assert k in Keys(unseen1);
          if k !in store {
            var x :| x in unseen1 && IdKey(x) == k && s1[k] == ProjectRecord(x.name, 0, false, u);
          }
        }
      }
      assert MergeAll(listing.repos, owned2) == MergeAll(listing.repos, owned1);
      var unseen2 := Unseen(listing.repos, owned2);
      forall k | k in Keys(unseen2)
        ensures k in s1
      {
        var x :| x in unseen2 && IdKey(x) == k;
        if k !in owned1 {
          assert x in unseen1;
        }
      }
      assert CreateNew(s1, unseen2, u) == s1;
    }
  }

  /** The listing depends on the store only through the session user's own
      records: the `username` argument and other users' records play no part. */
  lemma ListingReadsOnlySessionRecords(
    session: Option<string>, username: string, fetch: string -> Listing<Repository>,
    store1: Projects, store2: Projects)
    requires Truthy(session)
    requires OwnedBy(store1, session.value) == OwnedBy(store2, session.value)
    ensures UpdateRepositoriesAction(session, username, fetch, store1, NoFaults).value.outcome
         == UpdateRepositoriesAction(session, username, fetch, store2, NoFaults).value.outcome
  {
  }
}
