/** The two annotation actions, `updateProgress` and `toggleReminder`: each a
    single-record update keyed by the repository id alone. Updating an id that
    is not stored fails, as the store's `update` does. */
module Annotations {
  import opened Common
  import opened Store

  /** `updateProgress`: the record's progress becomes exactly the value sent
      (no clamping here); nothing else in the store changes. */
  function UpdateProgress(store: Projects, repoId: string, newProgressValue: int): (r: Result<Projects, StoreError>)
    ensures r.Err? <==> repoId !in store
    ensures r.Err? ==> r.error == RecordNotFound(repoId)
    ensures r.Ok? ==> r.value.Keys == store.Keys
    ensures r.Ok? ==> r.value[repoId].progress == newProgressValue
    ensures r.Ok? ==> r.value[repoId] == store[repoId].(progress := newProgressValue)
    ensures r.Ok? ==> forall id :: id in store && id != repoId ==> r.value[id] == store[id]
  {
    if repoId in store then
      Ok(store[repoId := store[repoId].(progress := newProgressValue)])
    else
      Err(RecordNotFound(repoId))
  }

  /** `toggleReminder`: the record's flag becomes the negation of the flag the
      client sent, whatever is stored; nothing else in the store changes. */
  function ToggleReminder(store: Projects, repoId: string, projectReminder: bool): (r: Result<Projects, StoreError>)
    ensures r.Err? <==> repoId !in store
    ensures r.Err? ==> r.error == RecordNotFound(repoId)
    ensures r.Ok? ==> r.value.Keys == store.Keys
    ensures r.Ok? ==> r.value[repoId].reminder == !projectReminder
    ensures r.Ok? ==> r.value[repoId] == store[repoId].(reminder := !projectReminder)
    ensures r.Ok? ==> forall id :: id in store && id != repoId ==> r.value[id] == store[id]
  {
    if repoId in store then
      Ok(store[repoId := store[repoId].(reminder := !projectReminder)])
    else
      Err(RecordNotFound(repoId))
  }

  /** Sending the same progress twice leaves the store as sending it once. */
  lemma UpdateProgressIdempotent(store: Projects, repoId: string, v: int)
    requires repoId in store
    ensures UpdateProgress(UpdateProgress(store, repoId, v).value, repoId, v) == UpdateProgress(store, repoId, v)
  {
    var once := UpdateProgress(store, repoId, v).value;
    assert once[repoId := once[repoId].(progress := v)] == once;
  }

  /** Of two successive progress updates to the same record, the last one wins. */
  lemma UpdateProgressLastWins(store: Projects, repoId: string, v1: int, v2: int)
    requires repoId in store
    ensures UpdateProgress(UpdateProgress(store, repoId, v1).value, repoId, v2) == UpdateProgress(store, repoId, v2)
  {
    var first := UpdateProgress(store, repoId, v1).value;
    assert first[repoId := first[repoId].(progress := v2)]
        == store[repoId := store[repoId].(progress := v2)];
  }

  /** Repeating a toggle with the same argument is idempotent: the flag is set
      from the argument, not flipped from the stored value. */
  lemma ToggleReminderIdempotent(store: Projects, repoId: string, flag: bool)
    requires repoId in store
    ensures ToggleReminder(ToggleReminder(store, repoId, flag).value, repoId, flag) == ToggleReminder(store, repoId, flag)
  {
    var once := ToggleReminder(store, repoId, flag).value;
    assert once[repoId := once[repoId].(reminder := !flag)] == once;
  }

  /** When the client's flag matches the stored one the call flips the stored flag,
      and otherwise it leaves the flag as stored. */
  lemma ToggleFlipsIffInSync(store: Projects, repoId: string, flag: bool)
    requires repoId in store
    ensures ToggleReminder(store, repoId, flag).value[repoId].reminder != store[repoId].reminder
        <==> flag == store[repoId].reminder
  {
  }

  /** The two annotations are independent: updating progress and setting the
      reminder give the same store in either order. */
  lemma AnnotationsCommute(store: Projects, repoId: string, v: int, flag: bool, otherId: string)
    requires repoId in store && otherId in store
    ensures ToggleReminder(UpdateProgress(store, repoId, v).value, otherId, flag)
         == UpdateProgress(ToggleReminder(store, otherId, flag).value, repoId, v)
  {
    var a := UpdateProgress(store, repoId, v).value;
    var b := ToggleReminder(store, otherId, flag).value;
    var ab := a[otherId := a[otherId].(reminder := !flag)];
    var ba := b[repoId := b[repoId].(progress := v)];
    assert ab.Keys == ba.Keys;
    assert forall id :: id in ab ==> ab[id] == ba[id];
    assert ab == ba;
    assert ToggleReminder(a, otherId, flag) == Ok(ab);
    assert UpdateProgress(b, repoId, v) == Ok(ba);
  }
}
