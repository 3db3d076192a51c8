/** The persistence store of project annotations: one record per repository id
    (the id is the primary key, whatever the owner), with the two batch-create
    behaviours of `createMany`. */
module Store {
  import opened Common

  /** A stored project: a cached copy of the remote name, the completion
      percentage entered by the user, the reminder flag and the owner. */
  datatype ProjectRecord = ProjectRecord(name: string, progress: int, reminder: bool, userId: string)

  /** The project table, keyed by the repository id in decimal. */
  type Projects = map<string, ProjectRecord>

  datatype StoreError =
    | StoreUnavailable               // the database rejected or never answered the statement
    | UniqueViolation(id: string)    // an insert hit an id that is already taken
    | RecordNotFound(id: string)     // an update named an id that is not stored

  /** One row of a `createMany` batch. */
  datatype Row = Row(id: string, record: ProjectRecord)

  /** `findMany({ where: { userId } })`, keyed by id. */
  function OwnedBy(store: Projects, userId: string): (owned: Projects)
    ensures owned.Keys <= store.Keys
    ensures forall id :: id in owned <==> id in store && store[id].userId == userId
    ensures forall id :: id in owned ==> owned[id] == store[id]
  {
    map id | id in store && store[id].userId == userId :: store[id]
  }

  function Ids(rows: seq<Row>): set<string> {
    set i | 0 <= i < |rows| :: rows[i].id
  }

  lemma IdsCons(rows: seq<Row>)
    requires |rows| > 0
    ensures Ids(rows) == {rows[0].id} + Ids(rows[1..])
  {
    forall id | id in Ids(rows)
      ensures id in {rows[0].id} + Ids(rows[1..])
    {
      var i :| 0 <= i < |rows| && rows[i].id == id;
      if i > 0 {
        assert rows[1..][i - 1].id == id;
      }
    }
    forall id | id in Ids(rows[1..])
      ensures id in Ids(rows)
    {
      var i :| 0 <= i < |rows[1..]| && rows[1..][i].id == id;
      assert rows[i + 1].id == id;
    }
  }

  /** Index of the first row of the batch that carries `id`. */
  function FirstIndex(rows: seq<Row>, id: string): (i: nat)
    requires id in Ids(rows)
    ensures i < |rows| && rows[i].id == id
    ensures forall j :: 0 <= j < i ==> rows[j].id != id
    decreases |rows|
  {
    IdsCons(rows);
    if rows[0].id == id then 0 else FirstIndex(rows[1..], id) + 1
  }

  predicate DistinctIds(rows: seq<Row>) {
    forall i, j :: 0 <= i < j < |rows| ==> rows[i].id != rows[j].id
  }

  /** `createMany({ data: rows, skipDuplicates: true })`: a row whose id is
      already stored, or was inserted by an earlier row of the same batch, is
      skipped; stored records are never touched. */
  function InsertSkippingDuplicates(store: Projects, rows: seq<Row>): (r: Projects)
    ensures r.Keys == store.Keys + Ids(rows)
    ensures forall id :: id in store ==> r[id] == store[id]
    ensures forall id :: id in r && id !in store ==> r[id] == rows[FirstIndex(rows, id)].record
    decreases |rows|
  {
    if |rows| == 0 then store
    else
      IdsCons(rows);
      var next := if rows[0].id in store then store else store[rows[0].id := rows[0].record];
      InsertSkippingDuplicates(next, rows[1..])
  }

  /** `createMany({ data: rows })` without `skipDuplicates`: one statement that
      fails as a whole when an id is already stored or repeats in the batch. */
  function InsertAll(store: Projects, rows: seq<Row>): (r: Result<Projects, StoreError>)
    ensures r.Ok? <==> DistinctIds(rows) && Ids(rows) !! store.Keys
    ensures r.Ok? ==> r.value.Keys == store.Keys + Ids(rows)
    ensures r.Ok? ==> forall id :: id in store ==> r.value[id] == store[id]
    ensures r.Ok? ==> forall i :: 0 <= i < |rows| ==> r.value[rows[i].id] == rows[i].record
    ensures r.Err? ==> r.error.UniqueViolation? && r.error.id in Ids(rows)
    decreases |rows|
  {
    if |rows| == 0 then Ok(store)
    else
      IdsCons(rows);
      if rows[0].id in store then Err(UniqueViolation(rows[0].id))
      else InsertAll(store[rows[0].id := rows[0].record], rows[1..])
  }

  /** Replaying a skip-duplicates batch over its own result inserts nothing:
      two requests that race with the same rows leave one record per id. */
  lemma InsertSkippingDuplicatesIdempotent(store: Projects, rows: seq<Row>)
    ensures InsertSkippingDuplicates(InsertSkippingDuplicates(store, rows), rows)
         == InsertSkippingDuplicates(store, rows)
  {
    var once := InsertSkippingDuplicates(store, rows);
    var twice := InsertSkippingDuplicates(once, rows);
    assert Ids(rows) <= once.Keys;
    assert twice.Keys == once.Keys;
    forall id | id in once
      ensures twice[id] == once[id]
    {
    }
    assert twice == once;
  }
}
