/** The session-record helpers of app/services/database.py over the
    `DBSession` table of app/models/database.py: keyed upsert, lookups and delete. */
module SessionRecords {
  import opened Wrappers
  import opened Conversation
  import Table

  /** A `DBSession` row. `lastInteraction` is the parsed `last_interaction`. */
  datatype Record = Record(
    id: string,
    owner: Option<string>,
    history: seq<ApiMessage>,
    lastInteraction: int,
    stage: string)

  function RecordKey(r: Record): string {
    r.id
  }

  /** The `SessionContext` handed to `save_session`. `lastInteraction` is the
      result of `datetime.fromisoformat(last_interaction)`, `None` when that
      raises (the field is absent or not an ISO time). */
  datatype Context = Context(
    id: string,
    owner: Option<string>,
    history: seq<ApiMessage>,
    lastInteraction: Option<int>,
    stage: string)

  predicate Valid(rows: seq<Record>) {
    Table.UniqueKeys(rows, RecordKey)
  }

  /** `save_session(db, session_data)`: update the record with that id in place
      (history, last interaction and stage; the owner is kept), or insert one
      built from the context. Fails when the last-interaction time cannot be parsed. */
  function SaveRecord(rows: seq<Record>, ctx: Context): (r: Result<(seq<Record>, Record)>)
    requires Valid(rows)
    ensures r.Err? <==> ctx.lastInteraction.None?
    ensures r.Ok? ==> Valid(r.value.0)
    ensures r.Ok? ==> r.value.1.id == ctx.id && r.value.1.history == ctx.history
    ensures r.Ok? ==> r.value.1.lastInteraction == ctx.lastInteraction.value && r.value.1.stage == ctx.stage
    ensures r.Ok? && !Table.HasKey(rows, RecordKey, ctx.id) ==>
              r.value.0 == rows + [Record(ctx.id, ctx.owner, ctx.history, ctx.lastInteraction.value, ctx.stage)]
    ensures r.Ok? && Table.HasKey(rows, RecordKey, ctx.id) ==>
              |r.value.0| == |rows| &&
              forall i :: 0 <= i < |rows| ==>
                r.value.0[i] == (if rows[i].id == ctx.id then rows[i].(history := ctx.history,
                  lastInteraction := ctx.lastInteraction.value, stage := ctx.stage) else rows[i])
  {
    if ctx.lastInteraction.None? then Err("last_interaction is not an ISO time")
    else
      var at := ctx.lastInteraction.value;
      match Table.Lookup(rows, RecordKey, ctx.id)
      case None =>
        var row := Record(ctx.id, ctx.owner, ctx.history, at, ctx.stage);
        Table.AppendFreshKeepsUnique(rows, RecordKey, row);
        Ok((rows + [row], row))
      case Some(prior) =>
        var row := prior.(history := ctx.history, lastInteraction := at, stage := ctx.stage);
        Table.ReplaceKeepsKeys(rows, RecordKey, row);
        var i :| 0 <= i < |rows| && rows[i] == prior;
        forall j | 0 <= j < |rows| && rows[j].id == ctx.id
          ensures rows[j] == prior
        {
          Table.KeyDeterminesIndex(rows, RecordKey, i, j);
        }
        Ok((Table.Replace(rows, RecordKey, row), row))
  }

  /** `get_session_by_id`. */
  function GetById(rows: seq<Record>, id: string): (r: Option<Record>)
    ensures r.None? <==> forall i :: 0 <= i < |rows| ==> rows[i].id != id
    ensures r.Some? ==> r.value in rows && r.value.id == id
  {
    Table.Lookup(rows, RecordKey, id)
  }

  /** `get_session_by_user_id`: the first record of that owner. */
  function GetByUserId(rows: seq<Record>, userId: string): (r: Option<Record>)
    ensures r.None? <==> forall i :: 0 <= i < |rows| ==> rows[i].owner != Some(userId)
    ensures r.Some? ==> r.value in rows && r.value.owner == Some(userId)
  {
    Table.FirstWhere(rows, (x: Record) => x.owner == Some(userId))
  }

  /** `delete_session`: the rows afterwards and whether a record was deleted. */
  function DeleteRecord(rows: seq<Record>, id: string): (r: (seq<Record>, bool))
    requires Valid(rows)
    ensures Valid(r.0)
    ensures r.1 <==> Table.HasKey(rows, RecordKey, id)
    ensures !r.1 ==> r.0 == rows
    ensures forall x :: x in r.0 <==> x in rows && x.id != id
  {
    if Table.HasKey(rows, RecordKey, id) then
      Table.RetainKeepsUnique(rows, RecordKey, (x: Record) => x.id != id);
      (Table.Retain(rows, (x: Record) => x.id != id), true)
    else (rows, false)
  }

  /** A save followed by a lookup returns the saved record. */
  lemma SaveThenGetRecord(rows: seq<Record>, ctx: Context)
    requires Valid(rows)
    requires ctx.lastInteraction.Some?
    ensures GetById(SaveRecord(rows, ctx).value.0, ctx.id) == Some(SaveRecord(rows, ctx).value.1)
  {
    var (rows', row) := SaveRecord(rows, ctx).value;
    if Table.HasKey(rows, RecordKey, ctx.id) {
      var k :| 0 <= k < |rows| && RecordKey(rows[k]) == ctx.id;
      assert rows'[k] == row;
      Table.LookupUnique(rows', RecordKey, k);
    } else {
      assert rows'[|rows|] == row;
      Table.LookupUnique(rows', RecordKey, |rows|);
    }
  }

  /** After a delete no record with that id remains. */
  lemma DeleteThenGetRecord(rows: seq<Record>, id: string)
    requires Valid(rows)
    ensures GetById(DeleteRecord(rows, id).0, id).None?
  {
  }
}
