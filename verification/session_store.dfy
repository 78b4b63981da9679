/** The session lifecycle of app/services/session.py over the `sessions` and
    `users` tables: create, lookup by id and by owner, save, and the idle-expiry
    sweep. Times are integer milliseconds. */
module SessionStore {
  import opened Wrappers
  import opened Conversation
  import opened Models
  import Table

  /** `SESSION_TIMEOUT`: 24 hours. */
  const SessionTimeout: int := 86_400_000
  /** `CLEANUP_INTERVAL`: 1 hour. */
  const CleanupInterval: int := 3_600_000

  /** The session table has unique ids. */
  predicate Valid(db: Db) {
    Table.UniqueKeys(db.sessions, SessionKey)
  }

  predicate HasSession(db: Db, id: string) {
    Table.HasKey(db.sessions, SessionKey, id)
  }

  /** Python truthiness of an optional string. */
  predicate Truthy(s: Option<string>) {
    s.Some? && s.value != []
  }

  /** The `if user_id:` block: insert a bare user row unless one exists. */
  function EnsureUser(db: Db, userId: Option<string>, now: int): (r: Db)
    ensures r.sessions == db.sessions
    ensures !Truthy(userId) ==> r == db
    ensures Truthy(userId) ==> userId.value in r.users
    ensures Truthy(userId) && userId.value in db.users ==> r == db
    ensures Truthy(userId) && userId.value !in db.users ==>
              r.users == db.users[userId.value := UserRow(userId.value, now, now)]
    ensures r.users.Keys >= db.users.Keys
  {
    if Truthy(userId) && userId.value !in db.users then
      db.(users := db.users[userId.value := UserRow(userId.value, now, now)])
    else db
  }

  /** `create_session(user_id)` with `freshId` the generated uuid. The user row is
      committed before the session row, so it survives a failing session insert
      (a primary-key clash). */
  function CreateSession(db: Db, userId: Option<string>, freshId: string, now: int): (r: Step<Session>)
    ensures r.db.users == EnsureUser(db, userId, now).users
    ensures r.out.Ok? <==> !HasSession(db, freshId)
    ensures r.out.Err? ==> r.db.sessions == db.sessions
    ensures r.out.Ok? ==> r.out.value == NewSession(freshId, userId, now)
    ensures r.out.Ok? ==> r.db.sessions == db.sessions + [r.out.value]
    ensures Valid(db) ==> Valid(r.db)
  {
    var db1 := EnsureUser(db, userId, now);
    if HasSession(db1, freshId) then Step(db1, Err("duplicate session id"))
    else
      var s := NewSession(freshId, userId, now);
      assert Valid(db1) ==> Table.UniqueKeys(db1.sessions + [s], SessionKey) by {
        if Valid(db1) {
          Table.AppendFreshKeepsUnique(db1.sessions, SessionKey, s);
        }
      }
      Step(db1.(sessions := db1.sessions + [s]), Ok(s))
  }

  /** `get_session(session_id)`. */
  function GetSession(db: Db, id: string): (r: Option<Session>)
    ensures r.None? <==> !HasSession(db, id)
    ensures r.Some? ==> r.value.id == id && r.value.history.Some?
    ensures r.Some? ==> exists i :: 0 <= i < |db.sessions| && r.value == ToDict(db.sessions[i])
  {
    match Table.Lookup(db.sessions, SessionKey, id)
    case None => None
    case Some(row) => Some(ToDict(row))
  }

  predicate OwnedBy(s: Session, owner: Option<string>) {
    s.owner == owner
  }

  /** `get_session_by_user(user_id)`: the first session row owned by the user.
      `Session.user_id == None` is SQL `IS NULL`, so a `None` owner finds an
      anonymous session. */
  function GetSessionByUser(db: Db, owner: Option<string>): (r: Option<Session>)
    ensures r.None? <==> forall i :: 0 <= i < |db.sessions| ==> db.sessions[i].owner != owner
    ensures r.Some? ==> r.value.owner == owner && r.value.history.Some?
    ensures r.Some? ==> exists i :: 0 <= i < |db.sessions| && r.value == ToDict(db.sessions[i])
  {
    match Table.FirstWhere(db.sessions, (s: Session) => OwnedBy(s, owner))
    case None => None
    case Some(row) => Some(ToDict(row))
  }

  /** `save_session(session_id, user_id, session_data)`. `history` is the
      `conversation_history` entry of `session_data`, `None` when the key is
      absent (then `{"messages": []}` is stored). An absent id inserts a row with
      both times `now`; an existing id gets the history and `updated_at := now`,
      keeping its id, owner and creation time. */
  function SaveSession(db: Db, id: string, userId: Option<string>, history: Option<seq<Message>>, now: int): (r: Db)
    requires Valid(db)
    ensures Valid(r)
    ensures r.users == db.users && r.scent == db.scent && r.style == db.style
    ensures r.profiles == db.profiles && r.traits == db.traits && r.chat == db.chat
    ensures HasSession(r, id)
    ensures !HasSession(db, id) ==>
              r.sessions == db.sessions + [Session(id, userId, Some(history.GetOr([])), now, now)]
    ensures HasSession(db, id) ==> |r.sessions| == |db.sessions|
    ensures forall i :: 0 <= i < |db.sessions| && db.sessions[i].id != id ==> r.sessions[i] == db.sessions[i]
    ensures forall i :: 0 <= i < |db.sessions| && db.sessions[i].id == id ==>
              r.sessions[i] == db.sessions[i].(history := Some(history.GetOr([])), updatedAt := now)
  {
    var stored := Some(history.GetOr([]));
    match Table.Lookup(db.sessions, SessionKey, id)
    case None =>
      var row := Session(id, userId, stored, now, now);
      Table.AppendFreshKeepsUnique(db.sessions, SessionKey, row);
      assert db.sessions + [row] == db.sessions + [row];
      assert (db.sessions + [row])[|db.sessions|].id == id;
      db.(sessions := db.sessions + [row])
    case Some(prior) =>
      var row := prior.(history := stored, updatedAt := now);
      Table.ReplaceKeepsKeys(db.sessions, SessionKey, row);
      var i :| 0 <= i < |db.sessions| && db.sessions[i] == prior;
      var sessions' := Table.Replace(db.sessions, SessionKey, row);
      forall j | 0 <= j < |db.sessions| && db.sessions[j].id == id
        ensures db.sessions[j] == prior
      {
        Table.KeyDeterminesIndex(db.sessions, SessionKey, i, j);
      }
      assert sessions'[i].id == id;
      db.(sessions := sessions')
  }

  /** After a save, looking the id up yields the saved history. */
  lemma SaveThenGet(db: Db, id: string, userId: Option<string>, history: Option<seq<Message>>, now: int)
    requires Valid(db)
    ensures GetSession(SaveSession(db, id, userId, history, now), id).Some?
    ensures GetSession(SaveSession(db, id, userId, history, now), id).value.history == Some(history.GetOr([]))
    ensures GetSession(SaveSession(db, id, userId, history, now), id).value.updatedAt == now
  {
    var r := SaveSession(db, id, userId, history, now);
    if HasSession(db, id) {
      var k :| 0 <= k < |db.sessions| && SessionKey(db.sessions[k]) == id;
      assert SessionKey(r.sessions[k]) == id;
      Table.LookupUnique(r.sessions, SessionKey, k);
    } else {
      var k := |db.sessions|;
      assert SessionKey(r.sessions[k]) == id;
      Table.LookupUnique(r.sessions, SessionKey, k);
    }
  }

  /** Whether the dict `to_dict` builds for this id holds the loaded row's own
      `conversation_history` object: it does exactly when the column is not
      null, since a null column gives a fresh `{"messages": []}`. */
  predicate SharesHistory(db: Db, id: string) {
    match Table.Lookup(db.sessions, SessionKey, id)
    case None => false
    case Some(row) => row.history.Some?
  }

  /** `save_session` as it behaves when the caller edited in place the dict a
      lookup returned, then handed it back. The `JSON` column tracks no
      mutation, the object assigned is the one already loaded, so its value
      compares equal to the committed one and only `updated_at` is written; the
      commit then expires the row and the edit is gone. A row whose column was
      null got a fresh dict, which is written like any new value. */
  function SaveInPlace(db: Db, id: string, userId: Option<string>, history: Option<seq<Message>>, now: int): (r: Db)
    requires Valid(db)
    ensures Valid(r)
    ensures r.users == db.users && r.chat == db.chat
    ensures HasSession(r, id)
    ensures SharesHistory(db, id) ==>
              GetSession(r, id) == Some(GetSession(db, id).value.(updatedAt := now))
    ensures !SharesHistory(db, id) ==>
              GetSession(r, id).value.history == Some(history.GetOr([]))
  {
    match Table.Lookup(db.sessions, SessionKey, id)
    case Some(prior) =>
      if prior.history.Some? then
        var k :| 0 <= k < |db.sessions| && db.sessions[k] == prior;
        var r := SaveSession(db, id, userId, prior.history, now);
        assert r.sessions[k] == prior.(updatedAt := now);
        Table.LookupUnique(r.sessions, SessionKey, k);
        r
      else
        SaveThenGet(db, id, userId, history, now);
        SaveSession(db, id, userId, history, now)
    case None =>
      SaveThenGet(db, id, userId, history, now);
      SaveSession(db, id, userId, history, now)
  }

  /** The edit is lost: whatever history is handed back, the stored one is
      unchanged, whereas the intended save stores it. */
  lemma InPlaceEditLost(db: Db, id: string, userId: Option<string>, history: Option<seq<Message>>, now: int)
    requires Valid(db)
    requires SharesHistory(db, id)
    requires Some(history.GetOr([])) != GetSession(db, id).value.history
    ensures GetSession(SaveInPlace(db, id, userId, history, now), id).value.history == GetSession(db, id).value.history
    ensures GetSession(SaveSession(db, id, userId, history, now), id).value.history != GetSession(db, id).value.history
  {
    SaveThenGet(db, id, userId, history, now);
  }

  /** A session whose last update is strictly before `now - 24h` has expired. */
  predicate Expired(s: Session, now: int) {
    s.updatedAt < now - SessionTimeout
  }

  /** `cleanup_expired_sessions` at time `now`; `tableExists` is the
      `table_exists(db, "sessions")` check. */
  function CleanupExpired(db: Db, now: int, tableExists: bool): (r: Db)
    requires Valid(db)
    ensures Valid(r)
    ensures r.users == db.users && r.chat == db.chat
    ensures !tableExists ==> r == db
    ensures tableExists ==> forall s :: s in r.sessions <==> s in db.sessions && !Expired(s, now)
  {
    if tableExists then
      var kept := Table.Retain(db.sessions, (s: Session) => !Expired(s, now));
      Table.RetainKeepsUnique(db.sessions, SessionKey, (s: Session) => !Expired(s, now));
      db.(sessions := kept)
    else db
  }

  /** What one iteration of `run_cleanup_task` leaves behind: the database and
      the time of the next iteration. */
  datatype Tick = Tick(db: Db, next: int)

  /** One iteration of the `run_cleanup_task` loop. `dbError` is a failure of
      the sweep's query; it is logged and swallowed, and the loop sleeps for the
      interval either way. */
  function CleanupTick(db: Db, now: int, tableExists: bool, dbError: bool): (r: Tick)
    requires Valid(db)
    ensures Valid(r.db)
    ensures r.next == now + CleanupInterval
    ensures dbError ==> r.db == db
    ensures !dbError ==> r.db == CleanupExpired(db, now, tableExists)
  {
    if dbError then Tick(db, now + CleanupInterval)
    else Tick(CleanupExpired(db, now, tableExists), now + CleanupInterval)
  }

  /** A session last updated 25 hours before the sweep is deleted; one updated
      an hour before survives. */
  lemma SweepScenario(db: Db, prior: Session, recent: Session, now: int)
    requires Valid(db)
    requires prior in db.sessions && recent in db.sessions
    requires prior.updatedAt == now - 25 * 3_600_000
    requires recent.updatedAt == now - 3_600_000
    ensures prior !in CleanupExpired(db, now, true).sessions
    ensures recent in CleanupExpired(db, now, true).sessions
  {
  }
}
