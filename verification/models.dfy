/** The records of app/models/models.py and the database that holds them.
    Style rows carry the fields that app/services/profile_service.py reads and
    writes (`clothing_style`, `all_styles`) rather than the declared `style_type`. */
module Models {
  import opened Wrappers
  import opened Conversation

  /** A `sessions` row, and equally the dict `Session.to_dict` builds from it.
      `history` is the `conversation_history` JSON: `Some(msgs)` is
      `{"messages": msgs}`, `None` is a null or empty value. */
  datatype Session = Session(
    id: string,
    owner: Option<string>,
    history: Option<seq<Message>>,
    createdAt: int,
    updatedAt: int)

  /** The primary key of a session row. */
  function SessionKey(s: Session): string {
    s.id
  }

  /** The column default of `conversation_history`: `{"messages": []}`. */
  const DefaultHistory: Option<seq<Message>> := Some([])

  /** A row inserted without an explicit history takes the column default. */
  function NewSession(id: string, owner: Option<string>, now: int): (s: Session)
    ensures s.id == id && s.owner == owner
    ensures s.history == Some([])
    ensures s.createdAt == now && s.updatedAt == now
  {
    Session(id, owner, DefaultHistory, now, now)
  }

  /** `Session.to_dict`: identifiers and times copied, a null or empty history
      replaced by `{"messages": []}`. */
  function ToDict(row: Session): (d: Session)
    ensures d.id == row.id && d.owner == row.owner
    ensures d.createdAt == row.createdAt && d.updatedAt == row.updatedAt
    ensures d.history.Some?
    ensures row.history.Some? ==> d.history == row.history
    ensures row.history.None? ==> d.history == Some([])
  {
    if row.history.Some? then row else row.(history := DefaultHistory)
  }

  datatype UserRow = UserRow(userId: string, createdAt: int, updatedAt: int)

  /** A `scent_preferences` row (one per user along the service's paths).
      The list columns default to `[]` and `intensity_preference` is nullable. */
  datatype ScentRow = ScentRow(
    favorites: seq<string>,
    dislikes: seq<string>,
    families: seq<string>,
    intensity: Option<string>,
    createdAt: int,
    updatedAt: int)

  /** A style row as the profile service uses it. */
  datatype StyleRow = StyleRow(clothingStyle: Option<string>, allStyles: seq<string>, createdAt: int, updatedAt: int)

  /** A column value written through `setattr`. */
  datatype Value = Null | Int(i: int) | Text(s: string) | TextList(items: seq<string>) | Time(t: int)

  /** A row seen as its attribute map, for the services that update rows with
      `hasattr`/`setattr` (`user_profiles`, `personality_traits`). */
  datatype AttrRow = AttrRow(attrs: map<string, Value>)

  /** The attributes of a `user_profiles` row. */
  const ProfileColumns: set<string> := {"id", "user_id", "age", "gender", "location", "created_at", "updated_at"}

  /** The attributes of a `personality_traits` row. */
  const TraitColumns: set<string> := {"id", "user_id", "traits", "created_at", "updated_at"}

  predicate OwnedBy(row: AttrRow, userId: string) {
    "user_id" in row.attrs && row.attrs["user_id"] == Text(userId)
  }

  /** A `chat_history` row of app/services/chat_service.py. */
  datatype HistoryRow = HistoryRow(id: string, userId: string, role: Role, content: string, timestamp: int)

  /** The whole store: one field per table. */
  datatype Db = Db(
    sessions: seq<Session>,
    users: map<string, UserRow>,
    profiles: seq<AttrRow>,
    scent: map<string, ScentRow>,
    style: map<string, StyleRow>,
    traits: seq<AttrRow>,
    chat: seq<HistoryRow>)

  /** The database after a call, with what the call returned or raised. */
  datatype Step<+T> = Step(db: Db, out: Result<T>)
}
