/** The `chat_history` service of app/services/chat_service.py: the stored
    turns of a user in time order, clearing them, the system message built from
    the user's stored context, the completion request, and `process_message`,
    as written (the profile getters are not awaited) and as intended. */
module ChatService {
  import opened Wrappers
  import opened Text
  import opened Conversation
  import opened Models
  import Profiles
  import Extraction
  import ChatAnalysis

  // ------------------------------------------------------------ history rows

  /** The rows of `userId`, in table order. */
  function OwnRows(rows: seq<HistoryRow>, userId: string): (r: seq<HistoryRow>)
    ensures |r| <= |rows|
    ensures forall x :: x in r <==> x in rows && x.userId == userId
  {
    if rows == [] then []
    else
      var tail := OwnRows(rows[1..], userId);
      assert forall x :: x in rows <==> x == rows[0] || x in rows[1..];
      if rows[0].userId == userId then [rows[0]] + tail else tail
  }

  /** The rows of everybody but `userId`, in table order. */
  function OtherRows(rows: seq<HistoryRow>, userId: string): (r: seq<HistoryRow>)
    ensures |r| <= |rows|
    ensures forall x :: x in r <==> x in rows && x.userId != userId
  {
    if rows == [] then []
    else
      var tail := OtherRows(rows[1..], userId);
      assert forall x :: x in rows <==> x == rows[0] || x in rows[1..];
      if rows[0].userId != userId then [rows[0]] + tail else tail
  }

  predicate SortedByTime(rows: seq<HistoryRow>) {
    forall i, j :: 0 <= i < j < |rows| ==> rows[i].timestamp <= rows[j].timestamp
  }

  /** Inserts `x` after every row not later than it. */
  function InsertByTime(x: HistoryRow, rows: seq<HistoryRow>): (r: seq<HistoryRow>)
    requires SortedByTime(rows)
    ensures SortedByTime(r)
    ensures multiset(r) == multiset(rows) + multiset{x}
    ensures forall k :: 0 <= k < |r| ==> r[k] == x || r[k] in rows
  {
    if rows == [] then [x]
    else if x.timestamp < rows[0].timestamp then
      ConsSorted(x, rows);
      [x] + rows
    else
      var tail := InsertByTime(x, rows[1..]);
      assert rows == [rows[0]] + rows[1..];
      NotBefore(x, rows, tail);
      ConsSorted(rows[0], tail);
      ConsMembers(rows[0], tail, x, rows);
      [rows[0]] + tail
  }

  /** A row no later than every row of a sorted list can go in front of it. */
  lemma ConsSorted(a: HistoryRow, rows: seq<HistoryRow>)
    requires SortedByTime(rows)
    requires rows != [] ==> a.timestamp <= rows[0].timestamp
    ensures SortedByTime([a] + rows)
  {
    var r := [a] + rows;
    forall i, j | 0 <= i < j < |r|
      ensures r[i].timestamp <= r[j].timestamp
    {
      if i == 0 {
        assert r[j] == rows[j - 1];
      } else {
        assert r[i] == rows[i - 1] && r[j] == rows[j - 1];
      }
    }
  }

  /** The head of a sorted list is no later than anything inserted after it. */
  lemma NotBefore(x: HistoryRow, rows: seq<HistoryRow>, tail: seq<HistoryRow>)
    requires SortedByTime(rows) && rows != [] && rows[0].timestamp <= x.timestamp
    requires forall k :: 0 <= k < |tail| ==> tail[k] == x || tail[k] in rows[1..]
    ensures tail != [] ==> rows[0].timestamp <= tail[0].timestamp
  {
    if tail != [] && tail[0] != x {
      var j :| 0 <= j < |rows[1..]| && rows[1..][j] == tail[0];
      assert rows[1..][j] == rows[j + 1];
    }
  }

  lemma ConsMembers(a: HistoryRow, tail: seq<HistoryRow>, x: HistoryRow, rows: seq<HistoryRow>)
    requires rows != [] && a == rows[0]
    requires forall k :: 0 <= k < |tail| ==> tail[k] == x || tail[k] in rows[1..]
    ensures forall k :: 0 <= k < |[a] + tail| ==> ([a] + tail)[k] == x || ([a] + tail)[k] in rows
  {
    var r := [a] + tail;
    forall k | 0 <= k < |r|
      ensures r[k] == x || r[k] in rows
    {
      if k > 0 {
        assert r[k] == tail[k - 1];
      }
    }
  }

  /** `ORDER BY timestamp`: a stable insertion sort. The order of rows with equal
      timestamps is left to the database; this model keeps table order. */
  function SortByTime(rows: seq<HistoryRow>): (r: seq<HistoryRow>)
    ensures SortedByTime(r)
    ensures multiset(r) == multiset(rows)
  {
    if rows == [] then []
    else
      var init := rows[..|rows| - 1];
      assert rows == init + [rows[|rows| - 1]];
      InsertByTime(rows[|rows| - 1], SortByTime(init))
  }

  /** The stored rows of a user, in time order. */
  function HistoryRowsOf(db: Db, userId: string): (r: seq<HistoryRow>)
    ensures SortedByTime(r)
    ensures multiset(r) == multiset(OwnRows(db.chat, userId))
    ensures |r| == |OwnRows(db.chat, userId)|
    ensures forall x :: x in r <==> x in db.chat && x.userId == userId
  {
    var own := OwnRows(db.chat, userId);
    var r := SortByTime(own);
    assert |r| == |multiset(r)| == |own|;
    assert forall x :: x in r <==> x in multiset(r);
    assert forall x :: x in own <==> x in multiset(own);
    r
  }

  /** The `{"role", "content", "timestamp"}` dict of a row. */
  function AsMessage(row: HistoryRow): Message {
    Message(row.role, row.content, row.timestamp, None)
  }

  /** `get_chat_history(user_id)`: the user's turns as messages, oldest first. */
  function GetChatHistory(db: Db, userId: string): (r: seq<Message>)
    ensures |r| == |OwnRows(db.chat, userId)|
    ensures forall i, j :: 0 <= i < j < |r| ==> r[i].timestamp <= r[j].timestamp
    ensures forall i :: 0 <= i < |r| ==> r[i] == AsMessage(HistoryRowsOf(db, userId)[i])
  {
    AsMessages(HistoryRowsOf(db, userId))
  }

  function AsMessages(rows: seq<HistoryRow>): (r: seq<Message>)
    ensures |r| == |rows|
    ensures forall i :: 0 <= i < |r| ==> r[i] == AsMessage(rows[i])
  {
    if rows == [] then [] else [AsMessage(rows[0])] + AsMessages(rows[1..])
  }

  /** `clear_chat_history(user_id)`: every row of the user goes, no other row. */
  function ClearChatHistory(db: Db, userId: string): (r: Db)
    ensures r == db.(chat := r.chat)
    ensures forall x :: x in r.chat <==> x in db.chat && x.userId != userId
    ensures GetChatHistory(r, userId) == []
  {
    var r := db.(chat := OtherRows(db.chat, userId));
    NoOwnRows(r.chat, userId);
    r
  }

  lemma {:induction false} NoOwnRows(rows: seq<HistoryRow>, userId: string)
    requires forall x :: x in rows ==> x.userId != userId
    ensures OwnRows(rows, userId) == []
    decreases |rows|
  {
    if rows != [] {
      assert rows[0] in rows;
      NoOwnRows(rows[1..], userId);
    }
  }

  /** Clearing one user's turns leaves another user's history exactly as it was. */
  lemma ClearKeepsOthers(db: Db, u: string, v: string)
    requires u != v
    ensures GetChatHistory(ClearChatHistory(db, u), v) == GetChatHistory(db, v)
  {
    OwnRowsOfOthers(db.chat, u, v);
  }

  lemma {:induction false} OwnRowsOfOthers(rows: seq<HistoryRow>, u: string, v: string)
    requires u != v
    ensures OwnRows(OtherRows(rows, u), v) == OwnRows(rows, v)
    decreases |rows|
  {
    if rows != [] {
      OwnRowsOfOthers(rows[1..], u, v);
      if rows[0].userId != u {
        assert ([rows[0]] + OtherRows(rows[1..], u))[1..] == OtherRows(rows[1..], u);
      }
    }
  }

  // ------------------------------------------------------------ user context

  /** A value in a context dict: a column value, or a nested dict with its keys. */
  datatype Field = Val(v: Value) | Nested(keys: seq<string>)

  /** What `_prepare_system_message` receives for one context: `None`, a dict,
      or an un-awaited coroutine. */
  datatype Ctx = Absent | Dict(fields: map<string, Field>) | Pending

  /** Python truthiness: `None` and `{}` are false, a coroutine object is true. */
  predicate Truthy(c: Ctx) {
    c.Pending? || (c.Dict? && |c.fields| > 0)
  }

  /** `ctx.get(key, default)`; a coroutine (or `None`) has no `get`. */
  function Get(c: Ctx, key: string, default: Field): (r: Result<Field>)
    ensures r.Err? <==> !c.Dict?
    ensures c.Dict? && key in c.fields ==> r == Ok(c.fields[key])
    ensures c.Dict? && key !in c.fields ==> r == Ok(default)
  {
    match c
    case Dict(fields) => Ok(if key in fields then fields[key] else default)
    case Absent => Err("'NoneType' object has no attribute 'get'")
    case Pending => Err("'coroutine' object has no attribute 'get'")
  }

  /** A field's text inside an f-string. Strings and `None` are what the keys read
      here hold; other values stand for their `repr`, which is not modelled. */
  function Show(f: Field): string {
    match f
    case Val(Text(s)) => s
    case Val(Null) => "None"
    case _ => "<repr>"
  }

  /** `", ".join(value)` succeeds on a list of strings, a string (its characters)
      and a dict (its keys); `None`, integers and datetimes raise. */
  predicate Joinable(f: Field) {
    f.Nested? || f.v.TextList? || f.v.Text?
  }

  function Chars(s: string): (r: seq<string>)
    ensures |r| == |s|
    ensures forall i :: 0 <= i < |s| ==> r[i] == [s[i]]
  {
    seq(|s|, i requires 0 <= i < |s| => [s[i]])
  }

  function JoinField(f: Field): (r: Result<string>)
    ensures r.Ok? <==> Joinable(f)
    ensures f.Val? && f.v.TextList? ==> r == Ok(Join(", ", f.v.items))
  {
    match f
    case Nested(keys) => Ok(Join(", ", keys))
    case Val(TextList(items)) => Ok(Join(", ", items))
    case Val(Text(s)) => Ok(Join(", ", Chars(s)))
    case _ => Err("can only join an iterable")
  }

  /** A truthy context can be read: it is a dict whose joined keys hold joinable values. */
  predicate Readable(c: Ctx, joined: seq<string>) {
    Truthy(c) ==> c.Dict? && forall k :: 0 <= k < |joined| && joined[k] in c.fields ==> Joinable(c.fields[joined[k]])
  }

  const ScentLists: seq<string> := ["favorite_scents", "disliked_scents", "preferred_fragrance_families"]
  const StyleLists: seq<string> := ["color_preferences", "fashion_brands"]
  const TraitLists: seq<string> := ["traits"]

  const ProfileLabels: seq<string> := ["User's style preference: ", "User's vibe: "]
  const ScentLabels: seq<string> := ["User's scent preferences: Likes ", "Preferred fragrance families: ", "Intensity preference: "]
  const StyleLabels: seq<string> := ["Clothing style: ", "Color preferences: ", "Fashion brands: "]
  const TraitLabels: seq<string> := ["Personality traits: ", "Primary trait: "]

  /** The lines of one block begin with the block's labels, one line per label. */
  predicate Labelled(lines: seq<string>, labels: seq<string>) {
    |lines| == |labels| && forall k :: 0 <= k < |lines| ==> StartsWith(lines[k], labels[k])
  }

  lemma LabelPrefix(tag: string, rest: string)
    ensures StartsWith(tag + rest, tag)
  {
    assert (tag + rest)[..|tag|] == tag;
  }

  const Unknown: Field := Val(Text("unknown"))
  const NoItems: Field := Val(TextList([]))

  const NoGet: string := "'coroutine' object has no attribute 'get'"

  function ProfileBlock(c: Ctx): (r: Result<seq<string>>)
    requires Truthy(c)
    ensures r.Ok? <==> Readable(c, [])
    ensures r.Ok? ==> Labelled(r.value, ProfileLabels)
  {
    if !c.Dict? then Err(NoGet)
    else
      var style := Get(c, "style_preference", Unknown).value;
      var vibe := Get(c, "vibe", Unknown).value;
      LabelPrefix(ProfileLabels[0], Show(style));
      LabelPrefix(ProfileLabels[1], Show(vibe));
      Ok([ProfileLabels[0] + Show(style), ProfileLabels[1] + Show(vibe)])
  }

  function ScentBlock(c: Ctx): (r: Result<seq<string>>)
    requires Truthy(c)
    ensures r.Ok? <==> Readable(c, ScentLists)
    ensures r.Ok? ==> Labelled(r.value, ScentLabels)
  {
    if !c.Dict? then Err(NoGet)
    else
      var likes :- JoinField(Get(c, ScentLists[0], NoItems).value);
      var dislikes :- JoinField(Get(c, ScentLists[1], NoItems).value);
      var families :- JoinField(Get(c, ScentLists[2], NoItems).value);
      var intensity := Get(c, "intensity_preference", Val(Text("medium"))).value;
      LabelPrefix(ScentLabels[0], likes + ", Dislikes " + dislikes);
      LabelPrefix(ScentLabels[1], families);
      LabelPrefix(ScentLabels[2], Show(intensity));
      Ok([ScentLabels[0] + (likes + ", Dislikes " + dislikes), ScentLabels[1] + families, ScentLabels[2] + Show(intensity)])
  }

  function StyleBlock(c: Ctx): (r: Result<seq<string>>)
    requires Truthy(c)
    ensures r.Ok? <==> Readable(c, StyleLists)
    ensures r.Ok? ==> Labelled(r.value, StyleLabels)
  {
    if !c.Dict? then Err(NoGet)
    else
      var clothing := Get(c, "clothing_style", Unknown).value;
      var colors :- JoinField(Get(c, StyleLists[0], NoItems).value);
      var brands :- JoinField(Get(c, StyleLists[1], NoItems).value);
      LabelPrefix(StyleLabels[0], Show(clothing));
      LabelPrefix(StyleLabels[1], colors);
      LabelPrefix(StyleLabels[2], brands);
      Ok([StyleLabels[0] + Show(clothing), StyleLabels[1] + colors, StyleLabels[2] + brands])
  }

  function TraitBlock(c: Ctx): (r: Result<seq<string>>)
    requires Truthy(c)
    ensures r.Ok? <==> Readable(c, TraitLists)
    ensures r.Ok? ==> Labelled(r.value, TraitLabels)
  {
    if !c.Dict? then Err(NoGet)
    else
      var traits :- JoinField(Get(c, TraitLists[0], NoItems).value);
      var primary := Get(c, "primary_trait", Unknown).value;
      LabelPrefix(TraitLabels[0], traits);
      LabelPrefix(TraitLabels[1], Show(primary));
      Ok([TraitLabels[0] + traits, TraitLabels[1] + Show(primary)])
  }

  /** The four blocks of the system message. */
  datatype Kind = ProfileKind | ScentKind | StyleKind | TraitKind

  function ListsOf(k: Kind): seq<string> {
    match k
    case ProfileKind => []
    case ScentKind => ScentLists
    case StyleKind => StyleLists
    case TraitKind => TraitLists
  }

  /** The labels a block contributes: none when its context is falsy. */
  function LabelsOf(k: Kind, c: Ctx): seq<string> {
    if !Truthy(c) then []
    else match k
      case ProfileKind => ProfileLabels
      case ScentKind => ScentLabels
      case StyleKind => StyleLabels
      case TraitKind => TraitLabels
  }

  /** One `if ctx:` block of the message. */
  function Part(k: Kind, c: Ctx): (r: Result<seq<string>>)
    ensures r.Ok? <==> Readable(c, ListsOf(k))
    ensures r.Ok? ==> Labelled(r.value, LabelsOf(k, c))
  {
    if !Truthy(c) then Ok([])
    else match k
      case ProfileKind => ProfileBlock(c)
      case ScentKind => ScentBlock(c)
      case StyleKind => StyleBlock(c)
      case TraitKind => TraitBlock(c)
  }

  /** The labels of the context lines, in order, for the truthy contexts. */
  function Labels(profile: Ctx, scent: Ctx, style: Ctx, traits: Ctx): seq<string> {
    LabelsOf(ProfileKind, profile) + LabelsOf(ScentKind, scent) + LabelsOf(StyleKind, style) + LabelsOf(TraitKind, traits)
  }

  predicate AllReadable(profile: Ctx, scent: Ctx, style: Ctx, traits: Ctx) {
    Readable(profile, []) && Readable(scent, ScentLists) && Readable(style, StyleLists) && Readable(traits, TraitLists)
  }

  lemma LabelledAppend(a: seq<string>, la: seq<string>, b: seq<string>, lb: seq<string>)
    requires Labelled(a, la) && Labelled(b, lb)
    ensures Labelled(a + b, la + lb)
  {
    forall k | 0 <= k < |a + b|
      ensures StartsWith((a + b)[k], (la + lb)[k])
    {
      if k >= |a| {
        assert (a + b)[k] == b[k - |a|] && (la + lb)[k] == lb[k - |a|];
      } else {
        assert (a + b)[k] == a[k] && (la + lb)[k] == la[k];
      }
    }
  }

  /** `context_parts`: profile (2 lines), scent (3), style (3) and personality
      (2), each block present exactly when its context is truthy. */
  function ContextLines(profile: Ctx, scent: Ctx, style: Ctx, traits: Ctx): (r: Result<seq<string>>)
    ensures r.Ok? <==> AllReadable(profile, scent, style, traits)
    ensures r.Ok? ==> Labelled(r.value, Labels(profile, scent, style, traits))
  {
    var p :- Part(ProfileKind, profile);
    var s :- Part(ScentKind, scent);
    var st :- Part(StyleKind, style);
    var t :- Part(TraitKind, traits);
    LabelledAppend(p, LabelsOf(ProfileKind, profile), s, LabelsOf(ScentKind, scent));
    LabelledAppend(p + s, LabelsOf(ProfileKind, profile) + LabelsOf(ScentKind, scent), st, LabelsOf(StyleKind, style));
    LabelledAppend(p + s + st, LabelsOf(ProfileKind, profile) + LabelsOf(ScentKind, scent) + LabelsOf(StyleKind, style),
                   t, LabelsOf(TraitKind, traits));
    Ok(p + s + st + t)
  }

  const Intro: string := "You are a fragrance expert and personal stylist. "
  const Header: string := "Here's what I know about the user:\n"
  const Outro: string := "\n\nPlease provide personalized fragrance recommendations and style advice based on this information."

  predicate AnyTruthy(profile: Ctx, scent: Ctx, style: Ctx, traits: Ctx) {
    Truthy(profile) || Truthy(scent) || Truthy(style) || Truthy(traits)
  }

  /** `_prepare_system_message(...)`: the introduction, then the header and the
      context lines when any context is truthy, then the closing request. */
  function PrepareSystemMessage(profile: Ctx, scent: Ctx, style: Ctx, traits: Ctx): (r: Result<string>)
    ensures r.Ok? <==> AllReadable(profile, scent, style, traits)
    ensures r.Ok? && !AnyTruthy(profile, scent, style, traits) ==> r.value == Intro + Outro
    ensures r.Ok? && AnyTruthy(profile, scent, style, traits) ==>
              exists lines :: Labelled(lines, Labels(profile, scent, style, traits))
                && r.value == Intro + Header + Join("\n", lines) + Outro
  {
    var lines :- ContextLines(profile, scent, style, traits);
    if lines == [] then
      assert !AnyTruthy(profile, scent, style, traits);
      Ok(Intro + Outro)
    else Ok(Intro + Header + Join("\n", lines) + Outro)
  }

  /** A coroutine passed where a dict was meant makes the system message fail. */
  lemma PendingContextFails(profile: Ctx, scent: Ctx, style: Ctx, traits: Ctx)
    requires profile.Pending? || scent.Pending? || style.Pending? || traits.Pending?
    ensures PrepareSystemMessage(profile, scent, style, traits).Err?
  {
  }

  // ------------------------------------------------------------ completion

  const RequestWindow: nat := 10

  /** The request of `_generate_llm_response`: the system message, the last ten
      history entries (role and content) and the user's message. */
  function RequestMessages(system: string, history: seq<Message>, message: string): (r: seq<ApiMessage>)
    ensures |r| == (if |history| < RequestWindow then |history| else RequestWindow) + 2
    ensures |r| <= RequestWindow + 2
    ensures r[0] == ApiMessage(System, system)
    ensures r[|r| - 1] == ApiMessage(User, message)
    ensures forall i :: 1 <= i < |r| - 1 ==> r[i] == ToApi(history[|history| - (|r| - 2) + i - 1])
  {
    var last := LastN(history, RequestWindow);
    var window := Format(last);
    var r := [ApiMessage(System, system)] + window + [ApiMessage(User, message)];
    forall i | 1 <= i < |r| - 1
      ensures r[i] == ToApi(history[|history| - (|r| - 2) + i - 1])
    {
      assert r[i] == window[i - 1] == ToApi(last[i - 1]);
    }
    r
  }

  const LlmApology: string :=
    "I apologize, but I'm having trouble generating a response right now. Please try again later."

  /** `_generate_llm_response(...)`: `complete` stands for the completion call.
      Never raises: a failing system message or call gives the apology. */
  function GenerateLlmResponse(
    message: string, history: seq<Message>, profile: Ctx, scent: Ctx, style: Ctx, traits: Ctx,
    complete: seq<ApiMessage> -> Result<string>): (r: string)
    ensures !AllReadable(profile, scent, style, traits) ==> r == LlmApology
    ensures AllReadable(profile, scent, style, traits) ==>
              var request := RequestMessages(PrepareSystemMessage(profile, scent, style, traits).value, history, message);
              r == (if complete(request).Ok? then complete(request).value else LlmApology)
  {
    match PrepareSystemMessage(profile, scent, style, traits)
    case Err(_) => LlmApology
    case Ok(system) =>
      match complete(RequestMessages(system, history, message))
      case Err(_) => LlmApology
      case Ok(text) => text
  }

  // -------------------------------------------------------- stored contexts

  /** The dict `get_user_profile` returns (its values are nested dicts or `None`). */
  function ProfileCtx(db: Db, userId: string): (r: Ctx)
    ensures r.Absent? <==> userId !in db.users
    ensures r.Dict? ==> Truthy(r)
  {
    match Profiles.GetUserProfile(db, userId)
    case None => Absent
    case Some(v) =>
      var fields := map[
        "user" := Nested(["user_id", "created_at", "updated_at"]),
        "profile" := if v.profile.Some? then Nested(["id", "user_id", "age", "gender", "location", "created_at", "updated_at"]) else Val(Null),
        "scent_preferences" := if v.scent.Some? then Nested(["id", "user_id", "favorite_scents", "disliked_scents", "preferred_fragrance_families", "intensity_preference", "created_at", "updated_at"]) else Val(Null),
        "style_preferences" := if v.style.Some? then Nested(["id", "user_id", "style_type", "created_at", "updated_at"]) else Val(Null),
        "personality_traits" := if v.traits.Some? then Nested(["id", "user_id", "traits", "created_at", "updated_at"]) else Val(Null)];
      assert "user" in fields;
      Dict(fields)
  }

  /** `ScentPreferences.to_dict()` of the user's row (the integer id is not modelled). */
  function ScentCtx(db: Db, userId: string): (r: Ctx)
    ensures r.Absent? <==> userId !in db.scent
    ensures r.Dict? ==> Truthy(r) && Readable(r, ScentLists)
  {
    match Profiles.GetScentPreferences(db, userId)
    case None => Absent
    case Some(row) =>
      var fields := map[
        "user_id" := Val(Text(userId)),
        "favorite_scents" := Val(TextList(row.favorites)),
        "disliked_scents" := Val(TextList(row.dislikes)),
        "preferred_fragrance_families" := Val(TextList(row.families)),
        "intensity_preference" := Val(if row.intensity.Some? then Text(row.intensity.value) else Null),
        "created_at" := Val(Time(row.createdAt)),
        "updated_at" := Val(Time(row.updatedAt))];
      assert "user_id" in fields;
      Dict(fields)
  }

  /** `StylePreferences.to_dict()`: the declared table has a `style_type`
      column, which the profile service never writes, and no clothing style. */
  function StyleCtx(db: Db, userId: string): (r: Ctx)
    ensures r.Absent? <==> userId !in db.style
    ensures r.Dict? ==> Truthy(r) && Readable(r, StyleLists)
  {
    match Profiles.GetStylePreferences(db, userId)
    case None => Absent
    case Some(row) =>
      var fields := map[
        "user_id" := Val(Text(userId)),
        "style_type" := Val(Null),
        "created_at" := Val(Time(row.createdAt)),
        "updated_at" := Val(Time(row.updatedAt))];
      assert "user_id" in fields;
      Dict(fields)
  }

  /** `PersonalityTraits.to_dict()` of the user's first row. */
  function TraitsCtx(db: Db, userId: string): (r: Ctx)
    ensures r.Absent? <==> Profiles.GetPersonalityTraits(db, userId).None?
    ensures r.Dict? ==> Truthy(r)
  {
    match Profiles.GetPersonalityTraits(db, userId)
    case None => Absent
    case Some(row) =>
      var fields := map k | k in row.attrs :: Val(row.attrs[k]);
      assert "user_id" in fields.Keys;
      Dict(fields)
  }

  /** A personality row whose `traits` column, when present, holds a list. */
  predicate ListedTraits(row: AttrRow) {
    "traits" in row.attrs ==> row.attrs["traits"].TextList?
  }

  /** The user's first personality row, when there is one, has its traits as a
      list: the only way a stored context can fail to render. */
  predicate TraitsListStored(db: Db, userId: string) {
    var t := Profiles.GetPersonalityTraits(db, userId);
    t.Some? ==> ListedTraits(t.value)
  }

  /** Appending rows never changes which row is the user's first. */
  lemma FirstOwnedKept(rows: seq<AttrRow>, extra: seq<AttrRow>, userId: string)
    ensures Profiles.FirstOwnedRow(rows, userId).Some? ==>
              Profiles.FirstOwnedRow(rows + extra, userId) == Profiles.FirstOwnedRow(rows, userId)
    ensures Profiles.FirstOwnedRow(rows, userId).None? ==>
              Profiles.FirstOwnedRow(rows + extra, userId) == Profiles.FirstOwnedRow(extra, userId)
  {
    if Profiles.FirstOwned(rows, userId).Some? {
      FirstOwnedInPrefix(rows, extra, userId);
    } else {
      FirstOwnedInSuffix(rows, extra, userId);
    }
  }

  lemma FirstOwnedInPrefix(rows: seq<AttrRow>, extra: seq<AttrRow>, userId: string)
    requires Profiles.FirstOwned(rows, userId).Some?
    ensures Profiles.FirstOwned(rows + extra, userId) == Profiles.FirstOwned(rows, userId)
  {
    var all := rows + extra;
    var i := Profiles.FirstOwned(rows, userId).value;
    assert all[i] == rows[i];
    var j := Profiles.FirstOwned(all, userId).value;
    assert j < |rows| ==> all[j] == rows[j];
  }

  lemma FirstOwnedInSuffix(rows: seq<AttrRow>, extra: seq<AttrRow>, userId: string)
    requires Profiles.FirstOwned(rows, userId).None?
    ensures Profiles.FirstOwnedRow(rows + extra, userId) == Profiles.FirstOwnedRow(extra, userId)
  {
    var all := rows + extra;
    forall k | 0 <= k < |rows|
      ensures !OwnedBy(all[k], userId)
    {
      assert all[k] == rows[k];
    }
    match Profiles.FirstOwned(extra, userId)
    case Some(i) =>
      assert all[|rows| + i] == extra[i];
      var j := Profiles.FirstOwned(all, userId).value;
      assert j >= |rows| ==> all[j] == extra[j - |rows|];
    case None =>
      forall k | |rows| <= k < |all|
        ensures !OwnedBy(all[k], userId)
      {
        assert all[k] == extra[k - |rows|];
      }
  }

  /** The analysis keeps the stored traits listed: it appends a listed row. */
  lemma AnalysisKeepsTraitsListed(db: Db, userId: string, message: string, userTurnId: string, now: int,
    extract: string -> Result<Extraction.RawProfile>)
    requires TraitsListStored(db, userId)
    ensures TraitsListStored(Analysed(db, userId, message, userTurnId, now, extract), userId)
  {
    var r := Analysed(db, userId, message, userTurnId, now, extract);
    if userId in db.users {
      var row := r.traits[|db.traits|];
      assert r.traits == db.traits + [row];
      FirstOwnedKept(db.traits, [row], userId);
      assert Profiles.FirstOwnedRow([row], userId) == Some(row) by {
        assert Profiles.FirstOwned([row], userId) == Some(0);
      }
    }
  }

  lemma StoredContextsReadable(db: Db, userId: string)
    requires TraitsListStored(db, userId)
    ensures AllReadable(ProfileCtx(db, userId), ScentCtx(db, userId), StyleCtx(db, userId), TraitsCtx(db, userId))
  {
  }

  // ------------------------------------------------------- process_message

  /** What `process_message` returns together with the store it leaves. */
  datatype Outcome = Outcome(db: Db, reply: string)

  /** Lines 58-65: the reply is stored as an assistant row and returned. */
  function StoreReply(db: Db, userId: string, replyId: string, now: int, reply: string): (r: Outcome)
    ensures r.reply == reply
    ensures r.db.chat == db.chat + [HistoryRow(replyId, userId, Assistant, reply, now)]
    ensures r.db.users == db.users && r.db.sessions == db.sessions
  {
    Outcome(db.(chat := db.chat + [HistoryRow(replyId, userId, Assistant, reply, now)]), reply)
  }

  /** Lines 33-38: the user's turn is stored, then the history read before it
      is analysed. Neither touches the accounts or the other rows. */
  function Analysed(db: Db, userId: string, message: string, userTurnId: string, now: int,
    extract: string -> Result<Extraction.RawProfile>): (r: Db)
    ensures r.chat == db.chat + [HistoryRow(userTurnId, userId, User, message, now)]
    ensures r.users == db.users && r.sessions == db.sessions
    ensures userId !in db.users ==> r == db.(chat := r.chat)
    ensures userId in db.users ==>
              && |r.traits| == |db.traits| + 1 && r.traits[..|db.traits|] == db.traits
              && OwnedBy(r.traits[|db.traits|], userId) && ListedTraits(r.traits[|db.traits|])
  {
    var db1 := db.(chat := db.chat + [HistoryRow(userTurnId, userId, User, message, now)]);
    ChatAnalysis.AnalyzeChatMessages(db1, userId, GetChatHistory(db, userId), extract, now)
  }

  lemma TwoRows(rows: seq<HistoryRow>, a: HistoryRow, b: HistoryRow)
    ensures rows + [a] + [b] == rows + [a, b]
  {
  }

  /** `process_message(user_id, message)` with the profile getters awaited.
      The history is read first; the user turn is stored before the analysis
      and the completion, the reply after them. `extract` and `complete` stand
      for the two model calls; the ids and times are the generated values. */
  function ProcessMessage(
    db: Db, userId: string, message: string, userTurnId: string, replyId: string, t1: int, t2: int,
    extract: string -> Result<Extraction.RawProfile>, complete: seq<ApiMessage> -> Result<string>): (r: Outcome)
    ensures r.db.chat == db.chat + [HistoryRow(userTurnId, userId, User, message, t1), HistoryRow(replyId, userId, Assistant, r.reply, t2)]
    ensures r.db.users == db.users && r.db.sessions == db.sessions
  {
    var history := GetChatHistory(db, userId);
    var db2 := Analysed(db, userId, message, userTurnId, t1, extract);
    var reply := GenerateLlmResponse(
      message, history, ProfileCtx(db2, userId), ScentCtx(db2, userId), StyleCtx(db2, userId), TraitsCtx(db2, userId), complete);
    TwoRows(db.chat, HistoryRow(userTurnId, userId, User, message, t1), HistoryRow(replyId, userId, Assistant, reply, t2));
    StoreReply(db2, userId, replyId, t2, reply)
  }

  /** Lines 41-43 as written: three async getters are called without `await`, so
      the contexts are coroutine objects; only the personality getter is synchronous. */
  function ProcessMessageAsWritten(
    db: Db, userId: string, message: string, userTurnId: string, replyId: string, t1: int, t2: int,
    extract: string -> Result<Extraction.RawProfile>, complete: seq<ApiMessage> -> Result<string>): (r: Outcome)
    ensures r.db.chat == db.chat + [HistoryRow(userTurnId, userId, User, message, t1), HistoryRow(replyId, userId, Assistant, r.reply, t2)]
    ensures r.reply == LlmApology
  {
    var history := GetChatHistory(db, userId);
    var db2 := Analysed(db, userId, message, userTurnId, t1, extract);
    var traits := TraitsCtx(db2, userId);
    assert !AllReadable(Pending, Pending, Pending, traits);
    var reply := GenerateLlmResponse(message, history, Pending, Pending, Pending, traits, complete);
    TwoRows(db.chat, HistoryRow(userTurnId, userId, User, message, t1), HistoryRow(replyId, userId, Assistant, reply, t2));
    StoreReply(db2, userId, replyId, t2, reply)
  }

  /** The request the intended `process_message` sends. */
  function RequestOf(db: Db, userId: string, message: string, userTurnId: string, t1: int,
    extract: string -> Result<Extraction.RawProfile>): (r: Result<seq<ApiMessage>>)
    ensures r.Ok? ==> |r.value| >= 2 && r.value[|r.value| - 1] == ApiMessage(User, message)
    ensures r.Ok? ==> |r.value| == (if |GetChatHistory(db, userId)| < RequestWindow then |GetChatHistory(db, userId)| else RequestWindow) + 2
  {
    var history := GetChatHistory(db, userId);
    var db2 := Analysed(db, userId, message, userTurnId, t1, extract);
    var system :- PrepareSystemMessage(ProfileCtx(db2, userId), ScentCtx(db2, userId), StyleCtx(db2, userId), TraitsCtx(db2, userId));
    Ok(RequestMessages(system, history, message))
  }

  /** With the getters awaited and the stored traits a list, the system message
      always renders, and a successful completion of the request is the reply. */
  lemma CompletionIsReplied(
    db: Db, userId: string, message: string, userTurnId: string, replyId: string, t1: int, t2: int,
    extract: string -> Result<Extraction.RawProfile>, complete: seq<ApiMessage> -> Result<string>)
    requires TraitsListStored(db, userId)
    requires var q := RequestOf(db, userId, message, userTurnId, t1, extract); q.Ok? ==> complete(q.value).Ok?
    ensures RequestOf(db, userId, message, userTurnId, t1, extract).Ok?
    ensures var request := RequestOf(db, userId, message, userTurnId, t1, extract).value;
            ProcessMessage(db, userId, message, userTurnId, replyId, t1, t2, extract, complete).reply
              == complete(request).value
  {
    var history := GetChatHistory(db, userId);
    var db2 := Analysed(db, userId, message, userTurnId, t1, extract);
    AnalysisKeepsTraitsListed(db, userId, message, userTurnId, t1, extract);
    StoredContextsReadable(db2, userId);
  }
}
