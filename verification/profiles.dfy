/** The profile store of app/services/profile_service.py and
    app/services/user.py: users, profile and personality rows updated through
    `setattr`, and the scent and style preferences whose list fields are merged
    by set union while their scalar fields are overwritten. */
module Profiles {
  import opened Wrappers
  import opened Text
  import opened Models
  import Table

  // ------------------------------------------------------------------ users

  /** `create_user(user)`: an existing user is returned as it is; otherwise one
      row with both times `now` is inserted. The same code is `UserService.create_user`. */
  function CreateUser(db: Db, userId: string, now: int): (r: Step<UserRow>)
    ensures r.out.Ok? && userId in r.db.users && r.db.users[userId] == r.out.value
    ensures r.db.users.Keys == db.users.Keys + {userId}
    ensures forall k :: k in db.users ==> r.db.users[k] == db.users[k]
    ensures r.db.(users := db.users) == db
    ensures userId !in db.users ==> r.out.value == UserRow(userId, now, now)
  {
    if userId in db.users then Step(db, Ok(db.users[userId]))
    else
      var row := UserRow(userId, now, now);
      Step(db.(users := db.users[userId := row]), Ok(row))
  }

  /** `get_user(user_id)`. */
  function GetUser(db: Db, userId: string): (r: Option<UserRow>)
    ensures r.None? <==> userId !in db.users
    ensures r.Some? ==> r.value == db.users[userId]
  {
    if userId in db.users then Some(db.users[userId]) else None
  }

  /** The dict `UserService.update_user` returns. */
  datatype UserView = UserView(userId: string, name: string, email: string, createdAt: int, updatedAt: int)

  /** `UserService.update_user(user_id, name, email)`. The `users` table has no
      `name` or `email` column, so the assignments only set attributes on the
      loaded object and nothing is stored; reading `user.name` (or `user.email`)
      for the reply raises when it was not assigned. */
  function UpdateUser(db: Db, userId: string, name: Option<string>, email: Option<string>): (r: Result<Option<UserView>>)
    ensures r == Ok(None) <==> userId !in db.users
    ensures r.Err? <==> userId in db.users && (name.None? || email.None?)
    ensures r.Ok? && r.value.Some? ==>
              && r.value.value.name == name.value && r.value.value.email == email.value
              && r.value.value.userId == db.users[userId].userId
  {
    if userId !in db.users then Ok(None)
    else if name.None? then Err("'User' object has no attribute 'name'")
    else if email.None? then Err("'User' object has no attribute 'email'")
    else
      var u := db.users[userId];
      Ok(Some(UserView(u.userId, name.value, email.value, u.createdAt, u.updatedAt)))
  }

  /** Creating the same user twice is the same as creating it once. */
  lemma CreateUserIdempotent(db: Db, userId: string, t1: int, t2: int)
    ensures CreateUser(CreateUser(db, userId, t1).db, userId, t2) == CreateUser(db, userId, t1)
  {
  }

  // ---------------------------------------------------- attribute-map rows

  /** The first row of `rows` owned by `userId` (`query(...).filter(user_id == ...).first()`). */
  function FirstOwned(rows: seq<AttrRow>, userId: string): (r: Option<nat>)
    ensures r.Some? ==> r.value < |rows| && OwnedBy(rows[r.value], userId)
    ensures r.Some? ==> forall j :: 0 <= j < r.value ==> !OwnedBy(rows[j], userId)
    ensures r.None? <==> forall j :: 0 <= j < |rows| ==> !OwnedBy(rows[j], userId)
  {
    Table.IndexWhere(rows, (row: AttrRow) => OwnedBy(row, userId))
  }

  /** A fresh row of an attribute-map table. */
  function NewRow(userId: string, fields: map<string, Value>, now: int): (r: AttrRow)
    ensures OwnedBy(r, userId)
    ensures r.attrs.Keys == fields.Keys + {"user_id", "created_at", "updated_at"}
    ensures r.attrs["created_at"] == Time(now) && r.attrs["updated_at"] == Time(now)
    ensures forall k :: k in fields && k !in {"user_id", "created_at", "updated_at"} ==>
              k in r.attrs && r.attrs[k] == fields[k]
  {
    AttrRow(fields["user_id" := Text(userId)]["created_at" := Time(now)]["updated_at" := Time(now)])
  }

  /** `for key, value in data.items(): if hasattr(row, key): setattr(row, key, value)`
      followed by `updated_at = now`, with `hasattr` true exactly for the names
      in `columns`. The mapped class also answers `hasattr` for its relationship
      (`user`), its methods and its declarative bookkeeping (`to_dict`,
      `metadata`, `registry`, `_sa_instance_state`); keys naming those are
      skipped here, not assigned. */
  function SetAttrs(row: AttrRow, data: map<string, Value>, columns: set<string>, now: int): (r: AttrRow)
    ensures r.attrs.Keys == row.attrs.Keys + (data.Keys * columns) + {"updated_at"}
    ensures r.attrs["updated_at"] == Time(now)
    ensures forall k :: k in data && k in columns && k != "updated_at" ==> r.attrs[k] == data[k]
    ensures forall k :: k in row.attrs && (k !in data || k !in columns) && k != "updated_at" ==>
              r.attrs[k] == row.attrs[k]
  {
    var set_ := map k | k in row.attrs.Keys + (data.Keys * columns) ::
                  if k in data && k in columns then data[k] else row.attrs[k];
    AttrRow(set_["updated_at" := Time(now)])
  }

  /** The update shared by `update_user_profile` and `update_personality_traits`:
      the first owned row is updated, or nothing happens and `None` is returned. */
  function UpdateFirstOwned(rows: seq<AttrRow>, userId: string, data: map<string, Value>, columns: set<string>, now: int)
    : (r: (seq<AttrRow>, Option<AttrRow>))
    ensures r.1.None? <==> forall i :: 0 <= i < |rows| ==> !OwnedBy(rows[i], userId)
    ensures r.1.None? ==> r.0 == rows
    ensures |r.0| == |rows|
    ensures r.1.Some? ==>
              var i := FirstOwned(rows, userId).value;
              r.1.value == SetAttrs(rows[i], data, columns, now) && r.0 == rows[i := r.1.value]
  {
    match FirstOwned(rows, userId)
    case None => (rows, None)
    case Some(i) =>
      var row := SetAttrs(rows[i], data, columns, now);
      (rows[i := row], Some(row))
  }

  // ----------------------------------------------------------- profile rows

  /** `create_user_profile(user_id, profile_data)`: a new row, or "User not found". */
  function CreateUserProfile(db: Db, userId: string, age: Value, gender: Value, location: Value, now: int)
    : (r: Step<AttrRow>)
    ensures r.out.Err? <==> userId !in db.users
    ensures r.out.Err? ==> r.db == db && r.out.error == "User not found"
    ensures r.out.Ok? ==> r.db == db.(profiles := db.profiles + [r.out.value])
    ensures r.out.Ok? ==> OwnedBy(r.out.value, userId) && r.out.value.attrs.Keys <= ProfileColumns
    ensures r.out.Ok? ==> "age" in r.out.value.attrs && r.out.value.attrs["age"] == age
    ensures r.out.Ok? ==> "gender" in r.out.value.attrs && r.out.value.attrs["gender"] == gender
    ensures r.out.Ok? ==> "location" in r.out.value.attrs && r.out.value.attrs["location"] == location
  {
    if userId !in db.users then Step(db, Err("User not found"))
    else
      var row := NewRow(userId, map["age" := age, "gender" := gender, "location" := location], now);
      Step(db.(profiles := db.profiles + [row]), Ok(row))
  }

  /** `update_user_profile(user_id, profile_data)`. */
  function UpdateUserProfile(db: Db, userId: string, data: map<string, Value>, now: int): (r: (Db, Option<AttrRow>))
    ensures r.0.(profiles := db.profiles) == db
    ensures r.1.None? <==> FirstOwned(db.profiles, userId).None?
    ensures r.1.None? ==> r.0 == db
    ensures r.1.Some? ==>
              var i := FirstOwned(db.profiles, userId).value;
              r.0.profiles == db.profiles[i := r.1.value] && r.1.value == SetAttrs(db.profiles[i], data, ProfileColumns, now)
  {
    var (rows, out) := UpdateFirstOwned(db.profiles, userId, data, ProfileColumns, now);
    (db.(profiles := rows), out)
  }

  /** The dict `get_user_profile` returns. */
  datatype ProfileView = ProfileView(
    user: UserRow,
    profile: Option<AttrRow>,
    scent: Option<ScentRow>,
    style: Option<StyleRow>,
    traits: Option<AttrRow>)

  function FirstOwnedRow(rows: seq<AttrRow>, userId: string): (r: Option<AttrRow>)
    ensures r.None? <==> forall i :: 0 <= i < |rows| ==> !OwnedBy(rows[i], userId)
    ensures r.Some? ==> r.value == rows[FirstOwned(rows, userId).value]
  {
    match FirstOwned(rows, userId)
    case None => None
    case Some(i) => Some(rows[i])
  }

  /** `get_user_profile(user_id)`: `None` for an unknown user, otherwise the user
      together with whichever profile rows exist. */
  function GetUserProfile(db: Db, userId: string): (r: Option<ProfileView>)
    ensures r.None? <==> userId !in db.users
    ensures r.Some? ==> r.value.user == db.users[userId]
    ensures r.Some? ==> (r.value.scent.Some? <==> userId in db.scent) && (r.value.style.Some? <==> userId in db.style)
    ensures r.Some? && userId in db.scent ==> r.value.scent.value == db.scent[userId]
    ensures r.Some? && userId in db.style ==> r.value.style.value == db.style[userId]
    ensures r.Some? ==> r.value.profile == FirstOwnedRow(db.profiles, userId)
    ensures r.Some? ==> r.value.traits == FirstOwnedRow(db.traits, userId)
  {
    if userId !in db.users then None
    else Some(ProfileView(
      db.users[userId],
      FirstOwnedRow(db.profiles, userId),
      GetScentPreferences(db, userId),
      GetStylePreferences(db, userId),
      FirstOwnedRow(db.traits, userId)))
  }

  // ------------------------------------------------------------ scent rows

  /** `ScentPreferencesCreate`. */
  datatype ScentInput = ScentInput(
    userId: string,
    favorites: seq<string>,
    dislikes: seq<string>,
    families: seq<string>,
    intensity: Option<string>)

  function GetScentPreferences(db: Db, userId: string): (r: Option<ScentRow>)
    ensures r.None? <==> userId !in db.scent
    ensures r.Some? ==> r.value == db.scent[userId]
  {
    if userId in db.scent then Some(db.scent[userId]) else None
  }

  /** `create_scent_preferences(preferences)`: "User not found" for an unknown
      user; an existing row has its three lists merged by set union with the
      input's and its intensity overwritten; otherwise a row holding exactly
      the input is inserted. */
  function CreateScentPreferences(db: Db, p: ScentInput, now: int): (r: Step<ScentRow>)
    ensures r.out.Err? <==> p.userId !in db.users
    ensures r.out.Err? ==> r.db == db && r.out.error == "User not found"
    ensures r.out.Ok? ==> r.db == db.(scent := db.scent[p.userId := r.out.value])
    ensures r.out.Ok? ==> r.out.value.intensity == p.intensity && r.out.value.updatedAt == now
    ensures r.out.Ok? && p.userId !in db.scent ==>
              r.out.value == ScentRow(p.favorites, p.dislikes, p.families, p.intensity, now, now)
    ensures r.out.Ok? && p.userId in db.scent ==>
              var old_ := db.scent[p.userId];
              && Elems(r.out.value.favorites) == Elems(old_.favorites) + Elems(p.favorites)
              && Elems(r.out.value.dislikes) == Elems(old_.dislikes) + Elems(p.dislikes)
              && Elems(r.out.value.families) == Elems(old_.families) + Elems(p.families)
              && NoDups(r.out.value.favorites) && NoDups(r.out.value.dislikes) && NoDups(r.out.value.families)
              && r.out.value.createdAt == old_.createdAt
  {
    if p.userId !in db.users then Step(db, Err("User not found"))
    else
      var row :=
        if p.userId in db.scent then
          var old_ := db.scent[p.userId];
          old_.(favorites := UnionList(old_.favorites, p.favorites),
                dislikes := UnionList(old_.dislikes, p.dislikes),
                families := UnionList(old_.families, p.families),
                intensity := p.intensity,
                updatedAt := now)
        else ScentRow(p.favorites, p.dislikes, p.families, p.intensity, now, now);
      Step(db.(scent := db.scent[p.userId := row]), Ok(row))
  }

  /** The list fields of a scent row, as sets. */
  function ScentSets(row: ScentRow): (set<string>, set<string>, set<string>) {
    (Elems(row.favorites), Elems(row.dislikes), Elems(row.families))
  }

  /** Merging the same preferences twice leaves the same sets and intensity as
      merging them once. */
  lemma ScentMergeIdempotent(db: Db, p: ScentInput, t1: int, t2: int)
    requires p.userId in db.users
    ensures var once := CreateScentPreferences(db, p, t1);
            var twice := CreateScentPreferences(once.db, p, t2);
            && ScentSets(twice.out.value) == ScentSets(once.out.value)
            && twice.out.value.intensity == once.out.value.intensity
  {
    var once := CreateScentPreferences(db, p, t1);
    SetsAfterMerge(db, p, t1);
    assert p.userId in once.db.scent && once.db.scent[p.userId] == once.out.value;
    SetsAfterMerge(once.db, p, t2);
    var s1 := ScentSets(once.out.value);
    assert s1.0 >= Elems(p.favorites) && s1.1 >= Elems(p.dislikes) && s1.2 >= Elems(p.families);
    assert s1.0 + Elems(p.favorites) == s1.0;
    assert s1.1 + Elems(p.dislikes) == s1.1;
    assert s1.2 + Elems(p.families) == s1.2;
  }

  /** Merging two preferences in either order gives the same sets; the
      intensity is the later one's, so the scalar does not commute. */
  lemma ScentMergeCommutes(db: Db, p: ScentInput, q: ScentInput, t1: int, t2: int)
    requires p.userId == q.userId && p.userId in db.users
    ensures var pq := CreateScentPreferences(CreateScentPreferences(db, p, t1).db, q, t2);
            var qp := CreateScentPreferences(CreateScentPreferences(db, q, t1).db, p, t2);
            && ScentSets(pq.out.value) == ScentSets(qp.out.value)
            && pq.out.value.intensity == q.intensity && qp.out.value.intensity == p.intensity
  {
    var first := CreateScentPreferences(db, p, t1);
    var other := CreateScentPreferences(db, q, t1);
    SetsAfterMerge(db, p, t1);
    SetsAfterMerge(db, q, t1);
    assert p.userId in first.db.scent && first.db.scent[p.userId] == first.out.value;
    assert q.userId in other.db.scent && other.db.scent[q.userId] == other.out.value;
    SetsAfterMerge(first.db, q, t2);
    SetsAfterMerge(other.db, p, t2);
    var before := if p.userId in db.scent then ScentSets(db.scent[p.userId]) else ({}, {}, {});
    assert before.0 + Elems(p.favorites) + Elems(q.favorites) == before.0 + Elems(q.favorites) + Elems(p.favorites);
    assert before.1 + Elems(p.dislikes) + Elems(q.dislikes) == before.1 + Elems(q.dislikes) + Elems(p.dislikes);
    assert before.2 + Elems(p.families) + Elems(q.families) == before.2 + Elems(q.families) + Elems(p.families);
  }

  /** The sets of a merged row: those before (none for a new row) joined with the input's. */
  lemma SetsAfterMerge(db: Db, p: ScentInput, now: int)
    requires p.userId in db.users
    ensures var r := CreateScentPreferences(db, p, now).out.value;
            var before := if p.userId in db.scent then ScentSets(db.scent[p.userId]) else ({}, {}, {});
            ScentSets(r) == (before.0 + Elems(p.favorites), before.1 + Elems(p.dislikes), before.2 + Elems(p.families))
  {
    var r := CreateScentPreferences(db, p, now).out.value;
    if p.userId in db.scent {
      var o := db.scent[p.userId];
      assert Elems(r.favorites) == Elems(o.favorites) + Elems(p.favorites);
      assert Elems(r.dislikes) == Elems(o.dislikes) + Elems(p.dislikes);
      assert Elems(r.families) == Elems(o.families) + Elems(p.families);
    } else {
      assert r == ScentRow(p.favorites, p.dislikes, p.families, p.intensity, now, now);
      var e: set<string> := {};
      assert e + Elems(p.favorites) == Elems(p.favorites);
      assert e + Elems(p.dislikes) == Elems(p.dislikes);
      assert e + Elems(p.families) == Elems(p.families);
    }
  }

  /** A merge never loses a listed scent: the stored sets only grow. */
  lemma ScentMergeMonotone(db: Db, p: ScentInput, now: int)
    requires p.userId in db.users && p.userId in db.scent
    ensures var r := CreateScentPreferences(db, p, now).out.value;
            var old_ := db.scent[p.userId];
            && Elems(old_.favorites) <= Elems(r.favorites)
            && Elems(old_.dislikes) <= Elems(r.dislikes)
            && Elems(old_.families) <= Elems(r.families)
  {
  }

  /** Patch of `update_scent_preferences`: the outer `None` is a key absent from
      the dict, an inner `None` a JSON null. */
  datatype ScentPatch = ScentPatch(
    favorites: Option<Option<seq<string>>>,
    dislikes: Option<Option<seq<string>>>,
    families: Option<Option<seq<string>>>,
    intensity: Option<Option<string>>)

  /** `if key in data: field = list(set(field or []).union(set(data[key] or [])))`. */
  function MergeField(field: seq<string>, patch: Option<Option<seq<string>>>): (r: seq<string>)
    ensures patch.None? ==> r == field
    ensures patch.Some? ==> NoDups(r) && Elems(r) == Elems(field) + Elems(patch.value.GetOr([]))
  {
    if patch.None? then field else UnionList(field, patch.value.GetOr([]))
  }

  /** `update_scent_preferences(user_id, data)`: `None` when the user has no
      scent row; otherwise only the keys present in `data` change. */
  function UpdateScentPreferences(db: Db, userId: string, patch: ScentPatch, now: int): (r: (Db, Option<ScentRow>))
    ensures r.1.None? <==> userId !in db.scent
    ensures r.1.None? ==> r.0 == db
    ensures r.1.Some? ==> r.0 == db.(scent := db.scent[userId := r.1.value])
    ensures r.1.Some? ==>
              var old_ := db.scent[userId];
              && (patch.favorites.None? ==> r.1.value.favorites == old_.favorites)
              && (patch.favorites.Some? ==>
                    Elems(r.1.value.favorites) == Elems(old_.favorites) + Elems(patch.favorites.value.GetOr([])))
              && (patch.dislikes.None? ==> r.1.value.dislikes == old_.dislikes)
              && (patch.dislikes.Some? ==>
                    Elems(r.1.value.dislikes) == Elems(old_.dislikes) + Elems(patch.dislikes.value.GetOr([])))
              && (patch.families.None? ==> r.1.value.families == old_.families)
              && (patch.families.Some? ==>
                    Elems(r.1.value.families) == Elems(old_.families) + Elems(patch.families.value.GetOr([])))
              && r.1.value.intensity == (if patch.intensity.Some? then patch.intensity.value else old_.intensity)
              && r.1.value.createdAt == old_.createdAt && r.1.value.updatedAt == now
  {
    if userId !in db.scent then (db, None)
    else
      var old_ := db.scent[userId];
      var row := old_.(
        favorites := MergeField(old_.favorites, patch.favorites),
        dislikes := MergeField(old_.dislikes, patch.dislikes),
        families := MergeField(old_.families, patch.families),
        intensity := if patch.intensity.Some? then patch.intensity.value else old_.intensity,
        updatedAt := now);
      (db.(scent := db.scent[userId := row]), Some(row))
  }

  // ------------------------------------------------------------- style rows

  /** `StylePreferencesCreate`. */
  datatype StyleInput = StyleInput(userId: string, clothingStyle: Option<string>, allStyles: seq<string>)

  function GetStylePreferences(db: Db, userId: string): (r: Option<StyleRow>)
    ensures r.None? <==> userId !in db.style
    ensures r.Some? ==> r.value == db.style[userId]
  {
    if userId in db.style then Some(db.style[userId]) else None
  }

  /** `create_style_preferences(preferences)`: the clothing style is
      overwritten (also with `None`) and `all_styles` merged by set union. */
  function CreateStylePreferences(db: Db, p: StyleInput, now: int): (r: Step<StyleRow>)
    ensures r.out.Err? <==> p.userId !in db.users
    ensures r.out.Err? ==> r.db == db && r.out.error == "User not found"
    ensures r.out.Ok? ==> r.db == db.(style := db.style[p.userId := r.out.value])
    ensures r.out.Ok? ==> r.out.value.clothingStyle == p.clothingStyle && r.out.value.updatedAt == now
    ensures r.out.Ok? && p.userId !in db.style ==> r.out.value == StyleRow(p.clothingStyle, p.allStyles, now, now)
    ensures r.out.Ok? && p.userId in db.style ==>
              && Elems(r.out.value.allStyles) == Elems(db.style[p.userId].allStyles) + Elems(p.allStyles)
              && NoDups(r.out.value.allStyles)
              && r.out.value.createdAt == db.style[p.userId].createdAt
  {
    if p.userId !in db.users then Step(db, Err("User not found"))
    else
      var row :=
        if p.userId in db.style then
          var old_ := db.style[p.userId];
          old_.(clothingStyle := p.clothingStyle, allStyles := UnionList(old_.allStyles, p.allStyles), updatedAt := now)
        else StyleRow(p.clothingStyle, p.allStyles, now, now);
      Step(db.(style := db.style[p.userId := row]), Ok(row))
  }

  /** A merge of the empty default (`clothing_style` null, no styles) after a
      real one keeps the styles but resets the clothing style: the scalar field
      is not monotone. */
  lemma StyleDefaultResetsClothing(db: Db, userId: string, style: string, styles: seq<string>, t1: int, t2: int)
    requires userId in db.users
    ensures var first := CreateStylePreferences(db, StyleInput(userId, Some(style), styles), t1);
            var second := CreateStylePreferences(first.db, StyleInput(userId, None, []), t2);
            && first.out.value.clothingStyle == Some(style)
            && second.out.value.clothingStyle == None
            && Elems(second.out.value.allStyles) == Elems(first.out.value.allStyles)
  {
    var first := CreateStylePreferences(db, StyleInput(userId, Some(style), styles), t1);
    assert userId in first.db.style && first.db.style[userId] == first.out.value;
    assert userId in first.db.users;
  }

  /** Patch of `update_style_preferences`. */
  datatype StylePatch = StylePatch(clothingStyle: Option<Option<string>>, allStyles: Option<Option<seq<string>>>)

  /** `update_style_preferences(user_id, data)`. */
  function UpdateStylePreferences(db: Db, userId: string, patch: StylePatch, now: int): (r: (Db, Option<StyleRow>))
    ensures r.1.None? <==> userId !in db.style
    ensures r.1.None? ==> r.0 == db
    ensures r.1.Some? ==> r.0 == db.(style := db.style[userId := r.1.value])
    ensures r.1.Some? ==>
              var old_ := db.style[userId];
              && r.1.value.clothingStyle == (if patch.clothingStyle.Some? then patch.clothingStyle.value else old_.clothingStyle)
              && (patch.allStyles.None? ==> r.1.value.allStyles == old_.allStyles)
              && (patch.allStyles.Some? ==>
                    Elems(r.1.value.allStyles) == Elems(old_.allStyles) + Elems(patch.allStyles.value.GetOr([])))
              && r.1.value.createdAt == old_.createdAt && r.1.value.updatedAt == now
  {
    if userId !in db.style then (db, None)
    else
      var old_ := db.style[userId];
      var row := old_.(
        clothingStyle := if patch.clothingStyle.Some? then patch.clothingStyle.value else old_.clothingStyle,
        allStyles := MergeField(old_.allStyles, patch.allStyles),
        updatedAt := now);
      (db.(style := db.style[userId := row]), Some(row))
  }

  // ------------------------------------------------------- personality rows

  /** `create_personality_traits(user_id, traits)`: always a new row, never a merge. */
  function CreatePersonalityTraits(db: Db, userId: string, traits: seq<string>, now: int): (r: Step<AttrRow>)
    ensures r.out.Err? <==> userId !in db.users
    ensures r.out.Err? ==> r.db == db && r.out.error == "User not found"
    ensures r.out.Ok? ==> r.db == db.(traits := db.traits + [r.out.value])
    ensures r.out.Ok? ==> OwnedBy(r.out.value, userId)
    ensures r.out.Ok? ==> "traits" in r.out.value.attrs && r.out.value.attrs["traits"] == TextList(traits)
    ensures r.out.Ok? ==> r.out.value.attrs.Keys <= TraitColumns
  {
    if userId !in db.users then Step(db, Err("User not found"))
    else
      var row := NewRow(userId, map["traits" := TextList(traits)], now);
      Step(db.(traits := db.traits + [row]), Ok(row))
  }

  /** `get_personality_traits(user_id)`: the first row of the user. */
  function GetPersonalityTraits(db: Db, userId: string): (r: Option<AttrRow>)
    ensures r.None? <==> forall i :: 0 <= i < |db.traits| ==> !OwnedBy(db.traits[i], userId)
    ensures r.Some? ==> OwnedBy(r.value, userId) && r.value in db.traits
  {
    FirstOwnedRow(db.traits, userId)
  }

  /** A second creation adds a second row, and lookups keep returning the first. */
  lemma TraitsNeverMerge(db: Db, userId: string, a: seq<string>, b: seq<string>, t1: int, t2: int)
    requires userId in db.users
    requires forall i :: 0 <= i < |db.traits| ==> !OwnedBy(db.traits[i], userId)
    ensures var first := CreatePersonalityTraits(db, userId, a, t1);
            var second := CreatePersonalityTraits(first.db, userId, b, t2);
            && |second.db.traits| == |db.traits| + 2
            && GetPersonalityTraits(second.db, userId) == Some(first.out.value)
  {
    var first := CreatePersonalityTraits(db, userId, a, t1);
    var second := CreatePersonalityTraits(first.db, userId, b, t2);
    var p := (row: AttrRow) => OwnedBy(row, userId);
    Table.IndexWhereAppend(db.traits, first.out.value, p);
    assert second.db.traits == first.db.traits + [second.out.value];
    assert second.db.traits[|db.traits|] == first.out.value;
    forall i | 0 <= i < |db.traits|
      ensures second.db.traits[i] == db.traits[i]
    {
    }
    assert FirstOwned(second.db.traits, userId) == Some(|db.traits|);
  }

  /** `update_personality_traits(user_id, traits_data)`. */
  function UpdatePersonalityTraits(db: Db, userId: string, data: map<string, Value>, now: int): (r: (Db, Option<AttrRow>))
    ensures r.0.(traits := db.traits) == db
    ensures r.1.None? <==> FirstOwned(db.traits, userId).None?
    ensures r.1.None? ==> r.0 == db
    ensures r.1.Some? ==>
              var i := FirstOwned(db.traits, userId).value;
              r.0.traits == db.traits[i := r.1.value] && r.1.value == SetAttrs(db.traits[i], data, TraitColumns, now)
  {
    var (rows, out) := UpdateFirstOwned(db.traits, userId, data, TraitColumns, now);
    (db.(traits := rows), out)
  }
}
