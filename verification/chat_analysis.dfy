/** The chat analysis of app/services/chat_analysis_service.py: when to run an
    extraction, what the extractor is shown, how its cleaned result is written
    to the profile store, and the keyword-count personality heuristic. */
module ChatAnalysis {
  import opened Wrappers
  import opened Text
  import opened Conversation
  import opened Models
  import Extraction
  import Profiles
  import Phrases

  // --------------------------------------------------------------- trigger

  const BufferSize: nat := 5

  const TriggerPhrases: seq<string> := [
    "like", "love", "prefer", "favorite", "dislike", "hate",
    "style", "fashion", "wear", "dress", "outfit",
    "personality", "trait", "character", "nature"]

  /** The loop over the trigger phrases: the first one found in `text`. */
  function FindTrigger(text: string, phrases: seq<string>): (r: Option<nat>)
    ensures r.None? <==> forall k :: 0 <= k < |phrases| ==> !Contains(text, phrases[k])
    ensures r.Some? ==> r.value < |phrases| && Contains(text, phrases[r.value])
    ensures r.Some? ==> forall k :: 0 <= k < r.value ==> !Contains(text, phrases[k])
  {
    if phrases == [] then None
    else if Contains(text, phrases[0]) then Some(0)
    else
      match FindTrigger(text, phrases[1..])
      case None => None
      case Some(k) => Some(k + 1)
  }

  /** `_should_extract_profile()` over the message buffer. */
  function ShouldExtract(buffer: seq<Message>): (r: bool)
    ensures |buffer| >= BufferSize ==> r
    ensures buffer == [] ==> !r
    ensures 0 < |buffer| < BufferSize ==>
              (r <==> exists k :: 0 <= k < |TriggerPhrases| && Contains(Lower(buffer[|buffer| - 1].content), TriggerPhrases[k]))
  {
    if |buffer| >= BufferSize then true
    else if buffer == [] then false
    else FindTrigger(Lower(buffer[|buffer| - 1].content), TriggerPhrases).Some?
  }

  /** Only the last buffered message matters below the buffer size. */
  lemma OnlyLastMessageTriggers(earlier: seq<Message>, earlier2: seq<Message>, last: Message)
    requires |earlier| == |earlier2| < BufferSize - 1
    ensures ShouldExtract(earlier + [last]) == ShouldExtract(earlier2 + [last])
  {
    assert (earlier + [last])[|earlier|] == last;
    assert (earlier2 + [last])[|earlier2|] == last;
  }

  // -------------------------------------------------------------- contents

  /** The contents of the messages whose role is in `roles`, in order. */
  function Contents(messages: seq<Message>, roles: set<Role>): (r: seq<string>)
    ensures |r| <= |messages|
    ensures forall x :: x in r <==> exists i :: 0 <= i < |messages| && messages[i].role in roles && messages[i].content == x
  {
    if messages == [] then []
    else
      var tail := Contents(messages[1..], roles);
      forall x | x in tail
        ensures exists i :: 0 <= i < |messages| && messages[i].role in roles && messages[i].content == x
      {
        var i :| 0 <= i < |messages[1..]| && messages[1..][i].role in roles && messages[1..][i].content == x;
        assert messages[i + 1] == messages[1..][i];
      }
      forall i | 0 < i < |messages| && messages[i].role in roles
        ensures messages[i].content in tail
      {
        assert messages[1..][i - 1] == messages[i];
      }
      if messages[0].role in roles then [messages[0].content] + tail else tail
  }

  lemma {:induction false} ContentsAppend(a: seq<Message>, b: seq<Message>, roles: set<Role>)
    ensures Contents(a + b, roles) == Contents(a, roles) + Contents(b, roles)
    decreases |a|
  {
    if a == [] {
      assert a + b == b;
    } else {
      assert (a + b)[1..] == a[1..] + b;
      ContentsAppend(a[1..], b, roles);
    }
  }

  lemma {:induction false} NoRoleNoContents(messages: seq<Message>, roles: set<Role>)
    requires forall i :: 0 <= i < |messages| ==> messages[i].role !in roles
    ensures Contents(messages, roles) == []
    decreases |messages|
  {
    if messages != [] {
      assert messages[0].role !in roles;
      assert forall i :: 0 <= i < |messages[1..]| ==> messages[1..][i] == messages[i + 1];
      NoRoleNoContents(messages[1..], roles);
    }
  }

  /** The roles whose messages the extractor sees. */
  const ExtractorRoles: set<Role> := {User, System}

  /** `combined_message`: user and system contents, space-joined in order. */
  function Combined(messages: seq<Message>): string {
    Join(" ", Contents(messages, ExtractorRoles))
  }

  // ------------------------------------------------------------- dispatch

  function ScentInputOf(userId: string, s: Extraction.Scent): Profiles.ScentInput {
    Profiles.ScentInput(userId, s.favorites, s.dislikes, s.families, Some(s.intensity))
  }

  function StyleInputOf(userId: string, s: Extraction.Style): Profiles.StyleInput {
    Profiles.StyleInput(userId, s.clothingStyle, s.allStyles)
  }

  /** `_process_extracted_data(user_id, data)`. A cleaned section is a dict
      with all its keys and so is always truthy: the scent, style and
      personality creates run in this order, each once, with the section's
      fields; the first failure is raised after the earlier writes were
      committed. */
  function ProcessExtractedData(db: Db, userId: string, p: Extraction.Profile, now: int): (r: Step<()>)
    ensures r.out.Err? <==> userId !in db.users
    ensures r.out.Err? ==> r.db == db
    ensures r.db.users == db.users && r.db.sessions == db.sessions
    ensures r.db.profiles == db.profiles && r.db.chat == db.chat
    ensures r.out.Ok? ==> ScentWritten(db, r.db, userId, p.scent)
    ensures r.out.Ok? ==> StyleWritten(db, r.db, userId, p.style)
    ensures r.out.Ok? ==> TraitsWritten(db, r.db, userId, p.traits)
  {
    var s1 := Profiles.CreateScentPreferences(db, ScentInputOf(userId, p.scent), now);
    match s1.out
    case Err(e) => Step(s1.db, Err(e))
    case Ok(_) =>
      var s2 := Profiles.CreateStylePreferences(s1.db, StyleInputOf(userId, p.style), now);
      match s2.out
      case Err(e) => Step(s2.db, Err(e))
      case Ok(_) =>
        var s3 := Profiles.CreatePersonalityTraits(s2.db, userId, p.traits.traits, now);
        match s3.out
        case Err(e) => Step(s3.db, Err(e))
        case Ok(_) => Step(s3.db, Ok(()))
  }

  /** The user's scent row after the write: intensity overwritten, lists merged
      into (or, for a new row, equal to) the section's. */
  ghost predicate ScentWritten(before: Db, after: Db, userId: string, s: Extraction.Scent) {
    && after.scent.Keys == before.scent.Keys + {userId}
    && (forall u :: u in before.scent && u != userId ==> after.scent[u] == before.scent[u])
    && after.scent[userId].intensity == Some(s.intensity)
    && (userId !in before.scent ==>
          after.scent[userId].favorites == s.favorites && after.scent[userId].dislikes == s.dislikes
          && after.scent[userId].families == s.families)
    && (userId in before.scent ==>
          Profiles.ScentSets(after.scent[userId]) ==
            (Elems(before.scent[userId].favorites) + Elems(s.favorites),
             Elems(before.scent[userId].dislikes) + Elems(s.dislikes),
             Elems(before.scent[userId].families) + Elems(s.families)))
  }

  /** The user's style row after the write: clothing style overwritten, styles merged. */
  ghost predicate StyleWritten(before: Db, after: Db, userId: string, s: Extraction.Style) {
    && after.style.Keys == before.style.Keys + {userId}
    && (forall u :: u in before.style && u != userId ==> after.style[u] == before.style[u])
    && after.style[userId].clothingStyle == s.clothingStyle
    && (userId !in before.style ==> after.style[userId].allStyles == s.allStyles)
    && (userId in before.style ==>
          Elems(after.style[userId].allStyles) == Elems(before.style[userId].allStyles) + Elems(s.allStyles))
  }

  /** One new personality row of the user, holding the section's traits. */
  ghost predicate TraitsWritten(before: Db, after: Db, userId: string, t: Extraction.Traits) {
    && |after.traits| == |before.traits| + 1
    && after.traits[..|before.traits|] == before.traits
    && var row := after.traits[|before.traits|];
       OwnedBy(row, userId) && "traits" in row.attrs && row.attrs["traits"] == TextList(t.traits)
  }

  /** `analyze_chat_messages(user_id, messages)`: the extractor (`extract`,
      standing for the completion call and its JSON parsing) sees the combined
      user and system text; its cleaned result is written; every error is
      swallowed, which leaves the store unchanged only for an unknown user. */
  function AnalyzeChatMessages(
    db: Db, userId: string, messages: seq<Message>, extract: string -> Result<Extraction.RawProfile>, now: int)
    : (r: Db)
    ensures userId !in db.users ==> r == db
    ensures r.users == db.users && r.sessions == db.sessions && r.chat == db.chat
    ensures userId in db.users ==>
              var p := Extraction.ExtractProfileData(extract(Combined(messages)));
              ScentWritten(db, r, userId, p.scent) && StyleWritten(db, r, userId, p.style)
              && TraitsWritten(db, r, userId, p.traits)
  {
    var p := Extraction.ExtractProfileData(extract(Combined(messages)));
    ProcessExtractedData(db, userId, p, now).db
  }

  /** Assistant replies never reach the extractor. */
  lemma AssistantRepliesIgnored(
    db: Db, userId: string, messages: seq<Message>, reply: Message,
    extract: string -> Result<Extraction.RawProfile>, now: int)
    requires reply.role == Assistant
    ensures AnalyzeChatMessages(db, userId, messages + [reply], extract, now) == AnalyzeChatMessages(db, userId, messages, extract, now)
  {
    ContentsAppend(messages, [reply], ExtractorRoles);
    assert Contents([reply], ExtractorRoles) == [];
    assert Contents(messages, ExtractorRoles) + [] == Contents(messages, ExtractorRoles);
  }

  /** A failed extraction still writes the defaults: the collected lists survive
      but the intensity goes back to "medium" and the clothing style to none,
      so the scalar fields are not monotone under repeated analysis. */
  lemma FailedExtractionResetsScalars(
    db: Db, userId: string, messages: seq<Message>, extract: string -> Result<Extraction.RawProfile>, now: int)
    requires userId in db.users && userId in db.scent && userId in db.style
    requires extract(Combined(messages)).Err?
    ensures var r := AnalyzeChatMessages(db, userId, messages, extract, now);
            && r.scent[userId].intensity == Some("medium")
            && r.style[userId].clothingStyle == None
            && Profiles.ScentSets(r.scent[userId]) == Profiles.ScentSets(db.scent[userId])
            && Elems(r.style[userId].allStyles) == Elems(db.style[userId].allStyles)
  {
    var p := Extraction.ExtractProfileData(extract(Combined(messages)));
    assert p == Extraction.DefaultProfile;
    var r := AnalyzeChatMessages(db, userId, messages, extract, now);
    DefaultScentKeepsSets(db, r, userId);
    DefaultStyleKeepsStyles(db, r, userId);
  }

  lemma DefaultScentKeepsSets(before: Db, after: Db, userId: string)
    requires userId in before.scent
    requires ScentWritten(before, after, userId, Extraction.DefaultProfile.scent)
    ensures after.scent[userId].intensity == Some("medium")
    ensures Profiles.ScentSets(after.scent[userId]) == Profiles.ScentSets(before.scent[userId])
  {
    var a, b := after.scent[userId], before.scent[userId];
    assert Elems<string>([]) == {};
    assert Elems(a.favorites) == Elems(b.favorites);
    assert Elems(a.dislikes) == Elems(b.dislikes);
    assert Elems(a.families) == Elems(b.families);
  }

  lemma DefaultStyleKeepsStyles(before: Db, after: Db, userId: string)
    requires userId in before.style
    requires StyleWritten(before, after, userId, Extraction.DefaultProfile.style)
    ensures after.style[userId].clothingStyle == None
    ensures Elems(after.style[userId].allStyles) == Elems(before.style[userId].allStyles)
  {
    assert Elems<string>([]) == {};
  }

  // ------------------------------------------------------ personality heuristic

  /** `_count_keywords(text, keywords)`: the non-overlapping occurrences of each
      lower-cased keyword in the lower-cased text, summed. */
  function CountKeywords(text: string, keywords: seq<string>): (n: nat)
    ensures n == 0 <==> forall k :: 0 <= k < |keywords| ==> keywords[k] != [] && !Contains(Lower(text), Lower(keywords[k]))
  {
    if keywords == [] then 0
    else
      var tail := CountKeywords(text, keywords[1..]);
      assert forall k :: 1 <= k < |keywords| ==> keywords[k] == keywords[1..][k - 1];
      Occurrences(Lower(text), Lower(keywords[0])) + tail
  }

  lemma {:induction false} CountKeywordsAppend(text: string, a: seq<string>, b: seq<string>)
    ensures CountKeywords(text, a + b) == CountKeywords(text, a) + CountKeywords(text, b)
    decreases |a|
  {
    if a == [] {
      assert a + b == b;
    } else {
      assert (a + b)[1..] == a[1..] + b;
      CountKeywordsAppend(text, a[1..], b);
    }
  }

  const TraitNames: seq<string> := ["extroverted", "introverted", "analytical", "emotional", "adventurous", "cautious"]

  const ExtrovertedKeywords: seq<string> := ["I", "we", "us", "our", "let's", "together"]

  const TraitKeywordLists: seq<seq<string>> := [
    ExtrovertedKeywords,
    ["me", "myself", "alone", "quiet", "peaceful"],
    ["because", "reason", "logic", "analyze", "think"],
    ["feel", "love", "hate", "happy", "sad", "excited"],
    ["new", "try", "explore", "adventure", "discover"],
    ["careful", "safe", "risk", "maybe", "think about"]]

  /** The keyword count of each trait, in trait order. */
  function Counts(text: string): (r: seq<nat>)
    ensures |r| == |TraitNames|
    ensures forall i :: 0 <= i < |r| ==> r[i] == CountKeywords(text, TraitKeywordLists[i])
  {
    seq(|TraitNames|, i requires 0 <= i < |TraitNames| => CountKeywords(text, TraitKeywordLists[i]))
  }

  /** `max(items, key=count)`: the first position holding the largest count. */
  function FirstMax(counts: seq<nat>): (i: nat)
    requires |counts| > 0
    ensures i < |counts|
    ensures forall j :: 0 <= j < |counts| ==> counts[j] <= counts[i]
    ensures forall j :: 0 <= j < i ==> counts[j] < counts[i]
  {
    if |counts| == 1 then 0
    else
      var k := FirstMax(counts[..|counts| - 1]);
      assert forall j :: 0 <= j < |counts| - 1 ==> counts[..|counts| - 1][j] == counts[j];
      if counts[|counts| - 1] > counts[k] then |counts| - 1 else k
  }

  /** The names whose count is positive, in name order. */
  function Positive(names: seq<string>, counts: seq<nat>): (r: seq<string>)
    requires |names| == |counts|
    ensures Phrases.Subsequence(r, names)
    ensures forall t :: t in r <==> exists i :: 0 <= i < |names| && names[i] == t && counts[i] > 0
  {
    if names == [] then []
    else
      var tail := Positive(names[1..], counts[1..]);
      assert forall i :: 1 <= i < |names| ==> names[1..][i - 1] == names[i] && counts[1..][i - 1] == counts[i];
      if counts[0] > 0 then
        assert ([names[0]] + tail)[1..] == tail;
        [names[0]] + tail
      else
        Phrases.SubsequenceDrop(tail, names);
        tail
  }

  /** The part of `_extract_personality_traits` kept here: the confidence score
      (a float) is not modelled. */
  datatype TraitSummary = TraitSummary(traits: seq<string>, primaryTrait: string)

  /** The user text the heuristic reads: user messages only, space-joined. */
  function UserText(messages: seq<Message>): string {
    Join(" ", Contents(messages, {User}))
  }

  /** `_extract_personality_traits(messages)`. */
  function ExtractPersonalityTraits(messages: seq<Message>): (r: Option<TraitSummary>)
    ensures r.None? <==> messages == []
    ensures r.Some? ==>
              var counts := Counts(UserText(messages));
              && Phrases.Subsequence(r.value.traits, TraitNames)
              && (forall t :: t in r.value.traits <==>
                    exists i :: 0 <= i < |TraitNames| && TraitNames[i] == t && counts[i] > 0)
              && exists i :: 0 <= i < |TraitNames| && r.value.primaryTrait == TraitNames[i]
                   && (forall j :: 0 <= j < |TraitNames| ==> counts[j] <= counts[i])
                   && (forall j :: 0 <= j < i ==> counts[j] < counts[i])
  {
    if messages == [] then None
    else
      var counts := Counts(UserText(messages));
      var i := FirstMax(counts);
      var summary := TraitSummary(Positive(TraitNames, counts), TraitNames[i]);
      assert i < |TraitNames| && summary.primaryTrait == TraitNames[i];
      Some(summary)
  }

  /** The keyword "I" is lower-cased to "i", so any letter i counts as extroversion. */
  lemma AnyLetterICounts(text: string, j: nat)
    requires j < |text| && (text[j] == 'i' || text[j] == 'I')
    ensures CountKeywords(text, ExtrovertedKeywords) > 0
  {
    var low := Lower(text);
    assert low[j] == LowerChar(text[j]);
    assert LowerChar('I') == 'i' && LowerChar('i') == 'i';
    CharOccurs(low, j);
    assert Lower("I") == "i";
    assert ExtrovertedKeywords[0] == "I";
  }

  lemma CharOccurs(s: string, j: nat)
    requires j < |s|
    ensures Contains(s, [s[j]])
  {
    assert OccursAt(s, [s[j]], j);
    ContainsAt(s, [s[j]]);
  }

  /** Without user messages nothing counts, and the primary trait is the first name. */
  lemma NoUserTextGivesExtroverted(messages: seq<Message>)
    requires messages != []
    requires forall i :: 0 <= i < |messages| ==> messages[i].role != User
    ensures ExtractPersonalityTraits(messages) == Some(TraitSummary([], "extroverted"))
  {
    var text := UserText(messages);
    NoRoleNoContents(messages, {User});
    EmptyTextCountsNothing(text);
    AllZeroSummary(Counts(text));
  }

  lemma AllZeroSummary(counts: seq<nat>)
    requires |counts| == |TraitNames|
    requires forall i :: 0 <= i < |counts| ==> counts[i] == 0
    ensures FirstMax(counts) == 0
    ensures Positive(TraitNames, counts) == []
  {
    NothingPositive(TraitNames, counts);
  }

  lemma {:induction false} NothingPositive(names: seq<string>, counts: seq<nat>)
    requires |names| == |counts|
    requires forall i :: 0 <= i < |counts| ==> counts[i] == 0
    ensures Positive(names, counts) == []
    decreases |names|
  {
    if names != [] {
      assert forall i :: 0 <= i < |counts[1..]| ==> counts[1..][i] == counts[i + 1];
      NothingPositive(names[1..], counts[1..]);
    }
  }

  lemma EmptyTextCountsNothing(text: string)
    requires text == []
    ensures forall i :: 0 <= i < |TraitNames| ==> Counts(text)[i] == 0
  {
    forall i, k | 0 <= i < |TraitKeywordLists| && 0 <= k < |TraitKeywordLists[i]|
      ensures TraitKeywordLists[i][k] != [] && !Contains(Lower(text), Lower(TraitKeywordLists[i][k]))
    {
      NoRoomNoMatch(Lower(text), Lower(TraitKeywordLists[i][k]));
    }
  }

  // ------------------------------------------------------ scent update helper

  /** The dict `_update_scent_preferences` receives: a list key may be
      missing; the intensity key may be missing or hold null. */
  datatype ScentDict = ScentDict(
    favorites: Option<seq<string>>,
    dislikes: Option<seq<string>>,
    families: Option<seq<string>>,
    intensity: Option<Option<string>>)

  /** `_update_scent_preferences(user_id, preferences)`: missing lists become
      empty, a missing intensity becomes "medium", and the result goes through
      `create_scent_preferences`. */
  function UpdateScentPreferences(db: Db, userId: string, d: ScentDict, now: int): (r: Step<ScentRow>)
    ensures r.out.Err? <==> userId !in db.users
    ensures r.out.Err? ==> r.db == db
    ensures r.out.Ok? ==> r.db == db.(scent := db.scent[userId := r.out.value])
    ensures r.out.Ok? ==> r.out.value.intensity == (if d.intensity.None? then Some("medium") else d.intensity.value)
    ensures r.out.Ok? && userId in db.scent ==>
              && Elems(r.out.value.favorites) == Elems(db.scent[userId].favorites) + Elems(d.favorites.GetOr([]))
              && Elems(r.out.value.dislikes) == Elems(db.scent[userId].dislikes) + Elems(d.dislikes.GetOr([]))
              && Elems(r.out.value.families) == Elems(db.scent[userId].families) + Elems(d.families.GetOr([]))
    ensures r.out.Ok? && userId !in db.scent ==>
              r.out.value.favorites == d.favorites.GetOr([]) && r.out.value.dislikes == d.dislikes.GetOr([])
              && r.out.value.families == d.families.GetOr([])
  {
    var input := Profiles.ScentInput(
      userId, d.favorites.GetOr([]), d.dislikes.GetOr([]), d.families.GetOr([]), d.intensity.GetOr(Some("medium")));
    Profiles.CreateScentPreferences(db, input, now)
  }

  /** An empty dict keeps the stored lists but resets the intensity to "medium". */
  lemma EmptyUpdateResetsIntensity(db: Db, userId: string, now: int)
    requires userId in db.users && userId in db.scent
    ensures var r := UpdateScentPreferences(db, userId, ScentDict(None, None, None, None), now);
            && r.out.Ok?
            && r.out.value.intensity == Some("medium")
            && Profiles.ScentSets(r.out.value) == Profiles.ScentSets(db.scent[userId])
  {
    var r := UpdateScentPreferences(db, userId, ScentDict(None, None, None, None), now);
    var b := db.scent[userId];
    assert Elems<string>([]) == {};
    assert Elems(r.out.value.favorites) == Elems(b.favorites);
    assert Elems(r.out.value.dislikes) == Elems(b.dislikes);
    assert Elems(r.out.value.families) == Elems(b.families);
  }
}
