/** `ChatService` of app/services/chat.py: starting a chat with the greeting,
    appending messages, reading a history, and processing one user message
    (image analysis, or a streamed reply collected whole). */
module ChatSessions {
  import opened Wrappers
  import opened Text
  import opened Conversation
  import opened Models
  import SessionStore
  import Streaming
  import Table

  const Greeting: string := "Hey there! I'm Lila, your personal fragrance consultant. I'd love to help you create a fragrance that perfectly matches your style. Would you like to start by telling me a bit about yourself or sharing a photo of yourself?"

  const AnalysisFailure: string := "I apologize, but I had trouble analyzing your image. Let's continue our conversation about your fragrance preferences."

  /** What `start_chat` returns. */
  datatype Started = Started(sessionId: string, message: string)

  function GreetingMessage(now: int): Message {
    Message(Assistant, Greeting, now, None)
  }

  /** Append the greeting to a session dict and save it. */
  function Greet(db: Db, s: Session, now: int): (r: Step<Started>)
    requires SessionStore.Valid(db)
    requires s.history.Some?
    ensures SessionStore.Valid(r.db)
    ensures r.out == Ok(Started(s.id, Greeting))
    ensures SessionStore.GetSession(r.db, s.id).Some?
    ensures SessionStore.GetSession(r.db, s.id).value.history == Some(s.history.value + [GreetingMessage(now)])
  {
    var h := Some(s.history.value + [GreetingMessage(now)]);
    SessionStore.SaveThenGet(db, s.id, s.owner, h, now);
    Step(SessionStore.SaveSession(db, s.id, s.owner, h, now), Ok(Started(s.id, Greeting)))
  }

  /** `start_chat(user_id)`: reuse the first session of the owner, else create
      one (with `freshId`); then append the greeting and save. A failing
      create is re-raised. */
  function StartChat(db: Db, userId: Option<string>, freshId: string, now: int): (r: Step<Started>)
    requires SessionStore.Valid(db)
    ensures SessionStore.Valid(r.db)
    ensures r.out.Ok? ==> r.out.value.message == Greeting
    ensures SessionStore.GetSessionByUser(db, userId).Some? ==>
              var s := SessionStore.GetSessionByUser(db, userId).value;
              && r.out == Ok(Started(s.id, Greeting))
              && |r.db.sessions| == |db.sessions|
              && SessionStore.GetSession(r.db, s.id).Some?
              && SessionStore.GetSession(r.db, s.id).value.history == Some(s.history.value + [GreetingMessage(now)])
    ensures SessionStore.GetSessionByUser(db, userId).None? ==>
              && (r.out.Ok? <==> !SessionStore.HasSession(db, freshId))
              && (r.out.Err? ==> r.db.sessions == db.sessions)
              && (r.out.Ok? ==> r.out.value.sessionId == freshId)
              && (r.out.Ok? ==> SessionStore.GetSession(r.db, freshId).Some?)
              && (r.out.Ok? ==> SessionStore.GetSession(r.db, freshId).value.history == Some([GreetingMessage(now)]))
  {
    match SessionStore.GetSessionByUser(db, userId)
    case Some(s) => Greet(db, s, now)
    case None =>
      var c := SessionStore.CreateSession(db, userId, freshId, now);
      if c.out.Err? then Step(c.db, Err(c.out.error))
      else
        assert SessionStore.Valid(c.db);
        assert c.out.value.history.value + [GreetingMessage(now)] == [GreetingMessage(now)];
        Greet(c.db, c.out.value, now)
  }

  /** Lines 51-58 as they behave: the greeting is appended in place to the
      dict the lookup returned, so the save writes it only when that dict did
      not share the row's history object. */
  function GreetAsWritten(db: Db, s: Session, now: int): (r: Step<Started>)
    requires SessionStore.Valid(db)
    requires s.history.Some?
    ensures SessionStore.Valid(r.db)
    ensures r.out == Ok(Started(s.id, Greeting))
    ensures SessionStore.SharesHistory(db, s.id) ==>
              SessionStore.GetSession(r.db, s.id) == Some(SessionStore.GetSession(db, s.id).value.(updatedAt := now))
    ensures SessionStore.SharesHistory(db, s.id) ==> GetChatHistory(r.db, s.id) == GetChatHistory(db, s.id)
    ensures !SessionStore.SharesHistory(db, s.id) ==>
              GetChatHistory(r.db, s.id) == Ok(s.history.value + [GreetingMessage(now)])
  {
    var h := Some(s.history.value + [GreetingMessage(now)]);
    Step(SessionStore.SaveInPlace(db, s.id, s.owner, h, now), Ok(Started(s.id, Greeting)))
  }

  /** `start_chat(user_id)` as it behaves. The client is told the greeting, but
      the owner's stored session keeps its history (its column is not null),
      and a newly created session keeps the empty list `create_session` stored,
      since `refresh` loaded that list and the greeting went into it in place. */
  function StartChatAsWritten(db: Db, userId: Option<string>, freshId: string, now: int): (r: Step<Started>)
    requires SessionStore.Valid(db)
    ensures SessionStore.Valid(r.db)
    ensures r.out == StartChat(db, userId, freshId, now).out
    ensures SessionStore.GetSessionByUser(db, userId).Some? ==>
              var s := SessionStore.GetSessionByUser(db, userId).value;
              SessionStore.SharesHistory(db, s.id) ==> GetChatHistory(r.db, s.id) == GetChatHistory(db, s.id)
    ensures SessionStore.GetSessionByUser(db, userId).None? && r.out.Ok? ==>
              GetChatHistory(r.db, freshId) == Ok([])
  {
    match SessionStore.GetSessionByUser(db, userId)
    case Some(s) => GreetAsWritten(db, s, now)
    case None =>
      var c := SessionStore.CreateSession(db, userId, freshId, now);
      if c.out.Err? then Step(c.db, Err(c.out.error))
      else
        FreshRowShared(db, userId, freshId, now);
        GreetAsWritten(c.db, c.out.value, now)
  }

  /** A newly created session is stored with its own (empty) history object. */
  lemma FreshRowShared(db: Db, userId: Option<string>, freshId: string, now: int)
    requires SessionStore.Valid(db)
    requires SessionStore.CreateSession(db, userId, freshId, now).out.Ok?
    ensures var c := SessionStore.CreateSession(db, userId, freshId, now);
            && SessionStore.SharesHistory(c.db, freshId)
            && c.out.value.id == freshId && c.out.value.history == Some([])
            && GetChatHistory(c.db, freshId) == Ok([])
  {
    var c := SessionStore.CreateSession(db, userId, freshId, now);
    assert c.db.sessions[|db.sessions|] == c.out.value;
    Table.LookupUnique(c.db.sessions, SessionKey, |db.sessions|);
  }

  /** A first chat as written stores no greeting, while the corrected save
      stores it as the only message. */
  lemma FirstGreetingLost(db: Db, userId: Option<string>, freshId: string, now: int)
    requires SessionStore.Valid(db)
    requires SessionStore.GetSessionByUser(db, userId).None?
    requires !SessionStore.HasSession(db, freshId)
    ensures StartChatAsWritten(db, userId, freshId, now).out == Ok(Started(freshId, Greeting))
    ensures GetChatHistory(StartChatAsWritten(db, userId, freshId, now).db, freshId) == Ok([])
    ensures GetChatHistory(StartChat(db, userId, freshId, now).db, freshId) == Ok([GreetingMessage(now)])
  {
  }

  /** `add_message` as it behaves: the message is appended in place, so it is
      stored only for a session whose history column was null. */
  function AddMessageAsWritten(db: Db, id: string, role: Role, content: string, now: int): (r: (Db, bool))
    requires SessionStore.Valid(db)
    ensures SessionStore.Valid(r.0)
    ensures r.1 <==> SessionStore.HasSession(db, id)
    ensures !r.1 ==> r.0 == db
    ensures r.1 && SessionStore.SharesHistory(db, id) ==> GetChatHistory(r.0, id) == GetChatHistory(db, id)
    ensures r.1 && !SessionStore.SharesHistory(db, id) ==> GetChatHistory(r.0, id) == Ok([Message(role, content, now, None)])
  {
    match SessionStore.GetSession(db, id)
    case None => (db, false)
    case Some(s) =>
      var h := Some(Streaming.Heal(s).history.value + [Message(role, content, now, None)]);
      assert !SessionStore.SharesHistory(db, id) ==> h == Some([Message(role, content, now, None)]) by {
        if !SessionStore.SharesHistory(db, id) {
          assert s.history == Some([]);
          assert [] + [Message(role, content, now, None)] == [Message(role, content, now, None)];
        }
      }
      (SessionStore.SaveInPlace(db, id, s.owner, h, now), true)
  }

  /** The position of the session `GetSessionByUser` finds. */
  function OwnedIndex(db: Db, owner: Option<string>): Option<nat> {
    Table.IndexWhere(db.sessions, (s: Session) => SessionStore.OwnedBy(s, owner))
  }

  /** A save never changes which session is an owner's first. */
  lemma SaveKeepsOwnedIndex(db: Db, id: string, owner: Option<string>, history: Option<seq<Message>>, now: int, who: Option<string>)
    requires SessionStore.Valid(db)
    requires SessionStore.HasSession(db, id)
    ensures OwnedIndex(SessionStore.SaveSession(db, id, owner, history, now), who) == OwnedIndex(db, who)
  {
    var r := SessionStore.SaveSession(db, id, owner, history, now);
    Table.IndexWhereAgree(db.sessions, r.sessions, (s: Session) => SessionStore.OwnedBy(s, who));
  }

  /** The owner's first session is the one both lookups return. */
  lemma OwnedIsFound(db: Db, owner: Option<string>, i: nat)
    requires SessionStore.Valid(db)
    requires OwnedIndex(db, owner) == Some(i)
    ensures SessionStore.GetSessionByUser(db, owner) == Some(ToDict(db.sessions[i]))
    ensures SessionStore.GetSession(db, db.sessions[i].id) == Some(ToDict(db.sessions[i]))
  {
    Table.LookupUnique(db.sessions, SessionKey, i);
  }

  /** Starting a chat for an owner who has a session greets that session again. */
  lemma GreetAgain(db: Db, owner: Option<string>, i: nat, freshId: string, now: int)
    requires SessionStore.Valid(db)
    requires OwnedIndex(db, owner) == Some(i)
    ensures var sid := db.sessions[i].id;
            var r := StartChat(db, owner, freshId, now);
            && r.out == Ok(Started(sid, Greeting))
            && SessionStore.GetSession(r.db, sid).Some?
            && SessionStore.GetSession(r.db, sid).value.history ==
                 Some(SessionStore.GetSession(db, sid).value.history.value + [GreetingMessage(now)])
  {
    OwnedIsFound(db, owner, i);
  }

  /** After a successful start the started session is the owner's first, and
      its history ends with the greeting. */
  lemma StartedIsOwned(db: Db, userId: Option<string>, freshId: string, now: int) returns (i: nat)
    requires SessionStore.Valid(db)
    requires StartChat(db, userId, freshId, now).out.Ok?
    ensures var r := StartChat(db, userId, freshId, now);
            && OwnedIndex(r.db, userId) == Some(i) && i < |r.db.sessions|
            && r.db.sessions[i].id == r.out.value.sessionId
            && SessionStore.GetSession(r.db, r.out.value.sessionId).Some?
            && var h := SessionStore.GetSession(r.db, r.out.value.sessionId).value.history;
               h.Some? && |h.value| >= 1 && h.value[|h.value| - 1] == GreetingMessage(now)
  {
    if SessionStore.GetSessionByUser(db, userId).Some? {
      i := StartedExisting(db, userId, freshId, now);
    } else {
      i := StartedFresh(db, userId, freshId, now);
    }
  }

  lemma StartedExisting(db: Db, userId: Option<string>, freshId: string, now: int) returns (i: nat)
    requires SessionStore.Valid(db)
    requires SessionStore.GetSessionByUser(db, userId).Some?
    ensures var r := StartChat(db, userId, freshId, now);
            && OwnedIndex(r.db, userId) == Some(i) && i < |r.db.sessions|
            && r.out.Ok? && r.db.sessions[i].id == r.out.value.sessionId
  {
    var s := SessionStore.GetSessionByUser(db, userId).value;
    i := OwnedIndex(db, userId).value;
    OwnedIsFound(db, userId, i);
    SaveKeepsOwnedIndex(db, s.id, s.owner, Some(s.history.value + [GreetingMessage(now)]), now, userId);
  }

  lemma StartedFresh(db: Db, userId: Option<string>, freshId: string, now: int) returns (i: nat)
    requires SessionStore.Valid(db)
    requires SessionStore.GetSessionByUser(db, userId).None?
    requires StartChat(db, userId, freshId, now).out.Ok?
    ensures var r := StartChat(db, userId, freshId, now);
            && OwnedIndex(r.db, userId) == Some(i) && i < |r.db.sessions|
            && r.db.sessions[i].id == r.out.value.sessionId
  {
    var c := SessionStore.CreateSession(db, userId, freshId, now);
    Table.IndexWhereAppend(db.sessions, c.out.value, (s: Session) => SessionStore.OwnedBy(s, userId));
    i := |db.sessions|;
    assert c.db.sessions[i].id == freshId;
    SaveKeepsOwnedIndex(c.db, freshId, userId, Some([GreetingMessage(now)]), now, userId);
  }

  /** `get_chat_history(session_id)`. */
  function GetChatHistory(db: Db, id: string): (r: Result<seq<Message>>)
    ensures r.Err? <==> !SessionStore.HasSession(db, id)
    ensures r.Err? ==> r.error == "Session not found"
    ensures r.Ok? ==> Some(r.value) == SessionStore.GetSession(db, id).value.history
  {
    match SessionStore.GetSession(db, id)
    case None => Err("Session not found")
    case Some(s) => Ok(s.history.value)
  }

  /** `add_message(session_id, message)`: the database afterwards and whether
      the session existed. */
  function AddMessage(db: Db, id: string, role: Role, content: string, now: int): (r: (Db, bool))
    requires SessionStore.Valid(db)
    ensures SessionStore.Valid(r.0)
    ensures r.1 <==> SessionStore.HasSession(db, id)
    ensures !r.1 ==> r.0 == db
    ensures r.1 ==> GetChatHistory(r.0, id) == Ok(GetChatHistory(db, id).value + [Message(role, content, now, None)])
    ensures r.1 ==> |r.0.sessions| == |db.sessions|
    ensures r.1 ==> forall k :: 0 <= k < |db.sessions| && db.sessions[k].id != id ==> r.0.sessions[k] == db.sessions[k]
  {
    match SessionStore.GetSession(db, id)
    case None => (db, false)
    case Some(s) =>
      var h := Some(Streaming.Heal(s).history.value + [Message(role, content, now, None)]);
      SessionStore.SaveThenGet(db, id, s.owner, h, now);
      (SessionStore.SaveSession(db, id, s.owner, h, now), true)
  }

  /** The `if not session.get("conversation_history")` repair of `get_user_chat`. */
  function HealAndSave(db: Db, s: Session, now: int): (r: (Db, Session))
    requires SessionStore.Valid(db)
    ensures SessionStore.Valid(r.0)
    ensures r.1 == Streaming.Heal(s)
    ensures s.history.Some? ==> r.0 == db
    ensures s.history.None? ==> r.0 == SessionStore.SaveSession(db, s.id, s.owner, Some([]), now)
  {
    if s.history.Some? then (db, s)
    else (SessionStore.SaveSession(db, s.id, s.owner, Some([]), now), s.(history := Some([])))
  }

  /** `get_user_chat(user_id)`. The dict is built by `to_dict`, which already
      replaces a missing history, so the repair never writes. */
  function GetUserChat(db: Db, userId: Option<string>, now: int): (r: (Db, Option<Session>))
    requires SessionStore.Valid(db)
    ensures r.0 == db
    ensures r.1 == SessionStore.GetSessionByUser(db, userId)
  {
    match SessionStore.GetSessionByUser(db, userId)
    case None => (db, None)
    case Some(s) =>
      var (db', s') := HealAndSave(db, s, now);
      (db', Some(s'))
  }

  /** The result of `analyze_image`: its chat response and analysis, or a raise. */
  datatype ImageOutcome = Analysed(chatResponse: string, analysis: string) | AnalysisFailed

  /** The dict `process_message` returns. */
  datatype Processed = Processed(message: string, analysis: Option<string>, sessionId: Option<string>)

  function UserMessage(message: string, now: int): Message {
    Message(User, message, now, None)
  }

  /** The history the regular path hands the generator: truncated after the user's message. */
  function Prepared(s: Session, message: string, truncate: seq<Message> -> seq<Message>, now: int): seq<Message>
    requires s.history.Some?
  {
    truncate(s.history.value + [UserMessage(message, now)])
  }

  /** The completion request of the regular path. */
  function RegularRequest(s: Session, message: string, truncate: seq<Message> -> seq<Message>, prompt: string, now: int): seq<ApiMessage>
    requires s.history.Some?
  {
    [ApiMessage(System, prompt)] + Format(Prepared(s, message, truncate, now))
  }

  /** The image path (lines 157-189): the analysis reply, or the failure
      apology, is appended after the user's message and saved. */
  function AnswerImage(db: Db, s: Session, message: string, image: ImageOutcome, now: int): (r: Step<Processed>)
    requires SessionStore.Valid(db)
    requires s.history.Some?
    ensures SessionStore.Valid(r.db)
    ensures image.Analysed? ==> r.out == Ok(Processed(image.chatResponse, Some(image.analysis), None))
    ensures image.AnalysisFailed? ==> r.out == Ok(Processed(AnalysisFailure, None, None))
    ensures image.Analysed? ==>
              GetChatHistory(r.db, s.id) == Ok(s.history.value + [UserMessage(message, now), Message(Assistant, image.chatResponse, now, Some(image.analysis))])
    ensures image.AnalysisFailed? ==>
              GetChatHistory(r.db, s.id) == Ok(s.history.value + [UserMessage(message, now), Message(Assistant, AnalysisFailure, now, None)])
  {
    var reply := match image
      case Analysed(c, a) => Message(Assistant, c, now, Some(a))
      case AnalysisFailed => Message(Assistant, AnalysisFailure, now, None);
    var h := s.history.value + [UserMessage(message, now)] + [reply];
    assert h == s.history.value + [UserMessage(message, now), reply];
    SessionStore.SaveThenGet(db, s.id, s.owner, Some(h), now);
    var out := match image
      case Analysed(c, a) => Processed(c, Some(a), None)
      case AnalysisFailed => Processed(AnalysisFailure, None, None);
    Step(SessionStore.SaveSession(db, s.id, s.owner, Some(h), now), Ok(out))
  }

  /** `reply` is a prefix of the upstream text followed by the apology: what
      `full_response` collects when the stream breaks off. */
  predicate PrefixThenApology(reply: string, text: string) {
    exists k :: 0 <= k <= |text| && reply == text[..k] + Streaming.Apology
  }

  /** The regular path (lines 191-215): truncate, run the generator, collect
      its chunks, append the collected reply (`suppress` false, as written) or
      commit it without duplication (`suppress` true), and save. */
  function AnswerText(
    db: Db, s: Session, message: string, truncate: seq<Message> -> seq<Message>, prompt: string,
    complete: seq<ApiMessage> -> Streaming.Upstream, start: int, now: int, suppress: bool): (r: Step<Processed>)
    requires SessionStore.Valid(db)
    requires s.history.Some?
    ensures SessionStore.Valid(r.db)
    ensures r.out.Ok? && r.out.value.sessionId == Some(s.id) && r.out.value.analysis.None?
    ensures var prepared := Prepared(s, message, truncate, now);
            var up := complete(RegularRequest(s, message, truncate, prompt, now));
            var text := Streaming.Contents(up.fragments);
            var stored := GetChatHistory(r.db, s.id);
            && stored.Ok?
            && (!up.raises ==> r.out.value.message == text)
            && (up.raises ==> |r.out.value.message| >= |Streaming.Apology|)
            && (up.raises ==> PrefixThenApology(r.out.value.message, text))
            && (suppress ==> stored.value == Streaming.CommitReply(prepared, r.out.value.message, now))
            && (!suppress ==>
                  stored.value == (if up.raises then prepared else Streaming.CommitReply(prepared, text, now))
                                    + [Message(Assistant, r.out.value.message, now, None)])
  {
    var prepared := Prepared(s, message, truncate, now);
    var s' := s.(history := Some(prepared));
    assert Streaming.Heal(s') == s';
    var g := Streaming.GenerateResponse(db, s', prompt, complete, start, now);
    var full := Concat(g.chunks);
    var h := g.session.history.value;
    var final := if suppress then Streaming.CommitReply(h, full, now) else h + [Message(Assistant, full, now, None)];
    SessionStore.SaveThenGet(g.db, s.id, g.session.owner, Some(final), now);
    Streaming.CommitIdempotent(prepared, full, now, now);
    assert complete(g.request.value).raises ==>
             |full| >= |Streaming.Apology| && PrefixThenApology(full, Streaming.Contents(complete(g.request.value).fragments)) by {
      if complete(g.request.value).raises {
        var sent := Concat(g.chunks[..|g.chunks| - 1]);
        ConcatSnoc(g.chunks[..|g.chunks| - 1], Streaming.Apology);
        assert g.chunks == g.chunks[..|g.chunks| - 1] + [Streaming.Apology];
        assert full == sent + Streaming.Apology;
        assert full == Streaming.Contents(complete(g.request.value).fragments)[..|sent|] + Streaming.Apology;
      }
    }
    Step(SessionStore.SaveSession(g.db, s.id, g.session.owner, Some(final), now), Ok(Processed(full, None, Some(s.id))))
  }

  /** `process_message`, with the regular path's reply appended as written or committed once. */
  function ProcessWith(
    db: Db, id: string, message: string, imageData: Option<string>, image: ImageOutcome,
    truncate: seq<Message> -> seq<Message>, prompt: string, complete: seq<ApiMessage> -> Streaming.Upstream,
    start: int, now: int, suppress: bool): (r: Step<Processed>)
    requires SessionStore.Valid(db)
    ensures SessionStore.Valid(r.db)
    ensures r.out.Err? <==> !SessionStore.HasSession(db, id)
    ensures r.out.Err? ==> r.db == db && r.out.error == "Session not found"
    ensures SessionStore.HasSession(db, id) && SessionStore.Truthy(imageData) ==>
              r == AnswerImage(db, SessionStore.GetSession(db, id).value, message, image, now)
    ensures SessionStore.HasSession(db, id) && !SessionStore.Truthy(imageData) ==>
              r == AnswerText(db, SessionStore.GetSession(db, id).value, message, truncate, prompt, complete, start, now, suppress)
    ensures SessionStore.HasSession(db, id) && SessionStore.Truthy(imageData) ==>
              var before := GetChatHistory(db, id).value + [UserMessage(message, now)];
              var after := GetChatHistory(r.db, id);
              after.Ok? && |after.value| == |before| + 1 && after.value[..|before|] == before
    ensures SessionStore.HasSession(db, id) && !SessionStore.Truthy(imageData) ==>
              var prepared := Prepared(SessionStore.GetSession(db, id).value, message, truncate, now);
              var after := GetChatHistory(r.db, id);
              after.Ok? && |prepared| < |after.value| + (if suppress then 1 else 0) && after.value[..|prepared|] == prepared
  {
    match SessionStore.GetSession(db, id)
    case None => Step(db, Err("Session not found"))
    case Some(s) =>
      if SessionStore.Truthy(imageData) then
        assert s.id == id && GetChatHistory(db, id) == Ok(s.history.value);
        ImageKeepsBefore(db, s, message, image, now);
        AnswerImage(db, s, message, image, now)
      else
        var a := AnswerText(db, s, message, truncate, prompt, complete, start, now, suppress);
        TextKeepsPrepared(a, s, message, truncate, prompt, complete, start, now, suppress);
        a
  }

  /** The image path stores the old history and the user's message, then one reply. */
  lemma ImageKeepsBefore(db: Db, s: Session, message: string, image: ImageOutcome, now: int)
    requires SessionStore.Valid(db)
    requires s.history.Some?
    ensures var before := s.history.value + [UserMessage(message, now)];
            var after := GetChatHistory(AnswerImage(db, s, message, image, now).db, s.id);
            after.Ok? && |after.value| == |before| + 1 && after.value[..|before|] == before
  {
    var before := s.history.value + [UserMessage(message, now)];
    var after := GetChatHistory(AnswerImage(db, s, message, image, now).db, s.id).value;
    assert after[..|before|] == before;
  }

  /** The regular path stores the prepared history, then at most the reply. */
  lemma TextKeepsPrepared(
    a: Step<Processed>, s: Session, message: string, truncate: seq<Message> -> seq<Message>, prompt: string,
    complete: seq<ApiMessage> -> Streaming.Upstream, start: int, now: int, suppress: bool)
    requires s.history.Some?
    requires var prepared := Prepared(s, message, truncate, now);
             var up := complete(RegularRequest(s, message, truncate, prompt, now));
             var text := Streaming.Contents(up.fragments);
             var stored := GetChatHistory(a.db, s.id);
             && stored.Ok? && a.out.Ok?
             && (suppress ==> stored.value == Streaming.CommitReply(prepared, a.out.value.message, now))
             && (!suppress ==>
                   stored.value == (if up.raises then prepared else Streaming.CommitReply(prepared, text, now))
                                     + [Message(Assistant, a.out.value.message, now, None)])
    ensures var prepared := Prepared(s, message, truncate, now);
            var after := GetChatHistory(a.db, s.id);
            after.Ok? && |prepared| < |after.value| + (if suppress then 1 else 0) && after.value[..|prepared|] == prepared
  {
    var prepared := Prepared(s, message, truncate, now);
    var up := complete(RegularRequest(s, message, truncate, prompt, now));
    var text := Streaming.Contents(up.fragments);
    var after := GetChatHistory(a.db, s.id).value;
    if !suppress {
      var c := if up.raises then prepared else Streaming.CommitReply(prepared, text, now);
      assert c[..|prepared|] == prepared;
      assert after[..|prepared|] == c[..|prepared|];
    }
  }

  /** `process_message` as written. Once the generator works, a completed reply
      has already been committed by it, and lines 203-207 append it again: the
      stored history ends with the reply twice. */
  function ProcessMessageAsWritten(
    db: Db, id: string, message: string, imageData: Option<string>, image: ImageOutcome,
    truncate: seq<Message> -> seq<Message>, prompt: string, complete: seq<ApiMessage> -> Streaming.Upstream,
    start: int, now: int): (r: Step<Processed>)
    requires SessionStore.Valid(db)
    ensures SessionStore.Valid(r.db)
    ensures r.out.Err? <==> !SessionStore.HasSession(db, id)
    ensures SessionStore.HasSession(db, id) && !SessionStore.Truthy(imageData) ==>
              var s := SessionStore.GetSession(db, id).value;
              var up := complete(RegularRequest(s, message, truncate, prompt, now));
              var text := Streaming.Contents(up.fragments);
              var h := GetChatHistory(r.db, id);
              !up.raises ==>
                h.Ok? && EndsTwice(h.value, text)
  {
    var r := ProcessWith(db, id, message, imageData, image, truncate, prompt, complete, start, now, false);
    if SessionStore.HasSession(db, id) && !SessionStore.Truthy(imageData) then
      var s := SessionStore.GetSession(db, id).value;
      assert s.id == id;
      assert r == AnswerText(db, s, message, truncate, prompt, complete, start, now, false);
      RepliedTwice(db, s, message, truncate, prompt, complete, start, now);
      r
    else r
  }

  /** The regular path with the second append kept ends a completed reply twice. */
  lemma RepliedTwice(
    db: Db, s: Session, message: string, truncate: seq<Message> -> seq<Message>, prompt: string,
    complete: seq<ApiMessage> -> Streaming.Upstream, start: int, now: int)
    requires SessionStore.Valid(db)
    requires s.history.Some?
    ensures var a := AnswerText(db, s, message, truncate, prompt, complete, start, now, false);
            var up := complete(RegularRequest(s, message, truncate, prompt, now));
            var text := Streaming.Contents(up.fragments);
            var h := GetChatHistory(a.db, s.id);
            !up.raises ==>
              h.Ok? && EndsTwice(h.value, text)
  {
    var a := AnswerText(db, s, message, truncate, prompt, complete, start, now, false);
    var up := complete(RegularRequest(s, message, truncate, prompt, now));
    var text := Streaming.Contents(up.fragments);
    if !up.raises {
      var prepared := Prepared(s, message, truncate, now);
      assert GetChatHistory(a.db, s.id) == Ok(Streaming.CommitReply(prepared, text, now) + [Message(Assistant, text, now, None)]);
      TwiceAtEnd(prepared, text, now);
    }
  }

  /** The history ends with two assistant entries carrying `text`. */
  predicate EndsTwice(h: seq<Message>, text: string) {
    && |h| >= 2
    && h[|h| - 1].role == Assistant && h[|h| - 1].content == text
    && h[|h| - 2].role == Assistant && h[|h| - 2].content == text
  }

  /** Committing a reply and then appending it ends the history with it twice. */
  lemma TwiceAtEnd(prepared: seq<Message>, text: string, now: int)
    ensures EndsTwice(Streaming.CommitReply(prepared, text, now) + [Message(Assistant, text, now, None)], text)
  {
    var c := Streaming.CommitReply(prepared, text, now);
    assert Streaming.EchoesLast(c, text);
  }

  /** `process_message` with the reply committed once. A missing session is an
      error. The user's message is stored first. An image is answered by its
      analysis, or by the failure apology when the analysis raises. Otherwise the
      history truncated after the user's message is sent; the reply returned (the
      upstream text, or on an upstream error the text streamed so far followed
      by the apology) is stored once after that history. */
  function ProcessMessage(
    db: Db, id: string, message: string, imageData: Option<string>, image: ImageOutcome,
    truncate: seq<Message> -> seq<Message>, prompt: string, complete: seq<ApiMessage> -> Streaming.Upstream,
    start: int, now: int): (r: Step<Processed>)
    requires SessionStore.Valid(db)
    ensures SessionStore.Valid(r.db)
    ensures r.out.Err? <==> !SessionStore.HasSession(db, id)
    ensures r.out.Err? ==> r.db == db && r.out.error == "Session not found"
    ensures r.out.Ok? && SessionStore.Truthy(imageData) ==>
              var before := GetChatHistory(db, id).value;
              && (image.Analysed? ==>
                    && r.out.value == Processed(image.chatResponse, Some(image.analysis), None)
                    && GetChatHistory(r.db, id) ==
                         Ok(before + [UserMessage(message, now), Message(Assistant, image.chatResponse, now, Some(image.analysis))]))
              && (image.AnalysisFailed? ==>
                    && r.out.value == Processed(AnalysisFailure, None, None)
                    && GetChatHistory(r.db, id) ==
                         Ok(before + [UserMessage(message, now), Message(Assistant, AnalysisFailure, now, None)]))
    ensures r.out.Ok? && !SessionStore.Truthy(imageData) ==>
              var s := SessionStore.GetSession(db, id).value;
              var prepared := Prepared(s, message, truncate, now);
              var up := complete(RegularRequest(s, message, truncate, prompt, now));
              var text := Streaming.Contents(up.fragments);
              && r.out.value.sessionId == Some(id)
              && (!up.raises ==> r.out.value.message == text)
              && (up.raises ==> |r.out.value.message| >= |Streaming.Apology|)
              && (up.raises ==> PrefixThenApology(r.out.value.message, text))
              && GetChatHistory(r.db, id) == Ok(Streaming.CommitReply(prepared, r.out.value.message, now))
  {
    ProcessWith(db, id, message, imageData, image, truncate, prompt, complete, start, now, true)
  }
}
