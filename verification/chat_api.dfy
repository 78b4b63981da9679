/** The `/chat` and `/start-session` endpoints of app/api/v1/chat.py. For
    `/chat` an unknown session is a 404, otherwise the reply of the generator
    is streamed as an event stream with the `[DONE]` sentinel last.
    `/start-session` starts a chat and answers with its greeting. */
module ChatApi {
  import opened Wrappers
  import opened Text
  import opened Conversation
  import opened Models
  import SessionStore
  import Streaming
  import EventStream
  import ChatSessions

  /** `ChatRequest`: the session id and the user's text. */
  datatype ChatRequest = ChatRequest(sessionId: string, message: string)

  /** The endpoint's answer: an event-stream body together with the database it
      leaves once the body was consumed, or an HTTP error. */
  datatype Reply =
    | EventStreamReply(body: string, db: Db)
    | HttpError(status: nat, detail: string)

  /** The completion request the endpoint sends for a stored session. */
  function RequestFor(db: Db, id: string, prompt: string): seq<ApiMessage>
    requires SessionStore.HasSession(db, id)
  {
    [ApiMessage(System, prompt)] + Format(SessionStore.GetSession(db, id).value.history.value)
  }

  /** `chat(request)`: a 404 for an unknown session, otherwise the event
      stream of the corrected generator run on the stored session, each chunk
      framed line by line as line 56 evidently intends (one `data:` line per
      line of the chunk; the code writes the whole chunk on one line, see
      `EventStream.MultiLineChunkIsCut`). For chunks without line feeds the
      two framings agree (`EventStream.SingleLineFramingAgrees`). */
  function Chat(
    db: Db, req: ChatRequest, prompt: string, complete: seq<ApiMessage> -> Streaming.Upstream,
    start: int, now: int): (r: Reply)
    requires SessionStore.Valid(db)
    ensures r.HttpError? <==> !SessionStore.HasSession(db, req.sessionId)
    ensures r.HttpError? ==> r.status == 404 && r.detail == "Session not found"
    ensures r.EventStreamReply? ==> SessionStore.Valid(r.db)
  {
    match SessionStore.GetSession(db, req.sessionId)
    case None => HttpError(404, "Session not found")
    case Some(session) =>
      var g := Streaming.GenerateResponse(db, session, prompt, complete, start, now);
      EventStreamReply(EventStream.FramedBody(g.chunks), g.db)
  }

  /** `chat(request)` as written: the generator fails at line 32 of
      app/core/ai/chat.py, so a known session gets the apology and the sentinel,
      each in the written `data:` framing, and nothing is saved. */
  function ChatAsWritten(
    db: Db, req: ChatRequest, prompt: string, complete: seq<ApiMessage> -> Streaming.Upstream,
    start: int, now: int): (r: Reply)
    requires SessionStore.Valid(db)
    ensures r.HttpError? <==> !SessionStore.HasSession(db, req.sessionId)
    ensures r.HttpError? ==> r.status == 404 && r.detail == "Session not found"
    ensures r.EventStreamReply? ==>
              r.body == EventStream.Frame(Streaming.Apology) + EventStream.Frame(EventStream.Done) && r.db == db
  {
    match SessionStore.GetSession(db, req.sessionId)
    case None => HttpError(404, "Session not found")
    case Some(session) =>
      var g := Streaming.GenerateResponseAsWritten(db, session, prompt, complete, start, now);
      ApologyIsNonEmpty();
      BodyOfOne(Streaming.Apology);
      EventStreamReply(EventStream.Body(g.chunks), g.db)
  }

  /** The written body of a single non-empty chunk: its frame, then the sentinel's. */
  lemma BodyOfOne(c: string)
    requires c != []
    ensures EventStream.Body([c]) == EventStream.Frame(c) + EventStream.Frame(EventStream.Done)
  {
    assert [c][1..] == [];
    assert EventStream.BodyWith(EventStream.Frame, []) == EventStream.Frame(EventStream.Done);
    assert EventStream.BodyWith(EventStream.Frame, [c]) == EventStream.Frame(c) + EventStream.BodyWith(EventStream.Frame, []);
  }

  lemma ApologyIsNonEmpty()
    ensures Streaming.Apology != []
  {
    assert Streaming.Apology[0] == 'I';
  }

  /** What the client of `/chat` as written reads: the apology, then the
      sentinel, whatever the session and the message. */
  lemma ChatAsWrittenReadBack(
    db: Db, req: ChatRequest, prompt: string, complete: seq<ApiMessage> -> Streaming.Upstream,
    start: int, now: int)
    requires SessionStore.Valid(db)
    requires SessionStore.HasSession(db, req.sessionId)
    ensures EventStream.Decode(ChatAsWritten(db, req, prompt, complete, start, now).body) == [Streaming.Apology, EventStream.Done]
    ensures ChatAsWritten(db, req, prompt, complete, start, now).db == db
  {
    var r := ChatAsWritten(db, req, prompt, complete, start, now);
    var chunks := [Streaming.Apology];
    ApologyIsNonEmpty();
    BodyOfOne(Streaming.Apology);
    assert r.body == EventStream.Body(chunks);
    ApologyIsOneLine();
    EventStream.SingleLineFramingAgrees(chunks);
    ApologyHasNoCarriageReturn();
    EventStream.FramedDecode(chunks);
    assert chunks[1..] == [];
    assert NonEmpty(chunks) == chunks;
  }

  lemma ApologyIsOneLine()
    ensures EventStream.SingleLine(Streaming.Apology)
  {
    var a, b, c, d := "I apologize, but I'm ", "having trouble processing", " your request right now.", " Could you please try again?";
    assert EventStream.SingleLine(a) && EventStream.SingleLine(b);
    assert EventStream.SingleLine(c) && EventStream.SingleLine(d);
    SingleLineAppend(a, b);
    SingleLineAppend(a + b, c);
    SingleLineAppend(a + b + c, d);
  }

  lemma SingleLineAppend(a: string, b: string)
    requires EventStream.SingleLine(a) && EventStream.SingleLine(b)
    ensures EventStream.SingleLine(a + b)
  {
    forall k | |a| <= k < |a + b|
      ensures (a + b)[k] == b[k - |a|]
    {
    }
  }

  /** What the client of `/chat` reads, with the line-by-line framing of
      `Chat`. The request's message is not passed on
      by the generator, so it is neither sent nor stored. When the upstream text
      has no carriage returns, the client reads it whole: on success the events
      concatenate to the text and the sentinel, and the session history gains
      the reply alone; on an upstream error the sentinel is preceded by the
      apology, the earlier events are a prefix of the text, and nothing is saved. */
  lemma ChatReadBack(
    db: Db, req: ChatRequest, prompt: string, complete: seq<ApiMessage> -> Streaming.Upstream,
    start: int, now: int)
    requires SessionStore.Valid(db)
    requires SessionStore.HasSession(db, req.sessionId)
    ensures var r := Chat(db, req, prompt, complete, start, now);
            var events := EventStream.Decode(r.body);
            var up := complete(RequestFor(db, req.sessionId, prompt));
            var text := Streaming.Contents(up.fragments);
            EventStream.NoCarriageReturn(text) ==>
              && |events| >= 1 && events[|events| - 1] == EventStream.Done
              && (!up.raises ==> Concat(events) == text + EventStream.Done)
              && (!up.raises ==>
                    SessionStore.GetSession(r.db, req.sessionId).value.history ==
                      Some(Streaming.CommitReply(SessionStore.GetSession(db, req.sessionId).value.history.value, text, now)))
              && (up.raises ==> r.db == db)
              && (up.raises ==>
                    |events| >= 2 && events[|events| - 2] == Streaming.Apology
                    && var sent := Concat(events[..|events| - 2]);
                       |sent| <= |text| && text[..|sent|] == sent)
  {
    var session := SessionStore.GetSession(db, req.sessionId).value;
    var g := Streaming.GenerateResponse(db, session, prompt, complete, start, now);
    assert Streaming.Heal(session) == session;
    assert g.request.value == RequestFor(db, req.sessionId, prompt);
    var r := Chat(db, req, prompt, complete, start, now);
    assert r == EventStreamReply(EventStream.FramedBody(g.chunks), g.db);
    var up := complete(g.request.value);
    ChunksReadBack(g.chunks, Streaming.Contents(up.fragments), up.raises);
  }

  lemma ApologyHasNoCarriageReturn()
    ensures EventStream.NoCarriageReturn(Streaming.Apology)
  {
    var a, b, c, d := "I apologize, but I'm ", "having trouble processing", " your request right now.", " Could you please try again?";
    assert EventStream.NoCarriageReturn(a) && EventStream.NoCarriageReturn(b);
    assert EventStream.NoCarriageReturn(c) && EventStream.NoCarriageReturn(d);
    EventStream.NoCarriageReturnAppend(a, b);
    EventStream.NoCarriageReturnAppend(a + b, c);
    EventStream.NoCarriageReturnAppend(a + b + c, d);
  }

  /** What a client reads from the chunks of one generation, framed line by
      line, as line 56 evidently intends. */
  lemma ChunksReadBack(chunks: seq<string>, text: string, raises: bool)
    requires !raises ==> Concat(chunks) == text
    requires raises ==> |chunks| >= 1 && chunks[|chunks| - 1] == Streaming.Apology
    requires raises ==> var sent := Concat(chunks[..|chunks| - 1]); |sent| <= |text| && text[..|sent|] == sent
    ensures var events := EventStream.Decode(EventStream.FramedBody(chunks));
            EventStream.NoCarriageReturn(text) ==>
            && |events| >= 1 && events[|events| - 1] == EventStream.Done
            && (!raises ==> Concat(events) == text + EventStream.Done)
            && (raises ==>
                  |events| >= 2 && events[|events| - 2] == Streaming.Apology
                  && var sent := Concat(events[..|events| - 2]);
                     |sent| <= |text| && text[..|sent|] == sent)
  {
    if !EventStream.NoCarriageReturn(text) {
    } else if !raises {
      EventStream.PiecesHaveNoCarriageReturn(chunks);
      EventStream.FramedDecode(chunks);
      var ne := NonEmpty(chunks);
      ConcatAppend(ne, [EventStream.Done]);
      assert Concat([EventStream.Done]) == EventStream.Done;
    } else {
      var before := chunks[..|chunks| - 1];
      var sent := Concat(before);
      assert EventStream.NoCarriageReturn(sent) by {
        forall j | 0 <= j < |sent|
          ensures sent[j] == text[j]
        {
        }
      }
      ApologyHasNoCarriageReturn();
      EventStream.PiecesHaveNoCarriageReturn(before);
      assert chunks == before + [Streaming.Apology];
      forall k | 0 <= k < |chunks|
        ensures EventStream.NoCarriageReturn(chunks[k])
      {
        if k < |before| {
          assert chunks[k] == before[k];
        }
      }
      EventStream.FramedDecode(chunks);
      var ne := NonEmpty(chunks);
      NonEmptySnoc(before, Streaming.Apology);
      var events := ne + [EventStream.Done];
      assert events[..|events| - 2] == NonEmpty(before);
    }
  }

  /** Dropping empty chunks commutes with appending a non-empty one. */
  lemma {:induction false} NonEmptySnoc(chunks: seq<string>, c: string)
    requires c != []
    ensures NonEmpty(chunks + [c]) == NonEmpty(chunks) + [c]
    decreases |chunks|
  {
    if chunks != [] {
      assert (chunks + [c])[1..] == chunks[1..] + [c];
      NonEmptySnoc(chunks[1..], c);
    } else {
      assert [c][1..] == [];
    }
  }

  // ------------------------------------------------------ /start-session

  /** `ChatResponse`: the bot's message and the session id. */
  datatype ChatResponse = ChatResponse(botMessage: string, sessionId: string)

  /** The answer of `/start-session`, with the database the call leaves. */
  datatype SessionReply =
    | Created(response: ChatResponse, db: Db)
    | ServerError(status: nat, detail: string, db: Db)

  /** `request.get("user_id") if request else None` on the optional JSON body;
      a JSON `null` value is `None`. */
  function RequestedUser(request: Option<map<string, Option<string>>>): Option<string> {
    match request
    case None => None
    case Some(body) => if body == map[] || "user_id" !in body then None else body["user_id"]
  }

  const StartFailed: string := "Failed to start chat session"

  /** `start_session(request)` as written: `start_chat` runs, then building
      `ChatResponse(message=..., session_id=...)` fails validation, since the
      model's field is `bot_message`; the handler turns that into a 500. */
  function StartSessionAsWritten(
    db: Db, request: Option<map<string, Option<string>>>, freshId: string, now: int): (r: SessionReply)
    requires SessionStore.Valid(db)
    ensures r.ServerError? && r.status == 500 && r.detail == StartFailed
    ensures SessionStore.Valid(r.db)
    ensures SessionStore.GetSessionByUser(db, RequestedUser(request)).None? && !SessionStore.HasSession(db, freshId) ==>
              |r.db.sessions| == |db.sessions| + 1 && SessionStore.HasSession(r.db, freshId)
  {
    var c := ChatSessions.StartChatAsWritten(db, RequestedUser(request), freshId, now);
    ServerError(500, StartFailed, c.db)
  }

  /** `start_session(request)` with the response built as `ChatResponse`
      declares it: the greeting and the started session's id; a failing
      `start_chat` is a 500. */
  function StartSession(
    db: Db, request: Option<map<string, Option<string>>>, freshId: string, now: int): (r: SessionReply)
    requires SessionStore.Valid(db)
    ensures SessionStore.Valid(r.db)
    ensures r.ServerError? ==> r.status == 500 && r.detail == StartFailed
    ensures r.Created? ==> r.response.botMessage == ChatSessions.Greeting
    ensures r.Created? ==> ChatSessions.GetChatHistory(r.db, r.response.sessionId).Ok?
    ensures var owner := RequestedUser(request);
            SessionStore.GetSessionByUser(db, owner).Some? ==>
              r.Created? && r.response.sessionId == SessionStore.GetSessionByUser(db, owner).value.id
    ensures var owner := RequestedUser(request);
            SessionStore.GetSessionByUser(db, owner).None? ==>
              (r.Created? <==> !SessionStore.HasSession(db, freshId))
              && (r.Created? ==> r.response.sessionId == freshId && SessionStore.HasSession(r.db, freshId))
  {
    var c := ChatSessions.StartChat(db, RequestedUser(request), freshId, now);
    match c.out
    case Ok(started) => Created(ChatResponse(started.message, started.sessionId), c.db)
    case Err(_) => ServerError(500, StartFailed, c.db)
  }

  /** A first visit as written answers 500 although a session was created for
      it, whereas the corrected endpoint answers with that session and the
      greeting. */
  lemma StartSessionFailsAfterStart(db: Db, freshId: string, now: int)
    requires SessionStore.Valid(db)
    requires SessionStore.GetSessionByUser(db, None).None?
    requires !SessionStore.HasSession(db, freshId)
    ensures StartSessionAsWritten(db, None, freshId, now).ServerError?
    ensures SessionStore.HasSession(StartSessionAsWritten(db, None, freshId, now).db, freshId)
    ensures StartSession(db, None, freshId, now) ==
              Created(ChatResponse(ChatSessions.Greeting, freshId), StartSession(db, None, freshId, now).db)
  {
  }
}
