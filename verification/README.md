# Fragrance chatbot backend — a Dafny model of its core

This project models the logic at the centre of a FastAPI/SQLAlchemy chat
backend for a fragrance consultant ("Lila"). The backend streams replies from
a language model to the browser, keeps chat sessions and their message lists
in a database, and builds a user profile (scent, style and personality
preferences) from what the user says. Every external call is a parameter of
the model: the completion service, the profile-extraction call, the image
analyser, the uuid generator and the clock. Time is an integer number of
milliseconds.

The Dafny modules follow the program's files:

| module | file | what it holds |
|---|---|---|
| `Wrappers`, `Text`, `Table` | — | `Option`/`Result`; Python's `lower`, `strip`, `in`, `count`, `join` and `list(set(...))`; keyed tables of rows |
| `Conversation` | app/core/utils.py | messages, `format_conversation_history`, and what it does when handed the wrapper dict |
| `Models` | app/models/models.py | the `Session` record and `to_dict`, the rows of the other tables, the whole store `Db` |
| `SessionStore` | app/services/session.py | create, lookup by id and by owner, save, the 24-hour expiry sweep and one tick of the cleanup loop |
| `SessionRecords` | app/services/database.py | the `DBSession` upsert, lookups and delete |
| `Streaming` | app/core/ai/chat.py | the buffer/flush loop, the trailing flush, the duplicate-suppressing commit, the apology |
| `EventStream` | app/api/v1/chat.py | the `data:` framing of chunks and a client reading the stream, following sections 9.2.5 and 9.2.6 of the WHATWG HTML Living Standard |
| `ChatApi` | app/api/v1/chat.py | the `/chat` and `/start-session` endpoints |
| `ChatSessions` | app/services/chat.py | `start_chat`, `get_chat_history`, `add_message`, `get_user_chat`, `process_message` |
| `Profiles` | app/services/profile_service.py, app/services/user.py | users, profiles, and the merges of scent, style and personality rows |
| `Extraction` | app/services/openai_profile_extraction.py | `_clean_extracted_data`, the defaults, the fallback on any error |
| `Phrases` | app/services/profile_extraction.py | phrase splitting, de-duplication, the trait filter |
| `ChatAnalysis` | app/services/chat_analysis_service.py | the extraction trigger, keyword counting, the primary trait, the section dispatch |
| `ChatService` | app/services/chat_service.py | the `chat_history` table, the system message, the completion request, `process_message` |

Where the code and its documentation disagree, the model follows the code.
These are the places where that matters:

- `format_conversation_history` is called with the wrapper dict `{"messages": [...]}`
  at app/core/ai/chat.py:32. Iterating a dict yields its keys, so the formatter
  raises, and `generate_response` only ever yields the apology. See Findings.
- `StylePreferences` declares `style_type`, but the profile service reads and
  writes `clothing_style` and `all_styles`. The rows carry the fields the
  service uses. `to_dict` still reports only `style_type`, so the clothing style
  in the system message is always "unknown". As written, the declarative
  constructor `StylePreferencesModel(clothing_style=..., all_styles=...)`
  (app/services/profile_service.py:190-196) raises `TypeError`, and
  `existing_prefs.all_styles` (line 183) raises `AttributeError`. So
  `create_style_preferences` always fails, and `_process_extracted_data`
  (app/services/chat_analysis_service.py:57-99) never gets past the style step:
  its `try` logs the error and the traits are not saved. The model assumes the
  columns exist.
- app/models/schemas.py declares only `StartSessionRequest`,
  `StartSessionResponse`, `ChatRequest`, `ChatResponse` and `SessionContext`.
  The other names imported from it do not exist. These are `UserCreate`,
  `UserProfileCreate`, `ScentPreferencesCreate`, `StylePreferencesCreate` and
  `PersonalityTraitsCreate` (app/services/profile_service.py:11-14,
  app/services/user.py:6, app/services/chat_analysis_service.py:3-6),
  `ChatMessage` and `ChatSession` (app/services/chat.py:15), and
  `ImageUploadRequest` (app/api/v1/chat.py:3). So, as written, these modules
  cannot be imported: app/services/profile_service.py,
  app/services/user.py, app/services/chat_analysis_service.py,
  app/services/chat.py and app/api/v1/chat.py. The model assumes the names
  resolve, to records with the fields the services read.
- app/main.py:34 calls `cleanup_expired_sessions()` without its `db` argument.
  That raises `TypeError` in the startup handler. `run_cleanup_task` is
  never scheduled, because nothing else calls it.
- The `users` table has no `name` or `email` columns. `UserService.update_user`
  sets them as plain attributes. It then reads both back, which raises unless
  both arguments were given.
- `ChatAnalysisService.__init__` takes two arguments, but `ChatService.__init__`
  (app/services/chat_service.py:15) passes one. app/models/database.py does not
  define the `DBChatHistory` that app/services/chat_service.py imports. The
  model of `process_message` assumes both resolve, so that its logic can be stated.
- `ChatRequest` has no `image_data` field, so `/chat` always streams.
- `generate_response` catches every exception itself. As a result the
  `data: Error: ...` frame of the endpoint is never sent.
- `message_buffer` is never filled and `_should_extract_profile` is never
  called. They are modelled as functions of a buffer.
- `truncate_conversation_history` is imported at app/services/chat.py:8 from
  app/core/utils.py, which does not define it. That import raises `ImportError`.
  app/api/v1/chat.py:4 imports app/services/chat.py and app/main.py:7 imports
  the router, so as written the application does not load at all. The model
  assumes the import resolves: `truncate` is a parameter whose result replaces
  the stored list.
- `to_dict` hands out the row's own `conversation_history` object when the
  column is not null. `start_chat`, `add_message`, `process_message` and
  `generate_response` append to it in place and give it back to `save_session`,
  which assigns that same object. The `JSON` column does not track mutation, so
  only `updated_at` is written and the edit is lost. See Findings. Members
  without "AsWritten" in their name model the save as intended: the list handed
  back is stored.
- `/start-session` builds `ChatResponse(message=..., session_id=...)`, but
  `ChatResponse` requires `bot_message`. Validation fails after `start_chat` has
  run, and the handler answers 500. See Findings.
- `get_system_prompt` returns a string read from a file at start-up. It is a
  parameter (`prompt`).

## Model

| member | source | states |
|---|---|---|
| Models.NewSession | app/models/models.py:12-16 | a new session row has the given id and owner, the column default `{"messages": []}` as history, and equal creation and update times |
| Models.ToDict | app/models/models.py:18-26 | `to_dict` copies id, owner and both times; a null history is read as `{"messages": []}` and a stored one is returned unchanged |
| Conversation.Format | app/core/utils.py:64-72 | the formatted list has the input's length, and entry i has exactly the role and content of message i |
| Conversation.FormatAppend | app/core/utils.py:66-71 | formatting works entry by entry: formatting a concatenation is the concatenation of the formatted parts |
| Conversation.FormatDropsMetadata | app/core/utils.py:68-71 | two histories that agree on roles and contents format identically, so timestamps and image analyses are dropped |
| Conversation.Iterate | app/core/ai/chat.py:32 | iterating the wrapper dict yields only its key "messages"; iterating a list yields its messages in order |
| Conversation.FormatItems | app/core/utils.py:67-71 | the loop succeeds exactly when every iterated value is a message dict, and then keeps the count |
| Conversation.FormatListArgument | app/core/utils.py:64-72 | handed the message list, the formatter succeeds and agrees with the per-entry conversion |
| Conversation.FormatWrapperArgumentFails | app/core/ai/chat.py:30-32 | handed the wrapper dict, the formatter raises, whatever the messages are |
| Conversation.LastN | app/services/chat_service.py:124 | `history[-n:]` keeps min(n, length) entries, the most recent ones, in their original order |
| SessionStore.EnsureUser | app/services/session.py:22-27 | a truthy user id has a user row afterwards; a row is inserted only when none existed; no other user or session changes |
| SessionStore.CreateSession | app/services/session.py:18-42 | succeeds exactly when the generated id is unused; the new row has an empty message list and equal times and is appended; the user row is committed even when the insert fails; ids stay unique |
| SessionStore.GetSession | app/services/session.py:44-53 | `None` exactly when no session has the id; otherwise the `to_dict` of a stored row with that id |
| SessionStore.GetSessionByUser | app/services/session.py:55-64 | `None` exactly when no row has that owner; otherwise the dict of a row owned by it |
| SessionStore.SaveSession | app/services/session.py:66-88 | an absent id inserts a row with the given history (default empty) and both times now; an existing row gets the history and `updated_at` now and keeps id, owner and creation time; every other row and table is unchanged |
| SessionStore.SaveThenGet | app/services/session.py:66-88 | after a save, looking the id up yields the saved history and update time |
| SessionStore.SaveInPlace | app/services/session.py:82-87 | handed back the history object a lookup returned, the save writes only `updated_at`: the stored session is unchanged apart from its update time; a session whose column was null, or a new id, stores the list handed back |
| SessionStore.InPlaceEditLost | app/services/session.py:82 | whatever new list an in-place save is handed, the stored history stays what it was, whereas the intended save stores the new list |
| SessionStore.CleanupExpired | app/services/session.py:94-105 | when the table exists, exactly the sessions updated strictly before now minus 24 h are deleted; otherwise nothing changes |
| SessionStore.CleanupTick | app/services/session.py:107-118 | one loop iteration sweeps, or swallows a failing sweep and leaves the store as it was; either way the next tick is one hour later |
| SessionStore.SweepScenario | app/services/session.py:98-99 | a session idle for 25 hours is deleted by the sweep and one idle for 1 hour survives |
| SessionRecords.SaveRecord | app/services/database.py:12-33 | fails exactly when the last-interaction time does not parse; an existing id is updated in place (history, time, stage; owner kept); an absent id appends a record built from the input; ids stay unique |
| SessionRecords.GetById | app/services/database.py:35-37 | `None` exactly when no record has the id, otherwise a stored record with that id |
| SessionRecords.GetByUserId | app/services/database.py:39-41 | `None` exactly when no record has that owner, otherwise a stored record owned by it |
| SessionRecords.DeleteRecord | app/services/database.py:43-50 | returns true exactly when a record had the id; afterwards the records are those before minus that id; false leaves the table unchanged |
| SessionRecords.SaveThenGetRecord | app/services/database.py:12-37 | a save followed by a lookup by id returns the saved record |
| SessionRecords.DeleteThenGetRecord | app/services/database.py:35-50 | after a delete no record with the id is found |
| Streaming.Accept | app/core/ai/chat.py:54-68 | a `None` delta changes nothing; a flush happens exactly when the grown buffer has at least 3 characters or 100 ms passed, and then empties the buffer and takes the fragment's time; text is neither lost nor duplicated; after a fragment the buffer holds at most 2 characters |
| Streaming.Run | app/core/ai/chat.py:54-68 | over the whole loop, `full_response` plus the buffer is the upstream text, the chunks concatenate to `full_response`, and every chunk is shorter than 3 plus the longest fragment |
| Streaming.Finish | app/core/ai/chat.py:71-73 | the leftover buffer is emitted as one more chunk exactly when it is non-empty |
| Streaming.Pace | app/core/ai/chat.py:50-73 | on the success path the yielded chunks concatenate to the upstream text, which is `full_response` |
| Streaming.NonEmptyChunks | app/core/ai/chat.py:61-73 | when no fragment is empty, no yielded chunk is empty |
| Streaming.CommitReply | app/core/ai/chat.py:76-86 | the reply is appended exactly when the list does not already end with an assistant message of that content; earlier entries are kept; the list grows by at most one and ends with the reply |
| Streaming.CommitIdempotent | app/core/ai/chat.py:78 | committing the same reply twice in succession stores it once |
| Streaming.Heal | app/core/ai/chat.py:25-26 | a missing history becomes an empty message list; a present one is left alone |
| Streaming.Stream | app/core/ai/chat.py:39-98 | with the save corrected (Findings row 6): when the upstream raises, the chunks already sent (a prefix of the text) are followed by exactly one apology, with no append and no save; when it completes, the chunks concatenate to the text, the reply is committed once and the session saved and readable back |
| Streaming.GenerateResponseAsWritten | app/core/ai/chat.py:21-98 | as written, every call yields the apology alone, sends no request and leaves the store unchanged |
| Streaming.GenerateResponse | app/core/ai/chat.py:21-98 | with the list handed to the formatter and the save corrected (Findings rows 1 and 6), the request is the system prompt then the formatted healed history, and the outcome is that of the stream on its answer |
| EventStream.FramedBodyRoundTrip | app/api/v1/chat.py:52-57 | a client reading the line-by-line framed body gets the non-empty chunks in order, then the `[DONE]` sentinel |
| EventStream.FramedDecode | app/api/v1/chat.py:54-57 | for chunks without carriage returns, decoding the framed body gives back exactly the non-empty chunks and the sentinel last |
| EventStream.FramedBodyEmpty | app/api/v1/chat.py:57 | a stream with no chunks carries only the sentinel |
| EventStream.ReadFramedChunk | app/api/v1/chat.py:55-56 | one chunk framed line by line is read back whole as one event |
| EventStream.SingleLineFramingAgrees | app/api/v1/chat.py:55-57 | for single-line chunks the body as written and the line-by-line body are the same text |
| EventStream.MultiLineChunkIsCut | app/api/v1/chat.py:56 | as written, the chunk "a\nb" reaches the client as "a" followed by the sentinel: the second line is lost |
| ChatApi.Chat | app/api/v1/chat.py:29-78 | with the generator and the framing corrected (Findings rows 1 and 5): a 404 "Session not found" exactly when the session is unknown; otherwise an event stream, and the store stays valid |
| ChatApi.ChatAsWritten | app/api/v1/chat.py:29-78 | as written, a 404 exactly for an unknown session; otherwise the body is the apology's frame followed by the sentinel's, and the store is unchanged |
| ChatApi.BodyOfOne | app/api/v1/chat.py:55-57 | the written body of one non-empty chunk is its `data:` frame followed by the sentinel's |
| ChatApi.ChatAsWrittenReadBack | app/api/v1/chat.py:52-61 | as written, a client reading a known session's stream gets the apology and then the sentinel, and nothing is saved |
| ChatApi.ChatReadBack | app/api/v1/chat.py:52-71 | with the generator, the framing and the save corrected (Findings rows 1, 5 and 6): for upstream text without carriage returns the client reads the text whole and then the sentinel, and the history gains the reply once; on an upstream error it reads a prefix of the text, the apology and the sentinel, and nothing is saved |
| ChatApi.ChunksReadBack | app/api/v1/chat.py:52-61 | with the framing corrected (Findings row 5): the same read-back, stated for any chunks that concatenate to the text or end in the apology |
| ChatApi.NonEmptySnoc | app/api/v1/chat.py:55 | skipping empty chunks commutes with appending a non-empty one |
| ChatApi.StartSessionAsWritten | app/api/v1/chat.py:13-27 | as written, every call answers 500 "Failed to start chat session"; the store stays valid, and a first visit has created its session all the same |
| ChatApi.StartSession | app/api/v1/chat.py:13-27 | with the response built as declared: an owner's existing session is answered with its id; otherwise the answer succeeds exactly when the generated id is unused and names it; a success carries the greeting and a readable session; a failing start is a 500 |
| ChatApi.StartSessionFailsAfterStart | app/api/v1/chat.py:19-27 | a first anonymous visit as written gets a 500 although its session was created; the corrected endpoint answers with that session and the greeting |
| ChatSessions.Greet | app/services/chat.py:48-58 | with the save corrected (Findings row 6): the greeting is appended after the session's messages and saved; the result names the session and the greeting |
| ChatSessions.StartChat | app/services/chat.py:41-66 | with the save corrected (Findings row 6): an owner's existing first session is reused and greeted; otherwise a session is created and greeted; a failing create is re-raised; the store stays valid |
| ChatSessions.GreetAsWritten | app/services/chat.py:51-58 | as written, the answer names the session and the greeting; a session with a stored history keeps it, with only the update time changed; one whose column was null stores its messages followed by the greeting |
| ChatSessions.StartChatAsWritten | app/services/chat.py:41-66 | as written, the answer is that of the corrected start, but an owner's session with a stored history keeps it, and a newly created session keeps its empty list |
| ChatSessions.FirstGreetingLost | app/services/chat.py:45-58 | for a first chat, the code as written stores no greeting, whereas the corrected save stores the greeting as the only message |
| ChatSessions.SaveKeepsOwnedIndex | app/services/session.py:66-88 | saving an existing session never changes which session is an owner's first |
| ChatSessions.OwnedIsFound | app/services/chat.py:44 | the owner's first session is what both the owner lookup and the id lookup return |
| ChatSessions.GreetAgain | app/services/chat.py:44-58 | with the save corrected (Findings row 6): starting a chat again for an owner with a session greets that same session, whose messages are kept and end in the greeting |
| ChatSessions.StartedIsOwned | app/services/chat.py:44-58 | with the save corrected (Findings row 6): after a successful start the started session is the owner's first and its history ends with the greeting |
| ChatSessions.StartedExisting | app/services/chat.py:44-58 | with the save corrected (Findings row 6): the same, for an owner who already had a session |
| ChatSessions.StartedFresh | app/services/chat.py:45-58 | with the save corrected (Findings row 6): the same, for an owner without a session |
| ChatSessions.GetChatHistory | app/services/chat.py:77-86 | "Session not found" exactly for an unknown id, otherwise the stored messages |
| ChatSessions.AddMessage | app/services/chat.py:88-117 | with the save corrected (Findings row 6): false and no change for an unknown id; otherwise exactly one message with the role and content is appended and every other session is kept |
| ChatSessions.AddMessageAsWritten | app/services/chat.py:88-117 | as written, false and no change for an unknown id; a session with a stored history keeps it; one whose column was null stores the new message alone |
| ChatSessions.HealAndSave | app/services/chat.py:126-134 | a missing history is replaced by an empty list and saved; a present one writes nothing |
| ChatSessions.GetUserChat | app/services/chat.py:119-139 | returns the owner's first session or `None`, and never writes, since `to_dict` already fills a missing history |
| ChatSessions.AnswerImage | app/services/chat.py:156-189 | with the save corrected (Findings row 6): after the user's message exactly one assistant entry is stored: the analyser's reply, or the fixed failure message; no completion is requested |
| ChatSessions.AnswerText | app/services/chat.py:191-215 | with the generator and the save corrected (Findings rows 1 and 6): the truncated history goes to the generator; the reply is the upstream text or, on an upstream error, a prefix of it followed by the apology; the stored history is the truncated one with the reply committed once, or, with the second append kept, followed by the reply once more |
| ChatSessions.TextKeepsPrepared | app/services/chat.py:191-210 | the stored history starts with the truncated one, and is longer unless the duplicate check suppressed the reply |
| ChatSessions.ProcessWith | app/services/chat.py:141-219 | with the generator and the save corrected (Findings rows 1 and 6): "Session not found" and no change exactly for an unknown id; on the image path the stored history is the old one, the user's message and exactly one reply; on the text path it starts with the truncated list ending in the user's message, followed by the reply unless suppressed as a duplicate |
| ChatSessions.ProcessMessageAsWritten | app/services/chat.py:197-210 | with the generator and the save corrected (Findings rows 1 and 6) but the second append kept, a completed reply ends the stored history twice |
| ChatSessions.TwiceAtEnd | app/services/chat.py:203-207 | committing a reply and then appending it leaves two identical assistant entries at the end |
| ChatSessions.ProcessMessage | app/services/chat.py:141-219 | with the generator and the save corrected (Findings rows 1 and 6) and the second append replaced by the duplicate-suppressing commit: the reply (the upstream text, or the streamed prefix and the apology on an upstream error) is stored once after the truncated history; an image is answered by its analysis or the failure message |
| Profiles.CreateUser | app/services/profile_service.py:21-45 | an existing user is returned without inserting; otherwise exactly one row with that id is added; nothing else changes |
| Profiles.GetUser | app/services/user.py:40-53 | `None` exactly for an unknown id, otherwise the stored row |
| Profiles.UpdateUser | app/services/user.py:55-81 | `None` and no change for an unknown id; for a known one the call raises unless both name and email are given, since neither is a column |
| Profiles.CreateUserIdempotent | app/services/user.py:16-34 | creating the same user twice is the same as creating it once |
| Profiles.FirstOwned | app/services/profile_service.py:259 | `.first()` of a filter: the earliest row owned by the user, or none when no row is |
| Profiles.NewRow | app/services/profile_service.py:67-72 | a new row is owned by the user, holds the given fields and has both times set |
| Profiles.SetAttrs | app/services/profile_service.py:263-267 | with `hasattr` taken to hold for the columns only: exactly the keys that are columns are set, every other attribute is kept, and `updated_at` is now |
| Profiles.UpdateFirstOwned | app/services/profile_service.py:259-267 | no change when the user has no row; otherwise only the first owned row is updated |
| Profiles.CreateUserProfile | app/services/profile_service.py:58-82 | "User not found" and no change for an unknown user; otherwise one row with the given age, gender and location is appended |
| Profiles.UpdateUserProfile | app/services/profile_service.py:256-274 | `None` and no change when the user has no profile; otherwise only the column keys are set on the first one |
| Profiles.FirstOwnedRow | app/services/profile_service.py:93-96 | the user's first row of a table, or `None` when the user has none |
| Profiles.GetUserProfile | app/services/profile_service.py:84-107 | `None` exactly for an unknown user; otherwise the user, the first profile and traits rows, and the stored scent and style rows, each `None` exactly when the table has none for the user |
| Profiles.GetScentPreferences | app/services/profile_service.py:154-165 | the stored scent row, or `None` exactly when there is none |
| Profiles.CreateScentPreferences | app/services/profile_service.py:109-152 | "User not found" and no change for an unknown user; a new row holds exactly the input; an existing one gets the set union of each list and the new intensity |
| Profiles.ScentMergeIdempotent | app/services/profile_service.py:122-128 | merging the same preferences twice gives the same sets and intensity as merging them once |
| Profiles.ScentMergeCommutes | app/services/profile_service.py:124-126 | merging two inputs in either order gives the same sets |
| Profiles.SetsAfterMerge | app/services/profile_service.py:122-148 | the merged sets are those stored before (none for a new row) joined with the input's |
| Profiles.ScentMergeMonotone | app/services/profile_service.py:124-126 | a merge never drops a listed scent |
| Profiles.MergeField | app/services/profile_service.py:286-299 | an absent key keeps the list; a present one (a null counting as empty) gives the duplicate-free union |
| Profiles.UpdateScentPreferences | app/services/profile_service.py:276-311 | `None` and no change without a row; otherwise only the keys present change, lists by union, intensity by overwrite |
| Profiles.GetStylePreferences | app/services/profile_service.py:208-219 | the stored style row, or `None` exactly when there is none |
| Profiles.CreateStylePreferences | app/services/profile_service.py:167-206 | "User not found" for an unknown user; the clothing style is overwritten, possibly with `None`; the styles are unioned |
| Profiles.StyleDefaultResetsClothing | app/services/profile_service.py:180-184 | merging the empty default after a real style resets the clothing style to `None` but keeps the styles |
| Profiles.UpdateStylePreferences | app/services/profile_service.py:313-338 | `None` and no change without a row; otherwise only the keys present change |
| Profiles.CreatePersonalityTraits | app/services/profile_service.py:221-243 | "User not found" for an unknown user; otherwise a new row with the traits is always appended, never merged |
| Profiles.GetPersonalityTraits | app/services/profile_service.py:245-254 | the user's first traits row, or `None` exactly when the user has none |
| Profiles.TraitsNeverMerge | app/services/profile_service.py:229-239 | a second creation adds a second row, and the lookup keeps returning the first |
| Profiles.UpdatePersonalityTraits | app/services/profile_service.py:340-358 | `None` and no change when the user has no row; otherwise only the column keys are set on the first one |
| Extraction.CleanItem | app/services/openai_profile_extraction.py:101 | a cleaned entry is lower-case and carries no surrounding whitespace |
| Extraction.CleanList | app/services/openai_profile_extraction.py:101-103 | a missing list becomes empty, a null list raises, and otherwise entry i is entry i cleaned, so the length is kept |
| Extraction.CleanIntensity | app/services/openai_profile_extraction.py:104 | a missing or empty intensity becomes "medium"; otherwise it is lower-cased but not stripped |
| Extraction.CleanOptional | app/services/openai_profile_extraction.py:108 | `None` exactly when the cleaned text is empty, otherwise the cleaned text |
| Extraction.CleanScores | app/services/openai_profile_extraction.py:115 | a missing confidence map becomes empty; any other value passes through unchanged |
| Extraction.CleanScent | app/services/openai_profile_extraction.py:99-104 | fails exactly when a list is null; otherwise every list is cleaned and the intensity normalised |
| Extraction.CleanStyle | app/services/openai_profile_extraction.py:106-109 | fails exactly when the style list is null; otherwise the clothing style and the list are cleaned |
| Extraction.CleanTraits | app/services/openai_profile_extraction.py:111-115 | fails exactly when the trait list is null; otherwise list, primary trait and scores are cleaned |
| Extraction.Fill | app/services/openai_profile_extraction.py:92-97 | an absent section is replaced by its default; a null one makes cleaning raise |
| Extraction.ScentSection | app/services/openai_profile_extraction.py:92-104 | an absent scent section cleans to the default one |
| Extraction.StyleSection | app/services/openai_profile_extraction.py:94-109 | an absent style section cleans to the default one |
| Extraction.TraitsSection | app/services/openai_profile_extraction.py:96-115 | an absent traits section cleans to the default one |
| Extraction.CleanExtractedData | app/services/openai_profile_extraction.py:89-117 | every section is present afterwards; each absent one is the default; the result is clean; a null section raises |
| Extraction.DefaultSectionsClean | app/services/openai_profile_extraction.py:127-146 | cleaning the default sections gives them back unchanged |
| Extraction.ExtractProfileData | app/services/openai_profile_extraction.py:74-87 | the result is always clean; a failing call, parse or clean gives the default profile |
| Extraction.CleanEntryFixed | app/services/openai_profile_extraction.py:101 | a clean entry is left unchanged by cleaning |
| Extraction.CleanListFixed | app/services/openai_profile_extraction.py:101-103 | a list of clean entries is left unchanged by cleaning |
| Extraction.CleaningIsIdempotent | app/services/openai_profile_extraction.py:99-117 | over ASCII, cleaning an already cleaned profile changes nothing |
| Extraction.ExtractionIsIdempotent | app/services/openai_profile_extraction.py:74-117 | cleaning what an extraction returned gives it back |
| Extraction.NullSectionGivesDefaults | app/services/openai_profile_extraction.py:84-87 | a section given as null makes the whole extraction fall back to the defaults |
| Text.Lower | app/services/profile_extraction.py:10 | lower-casing keeps the length and maps each character through the ASCII case map |
| Text.Strip | app/services/openai_profile_extraction.py:101 | the result is the infix `s[a..b]` with no whitespace at either end and only whitespace outside it |
| Text.Occurrences | app/services/chat_analysis_service.py:222 | `count` is zero exactly when the keyword does not occur; the counted occurrences fit in the text without overlapping |
| Text.CountIsAttained | app/services/chat_analysis_service.py:222 | the left-to-right scan finds `count` non-overlapping occurrences |
| Text.CountIsGreatest | app/services/chat_analysis_service.py:222 | no set of non-overlapping occurrences is larger than `count`, so `count` is the greatest number of them |
| Text.Dedup | app/services/profile_extraction.py:44-46 | `list(set(s))` holds each element of `s` once and nothing else |
| Text.UnionList | app/services/profile_service.py:124-126 | `list(set(a) \| set(b))` holds each element of either list once and nothing else |
| Text.StripLowerCommute | app/services/openai_profile_extraction.py:101 | lower-casing and stripping can be applied in either order |
| Text.CleanIdempotent | app/services/openai_profile_extraction.py:101 | applying `x.lower().strip()` twice gives the same as once |
| Phrases.SplitItems | app/services/profile_extraction.py:33 | `re.split(r",\|and", ...)` yields at least one piece, the first a prefix of the phrase, and no piece holds a comma or "and" |
| Phrases.SplitRoundTrip | app/services/profile_extraction.py:33 | splitting loses only the separators: putting them back between the pieces gives the phrase |
| Phrases.SplitInsideWord | app/services/profile_extraction.py:33 | the split cuts inside words: "sandalwood" becomes "s" and "alwood" |
| Phrases.NoSeparatorSplit | app/services/profile_extraction.py:33 | a phrase without a separator is one piece |
| Phrases.StripAll | app/services/profile_extraction.py:33 | every piece is stripped and the count is kept |
| Phrases.AllItems | app/services/profile_extraction.py:28-42 | the collected items are exactly the stripped pieces of the captured phrases |
| Phrases.Collect | app/services/profile_extraction.py:44-46 | the result has no duplicates and no empty strings, and holds exactly the non-empty pieces |
| Phrases.ExtractScentPreferences | app/services/profile_extraction.py:4-51 | both lists are duplicate-free and hold exactly the pieces of what the like and dislike patterns captured in the lower-cased message |
| Phrases.LikedAndDisliked | app/services/profile_extraction.py:28-51 | the two lists are computed independently, so a scent can be both liked and disliked |
| Phrases.ExtractStylePreferences | app/services/profile_extraction.py:53-60 | nothing unless the message contains "style is" (case-sensitive); never an empty item; otherwise exactly the pieces found |
| Phrases.FilterKeywords | app/services/profile_extraction.py:71-75 | the kept keywords are those found, in keyword order, without duplicates |
| Phrases.ExtractPersonalityTraitsAsWritten | app/services/profile_extraction.py:63-76 | as written, a trait is reported exactly when the message contains a backslash, "b", the trait, a backslash and "b", ignoring case |
| Phrases.NoBackslashNoTraits | app/services/profile_extraction.py:74 | a message without a backslash yields no trait at all |
| Phrases.ExtractPersonalityTraits | app/services/profile_extraction.py:63-76 | corrected: a trait is reported exactly when it occurs as a whole word, ignoring case, in keyword order |
| Phrases.CreativeMessage | app/services/profile_extraction.py:74 | "I am Creative" names the trait "creative": the corrected matcher finds it and the code as written does not |
| Phrases.CreativeMissedAsWritten | app/services/profile_extraction.py:74 | as written, "I am Creative" yields no trait |
| Phrases.CreativeIsWholeWord | app/services/profile_extraction.py:74 | "creative" is a whole word of the lower-cased "I am Creative" |
| ChatAnalysis.FindTrigger | app/services/chat_analysis_service.py:50-53 | the first phrase found in the text, or none exactly when no phrase occurs |
| ChatAnalysis.ShouldExtract | app/services/chat_analysis_service.py:39-55 | true with 5 or more buffered messages; false for an empty buffer; otherwise true exactly when the lower-cased last message contains one of the 15 trigger phrases |
| ChatAnalysis.OnlyLastMessageTriggers | app/services/chat_analysis_service.py:46-53 | below the buffer size only the last message matters |
| ChatAnalysis.Contents | app/services/chat_analysis_service.py:29 | the contents of the messages with the chosen roles, in order and nothing else |
| ChatAnalysis.ContentsAppend | app/services/chat_analysis_service.py:29 | selecting contents distributes over concatenation |
| ChatAnalysis.NoRoleNoContents | app/services/chat_analysis_service.py:29 | messages without a chosen role contribute nothing |
| ChatAnalysis.ProcessExtractedData | app/services/chat_analysis_service.py:57-101 | raises, leaving the store unchanged, exactly for an unknown user; otherwise the scent row is merged, the style row merged and one traits row added, with the fields copied |
| ChatAnalysis.AnalyzeChatMessages | app/services/chat_analysis_service.py:24-37 | never raises; users, sessions and chat rows are kept; an unknown user leaves the store unchanged; a known user gets the cleaned extraction of the user and system text written |
| ChatAnalysis.AssistantRepliesIgnored | app/services/chat_analysis_service.py:29 | adding an assistant reply to the messages does not change the analysis |
| ChatAnalysis.FailedExtractionResetsScalars | app/services/chat_analysis_service.py:24-37 | a failed extraction still writes the defaults: the lists survive, but the intensity returns to "medium" and the clothing style to `None` |
| ChatAnalysis.DefaultScentKeepsSets | app/services/chat_analysis_service.py:64-73 | writing the default scent section keeps the stored sets and sets the intensity to "medium" |
| ChatAnalysis.DefaultStyleKeepsStyles | app/services/chat_analysis_service.py:77-84 | writing the default style section keeps the styles and clears the clothing style |
| ChatAnalysis.CountKeywords | app/services/chat_analysis_service.py:220-222 | the count is zero exactly when no lower-cased keyword occurs in the lower-cased text |
| ChatAnalysis.CountKeywordsAppend | app/services/chat_analysis_service.py:222 | the count over two keyword lists is the sum of their counts |
| ChatAnalysis.Counts | app/services/chat_analysis_service.py:114-121 | one count per trait, in the fixed trait order |
| ChatAnalysis.FirstMax | app/services/chat_analysis_service.py:124 | `max` with a key picks the first position holding the largest count |
| ChatAnalysis.Positive | app/services/chat_analysis_service.py:127 | the traits with a positive count, in trait order |
| ChatAnalysis.ExtractPersonalityTraits | app/services/chat_analysis_service.py:103-130 | `None` exactly for no messages; otherwise the traits with a positive count in fixed order, and as primary trait the first with the largest count |
| ChatAnalysis.AnyLetterICounts | app/services/chat_analysis_service.py:115 | the keyword "I" is lower-cased, so any letter i in the user text counts as extroversion |
| ChatAnalysis.NoUserTextGivesExtroverted | app/services/chat_analysis_service.py:107-128 | without user messages no trait counts and the primary trait is "extroverted" |
| ChatAnalysis.AllZeroSummary | app/services/chat_analysis_service.py:124-127 | all counts zero give no traits and the first name as primary trait |
| ChatAnalysis.EmptyTextCountsNothing | app/services/chat_analysis_service.py:114-121 | an empty text counts zero for every trait |
| ChatAnalysis.UpdateScentPreferences | app/services/chat_analysis_service.py:252-271 | missing lists default to empty and a missing intensity to "medium", then the scent merge applies |
| ChatAnalysis.EmptyUpdateResetsIntensity | app/services/chat_analysis_service.py:258-264 | an empty dict keeps the stored lists but resets the intensity to "medium" |
| ChatService.OwnRows | app/services/chat_service.py:77-78 | the user's rows are exactly the stored rows with that user id |
| ChatService.OtherRows | app/services/chat_service.py:94 | the rows kept by a delete are exactly those of other users |
| ChatService.InsertByTime | app/services/chat_service.py:79 | inserting into a time-sorted list keeps it sorted and adds exactly that row |
| ChatService.SortByTime | app/services/chat_service.py:79 | `order_by(timestamp)` gives a time-sorted permutation of the rows |
| ChatService.HistoryRowsOf | app/services/chat_service.py:77-79 | the user's rows, each once, sorted by time |
| ChatService.GetChatHistory | app/services/chat_service.py:73-88 | one message per row of the user, oldest first, each with its row's role, content and time |
| ChatService.AsMessages | app/services/chat_service.py:81-88 | one message dict per row, in order |
| ChatService.ClearChatHistory | app/services/chat_service.py:90-95 | every row of the user goes and no other row does; the user's history is empty afterwards |
| ChatService.ClearKeepsOthers | app/services/chat_service.py:94 | clearing one user leaves another user's history exactly as it was |
| ChatService.OwnRowsOfOthers | app/services/chat_service.py:94 | the rows of another user are unaffected by deleting one user's rows |
| ChatService.Get | app/services/chat_service.py:160 | `.get` fails exactly on a value that is not a dict, and otherwise returns the value or the default |
| ChatService.JoinField | app/services/chat_service.py:164-166 | `", ".join` succeeds exactly on joinable values and joins a list of strings with ", " |
| ChatService.ProfileBlock | app/services/chat_service.py:159-161 | the profile lines render exactly when the context is a dict, and start with their two labels |
| ChatService.ScentBlock | app/services/chat_service.py:163-169 | the scent lines render exactly when the three lists are joinable, and start with their three labels |
| ChatService.StyleBlock | app/services/chat_service.py:171-174 | the style lines render exactly when the two lists are joinable, and start with their three labels |
| ChatService.TraitBlock | app/services/chat_service.py:176-178 | the personality lines render exactly when the traits are joinable, and start with their two labels |
| ChatService.Part | app/services/chat_service.py:159-178 | one `if ctx:` block renders exactly when its context is readable, and contributes no line for a falsy context |
| ChatService.ContextLines | app/services/chat_service.py:157-178 | the lines render exactly when every context is readable, in the fixed order profile (2), scent (3), style (3), personality (2), for the truthy contexts only |
| ChatService.PrepareSystemMessage | app/services/chat_service.py:147-185 | renders exactly when every context is readable; always the introduction first and the closing request last; the header and the lines appear exactly when some context is truthy |
| ChatService.PendingContextFails | app/services/chat_service.py:159-178 | a coroutine passed where a dict was meant makes the system message fail |
| ChatService.RequestMessages | app/services/chat_service.py:118-131 | the request is the system message, the last min(10, n) history entries (role and content) in order, and the user's message: at most 12 entries |
| ChatService.GenerateLlmResponse | app/services/chat_service.py:97-145 | never raises: a system message that cannot render or a failing call gives the apology; otherwise the completion of the request |
| ChatService.ProfileCtx | app/services/profile_service.py:84-104 | the profile context is absent exactly for an unknown user and is otherwise a truthy dict |
| ChatService.ScentCtx | app/models/models.py:93-104 | the scent context is absent exactly without a row and is otherwise a readable dict |
| ChatService.StyleCtx | app/models/models.py:119-127 | the style context is absent exactly without a row and is otherwise a readable dict |
| ChatService.TraitsCtx | app/models/models.py:142-150 | the personality context is absent exactly when the user has no traits row |
| ChatService.FirstOwnedKept | app/services/profile_service.py:248 | appending rows never changes which row is the user's first |
| ChatService.AnalysisKeepsTraitsListed | app/services/chat_analysis_service.py:88-96 | the analysis only appends traits rows that hold a list, so the user's first row keeps holding one |
| ChatService.StoredContextsReadable | app/services/chat_service.py:159-178 | contexts built from the store always render when the first traits row holds a list |
| ChatService.StoreReply | app/services/chat_service.py:56-67 | the reply is stored as one assistant row and returned; users and sessions are kept |
| ChatService.Analysed | app/services/chat_service.py:24-38 | the user's turn is stored as one row; the analysis then writes only profile tables; an unknown user only gains the row |
| ChatService.ProcessMessage | app/services/chat_service.py:18-71 | the chat table gains exactly the user's turn and then the reply, in that order; users and sessions are kept |
| ChatService.ProcessMessageAsWritten | app/services/chat_service.py:41-54 | as written, the reply is always the apology, stored after the user's turn |
| ChatService.RequestOf | app/services/chat_service.py:40-54 | the request ends with the user's message and has min(10, history length) + 2 entries |
| ChatService.CompletionIsReplied | app/services/chat_service.py:18-67 | with the getters awaited and the stored traits a list, the system message always renders and a successful completion of the request is the reply |

## Left out

- The completion, extraction and vision calls to OpenAI are parameters: `complete`, `extract`, the `Upstream` fragments and `ImageOutcome`. So are uuid generation (`freshId`, `userTurnId`, `replyId`) and the clock (`now`, fragment arrival times).
- The random pacing sleep in `generate_response`, `asyncio.sleep` and the endless cleanup loop are not modelled. One tick of the loop is. As written the loop never runs, because the startup call at app/main.py:34 raises `TypeError`.
- Regular-expression matching in app/services/profile_extraction.py is a parameter that returns the captured phrases. Only what happens to them afterwards is modelled.
- `_calculate_confidence_score` is not modelled: it is float arithmetic. The `confidence_score` map is passed through as opaque text.
- `_extract_scent_preferences` and `_extract_style_preferences` in app/services/chat_analysis_service.py are not modelled. They read attributes and a module that do not exist.
- `_update_personality_traits`, `_update_style_preferences`, `_update_user_profile` and `_determine_vibe` are not modelled. Nothing calls them. `_update_scent_preferences` is modelled as the representative of the family.
- `get_system_prompt` is not modelled. It returns a string read from a file, which is the parameter `prompt`.
- `truncate_conversation_history` is a parameter (`truncate`). No definition of it exists, so the import at app/services/chat.py:8 fails and the application does not load. The model assumes the import resolves. The same holds for the schema names that app/models/schemas.py does not declare (`UserCreate`, `UserProfileCreate`, `ScentPreferencesCreate`, `StylePreferencesCreate`, `PersonalityTraitsCreate`, `ChatMessage`, `ChatSession`, `ImageUploadRequest`). Those imports fail too, and the model assumes they resolve.
- `ChatService.get_session` swallowing a database error into `None` is not modelled: store reads do not fail in the model.
- The 500 mapping of `/chat` is not modelled. `ChatService.get_session` swallows errors, and no other step before streaming can fail in the model.
- The image branch of `/chat` is not modelled at the endpoint. `ChatRequest` has no `image_data`, so the branch is never taken. The image path of `process_message` is modelled (`ChatSessions.AnswerImage`).
- `/history` is not modelled. It only forwards to `get_chat_history`, which is modelled.
- Integer primary keys, `created_at` columns of the profile tables and `refresh` are not modelled, because no returned value depends on them beyond what the rows hold.
- Rows with equal timestamps are sorted stably by the model. Their order from the database is unspecified.
- `Text.Lower`, `Text.Strip` and `Phrases.IsWordChar` cover ASCII only. Unicode case mapping, whitespace and word characters are not modelled. Python's `\w` and `\b` also count non-ASCII letters and digits as word characters.
- Several things are stored as opaque text: non-string values in f-strings, `str(e)` of exceptions, and the `repr` of a coroutine.
- Profiles.CreateUser: `UserService.create_user` (app/services/user.py:12-38) has the same logic and is modelled by the same member.
- Profiles.UpdateUser: the returned dict's time strings are not modelled, only which calls succeed and what they return for name and email.
- SessionStore.CleanupTick: models one iteration of `run_cleanup_task` as defined at app/services/session.py:107-118. As written nothing schedules that loop (app/main.py:34).
- ChatAnalysis.ExtractPersonalityTraits: the confidence score of the result is not modelled (float arithmetic).
- Streaming.Stream: states that the session is saved and readable back with the save corrected (Findings row 6). As written the committed reply is not stored for a session with a stored history, stated by `SessionStore.InPlaceEditLost`.
- Streaming.GenerateResponse: states the request and outcome with the formatter argument and the save corrected (Findings rows 1 and 6).
- ChatApi.Chat: states the stream of the corrected generator (Findings row 1), framed line by line (Findings row 5). As written the stream is the apology alone, stated by `ChatApi.ChatAsWritten`; and once the generator works, a reply containing a line feed reaches the client cut at its first line, stated by `EventStream.MultiLineChunkIsCut`.
- ChatApi.ChatReadBack: states what is read and stored with the generator, the framing and the save corrected (Findings rows 1, 5 and 6). With the framing as written, a reply containing a line feed is read cut at its first line, not whole. As written the client reads the apology alone, stated by `ChatApi.ChatAsWrittenReadBack`.
- ChatSessions.GreetAgain: states the history with the save corrected (Findings row 6). As written a stored history is kept without the greeting, stated by `ChatSessions.StartChatAsWritten`.
- ChatSessions.StartedIsOwned: states the greeting in the history with the save corrected (Findings row 6). As written it is not stored, stated by `ChatSessions.StartChatAsWritten`.
- ChatSessions.StartedExisting: the same, for an owner who already had a session.
- ChatSessions.StartedFresh: the same, for an owner without a session; `ChatSessions.FirstGreetingLost` states the as-written outcome.
- ChatSessions.AnswerText: states the stored history with the generator and the save corrected (Findings rows 1 and 6).
- ChatSessions.ProcessWith: states the stored history with the generator and the save corrected (Findings rows 1 and 6).
- ChatSessions.ProcessMessageAsWritten: keeps the second append but assumes the generator and the save corrected (Findings rows 1 and 6). With the code entirely as written the reply is the apology and nothing of the turn is stored for a session with a stored history.
- Profiles.SetAttrs: `hasattr` is taken to hold exactly for the table's columns. On the mapped class it also holds for the relationship `user`, the method `to_dict` and the declarative attributes `metadata`, `registry` and `_sa_instance_state`; a key naming one of those is skipped by the model, whereas the code assigns it.
- Profiles.UpdateUserProfile: inherits the `hasattr` simplification of `Profiles.SetAttrs`.
- Profiles.UpdatePersonalityTraits: inherits the `hasattr` simplification of `Profiles.SetAttrs`.
- SessionStore.GetSessionByUser: states that the session found is owned by the user and is a stored row. That it is the first such row is stated by `ChatSessions.OwnedIsFound`.

## Findings

| source | as written | input that shows it | evidently intended | confidence | as-written member | corrected member |
|---|---|---|---|---|---|---|
| app/core/ai/chat.py:32 | the wrapper dict `{"messages": [...]}` is passed to `format_conversation_history`, which iterates its key and indexes the string "messages", raising `TypeError` | any session, e.g. one with an empty history | pass `session["conversation_history"]["messages"]` | high; not executed | Streaming.GenerateResponseAsWritten | Streaming.GenerateResponse |
| app/services/chat.py:203-207 | after `generate_response` has committed the reply to the shared message list, `process_message` appends it a second time without a duplicate check | a completed reply "Hi" to any session: the stored history ends with two assistant entries "Hi" | replace the second append by the duplicate-suppressing commit, so that the reply is stored once, the apology included when the upstream fails | high; not executed | ChatSessions.ProcessMessageAsWritten | ChatSessions.ProcessMessage |
| app/services/profile_extraction.py:74 | the raw f-string `rf"\\b{trait}\\b"` asks for a literal backslash followed by "b" around the trait | "I am Creative" yields no trait | `rf"\b{trait}\b"`, a word boundary | high; not executed | Phrases.ExtractPersonalityTraitsAsWritten | Phrases.ExtractPersonalityTraits |
| app/services/chat_service.py:41-43 | the async getters `get_user_profile`, `get_scent_preferences` and `get_style_preferences` are called without `await`; the coroutine objects are truthy and have no `get`, so the system message raises and the reply is always the apology | any user and message | `await` each getter | high; not executed | ChatService.ProcessMessageAsWritten | ChatService.ProcessMessage |
| app/api/v1/chat.py:56 | a chunk is framed as one `data:` line, so a line feed inside it starts a new line that the client reads as an unknown field and drops | the chunk "a\nb" reaches the client as the event "a" | one `data:` line per line of the chunk | medium; not executed | EventStream.MultiLineChunkIsCut | EventStream.FramedDecode |
| app/services/session.py:82 | `save_session` assigns the dict the caller got from `to_dict`, which is the row's own `conversation_history` object that the caller appended to in place; the `JSON` column tracks no mutation, the value compares equal to the loaded one, and only `updated_at` is written | `start_chat` for a new user: the stored history stays `{"messages": []}` without the greeting | assign a copy of the history, or mark the column modified | medium; not executed | ChatSessions.StartChatAsWritten | ChatSessions.StartChat |
| app/api/v1/chat.py:21-24 | the response is built as `ChatResponse(message=..., session_id=...)`, but the model declares `bot_message`, so validation fails after `start_chat` ran and the handler answers 500 | any call, e.g. a first visit without a body | `ChatResponse(bot_message=..., session_id=...)` | high; not executed | ChatApi.StartSessionAsWritten | ChatApi.StartSession |
