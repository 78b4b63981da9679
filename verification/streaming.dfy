/** `generate_response` of app/core/ai/chat.py: the buffer/flush rule that turns
    upstream fragments into emitted chunks, the trailing flush, the
    duplicate-suppressing commit of the reply, and the apology on error.
    Fragment arrival times are integer milliseconds supplied with the fragments;
    the random pacing sleep is dropped. */
module Streaming {
  import opened Wrappers
  import opened Text
  import opened Conversation
  import opened Models
  import SessionStore

  /** A buffer of at least this many characters is flushed. */
  const FlushChars: nat := 3
  /** A buffer is flushed when this many milliseconds (0.1 s) passed since the last flush. */
  const FlushIntervalMs: int := 100

  /** The apology yielded on any failure, written in pieces short enough for
      character-by-character reasoning. */
  const Apology: string :=
    "I apologize, but I'm " + "having trouble processing" + " your request right now." + " Could you please try again?"

  /** One upstream stream item: `delta.content` (possibly `None`) and its arrival time. */
  datatype Fragment = Fragment(content: Option<string>, at: int)

  /** The text the upstream produced: all non-`None` contents in order. */
  function Contents(frags: seq<Fragment>): string {
    if frags == [] then []
    else frags[0].content.GetOr([]) + Contents(frags[1..])
  }

  /** The longest fragment content. */
  function MaxContent(frags: seq<Fragment>): (m: nat)
    ensures forall i :: 0 <= i < |frags| ==> |frags[i].content.GetOr([])| <= m
  {
    if frags == [] then 0
    else
      var rest := MaxContent(frags[1..]);
      var here := |frags[0].content.GetOr([])|;
      if here < rest then rest else here
  }

  /** The loop state: `buffer`, `full_response`, `last_yield_time`, and the chunks yielded so far. */
  datatype Pacer = Pacer(buffer: string, full: string, lastYield: int, chunks: seq<string>)

  /** Accepting `f` flushes: it carries content and the grown buffer holds at
      least three characters or 0.1 s passed since the last flush. */
  predicate Flushes(p: Pacer, f: Fragment) {
    f.content.Some? && (|p.buffer + f.content.value| >= FlushChars || f.at - p.lastYield >= FlushIntervalMs)
  }

  /** One iteration of the `for chunk in stream` loop. */
  function Accept(p: Pacer, f: Fragment): (r: Pacer)
    ensures f.content.None? ==> r == p
    ensures r.full + r.buffer == p.full + p.buffer + f.content.GetOr([])
    ensures |r.chunks| == |p.chunks| + (if Flushes(p, f) then 1 else 0)
    ensures r.chunks[..|p.chunks|] == p.chunks
    ensures Flushes(p, f) ==> r.buffer == [] && r.lastYield == f.at
    ensures Flushes(p, f) ==> r.chunks[|p.chunks|] == p.buffer + f.content.value
    ensures !Flushes(p, f) ==> r.lastYield == p.lastYield && r.full == p.full
    ensures f.content.Some? ==> |r.buffer| < FlushChars
    ensures Concat(p.chunks) == p.full ==> Concat(r.chunks) == r.full
  {
    match f.content
    case None => p
    case Some(c) =>
      var b := p.buffer + c;
      if |b| >= FlushChars || f.at - p.lastYield >= FlushIntervalMs then
        ConcatSnoc(p.chunks, b);
        Pacer([], p.full + b, f.at, p.chunks + [b])
      else
        p.(buffer := b)
  }

  /** The whole loop over the upstream fragments. */
  function Run(p: Pacer, frags: seq<Fragment>): (r: Pacer)
    ensures r.full + r.buffer == p.full + p.buffer + Contents(frags)
    ensures Concat(p.chunks) == p.full ==> Concat(r.chunks) == r.full
    ensures |r.chunks| >= |p.chunks| && r.chunks[..|p.chunks|] == p.chunks
    ensures |p.buffer| < FlushChars ==> |r.buffer| < FlushChars
    ensures |p.buffer| < FlushChars ==>
              forall i :: |p.chunks| <= i < |r.chunks| ==> |r.chunks[i]| < FlushChars + MaxContent(frags)
    decreases |frags|
  {
    if frags == [] then p
    else
      var q := Accept(p, frags[0]);
      var r := Run(q, frags[1..]);
      assert r.chunks[..|p.chunks|] == p.chunks by {
        assert r.chunks[..|q.chunks|][..|p.chunks|] == q.chunks[..|p.chunks|];
      }
      assert |p.buffer| < FlushChars ==> forall i :: |p.chunks| <= i < |q.chunks| ==>
               |q.chunks[i]| < FlushChars + MaxContent(frags) by {
        assert |frags[0].content.GetOr([])| <= MaxContent(frags);
      }
      assert |p.buffer| < FlushChars ==> forall i :: |q.chunks| <= i < |r.chunks| ==>
               |r.chunks[i]| < FlushChars + MaxContent(frags) by {
        assert forall k :: 0 <= k < |frags[1..]| ==> frags[1..][k] == frags[k + 1];
        assert MaxContent(frags[1..]) <= MaxContent(frags);
        if |p.buffer| < FlushChars && frags[0].content.None? {
          assert q == p;
        }
      }
      assert forall i :: |p.chunks| <= i < |q.chunks| ==> r.chunks[i] == q.chunks[i] by {
        assert r.chunks[..|q.chunks|] == q.chunks;
      }
      r
  }

  /** The trailing `if buffer:` flush after the loop. */
  function Finish(p: Pacer): (r: Pacer)
    ensures r.buffer == [] && r.full == p.full + p.buffer
    ensures p.buffer != [] ==> r.chunks == p.chunks + [p.buffer]
    ensures p.buffer == [] ==> r.chunks == p.chunks
    ensures Concat(p.chunks) == p.full ==> Concat(r.chunks) == r.full
  {
    if p.buffer != [] then
      ConcatSnoc(p.chunks, p.buffer);
      Pacer([], p.full + p.buffer, p.lastYield, p.chunks + [p.buffer])
    else p
  }

  /** The success path from an empty buffer at time `start`: the yielded chunks
      concatenate to `full_response`, which is the upstream text. */
  function Pace(frags: seq<Fragment>, start: int): (r: Pacer)
    ensures r.buffer == []
    ensures r.full == Contents(frags)
    ensures Concat(r.chunks) == Contents(frags)
  {
    Finish(Run(Pacer([], [], start, []), frags))
  }

  /** Fragments whose contents are all non-empty give only non-empty chunks. */
  lemma {:induction false} NonEmptyChunks(p: Pacer, frags: seq<Fragment>)
    requires forall i :: 0 <= i < |p.chunks| ==> p.chunks[i] != []
    requires forall i :: 0 <= i < |frags| ==> frags[i].content.GetOr("x") != []
    ensures forall i :: 0 <= i < |Run(p, frags).chunks| ==> Run(p, frags).chunks[i] != []
    ensures forall i :: 0 <= i < |Finish(Run(p, frags)).chunks| ==> Finish(Run(p, frags)).chunks[i] != []
    decreases |frags|
  {
    if frags != [] {
      var q := Accept(p, frags[0]);
      assert forall i :: 0 <= i < |q.chunks| ==> q.chunks[i] != [] by {
        if Flushes(p, frags[0]) {
          assert q.chunks == p.chunks + [p.buffer + frags[0].content.value];
        }
      }
      assert forall i :: 0 <= i < |frags[1..]| ==> frags[1..][i] == frags[i + 1];
      NonEmptyChunks(q, frags[1..]);
    }
  }

  // ------------------------------------------------------------- commit

  /** The last stored entry is an assistant message with this content. */
  predicate EchoesLast(msgs: seq<Message>, reply: string) {
    |msgs| > 0 && msgs[|msgs| - 1].role == Assistant && msgs[|msgs| - 1].content == reply
  }

  /** The duplicate-suppressing append of the finished reply. */
  function CommitReply(msgs: seq<Message>, reply: string, now: int): (r: seq<Message>)
    ensures |msgs| <= |r| <= |msgs| + 1
    ensures r[..|msgs|] == msgs
    ensures |r| == |msgs| + 1 <==> !EchoesLast(msgs, reply)
    ensures |r| == |msgs| + 1 ==> r[|msgs|] == Message(Assistant, reply, now, None)
    ensures EchoesLast(r, reply)
  {
    if EchoesLast(msgs, reply) then msgs
    else msgs + [Message(Assistant, reply, now, None)]
  }

  /** Committing the same reply twice in succession stores it once. */
  lemma CommitIdempotent(msgs: seq<Message>, reply: string, t1: int, t2: int)
    ensures CommitReply(CommitReply(msgs, reply, t1), reply, t2) == CommitReply(msgs, reply, t1)
  {
  }

  // ------------------------------------------------------------ the generator

  /** What the completion service streams back for a request: the fragments it
      delivers, and whether the stream then raises (a failed connection is no
      fragments followed by a raise). */
  datatype Upstream = Upstream(fragments: seq<Fragment>, raises: bool)

  /** What one run of the generator leaves: the yielded chunks, the session dict
      (shared with the caller and mutated in place), the database, and the
      completion request sent, if any. */
  datatype Generation = Generation(chunks: seq<string>, session: Session, db: Db, request: Option<seq<ApiMessage>>)

  /** Lines 25-26: a missing or empty history becomes `{"messages": []}`. */
  function Heal(s: Session): (r: Session)
    ensures r.history.Some?
    ensures s.history.Some? ==> r == s
    ensures s.history.None? ==> r == s.(history := Some([]))
  {
    if s.history.Some? then s else s.(history := Some([]))
  }

  /** The stream loop, the trailing flush, the commit and the save, once the
      request was sent and answered with `up`. When the stream completes the
      chunks concatenate to the upstream text, the reply is committed without
      duplication and the session saved; when it raises, the chunks already
      yielded are followed by one apology and nothing is appended or saved. */
  function Stream(db: Db, healed: Session, request: seq<ApiMessage>, up: Upstream, start: int, now: int): (r: Generation)
    requires SessionStore.Valid(db)
    requires healed.history.Some?
    ensures SessionStore.Valid(r.db)
    ensures r.request == Some(request)
    ensures r.session.id == healed.id && r.session.owner == healed.owner
    ensures up.raises ==>
              && r.db == db
              && r.session == healed
              && |r.chunks| >= 1 && r.chunks[|r.chunks| - 1] == Apology
              && var sent := Concat(r.chunks[..|r.chunks| - 1]);
                 |sent| <= |Contents(up.fragments)| && Contents(up.fragments)[..|sent|] == sent
    ensures !up.raises ==>
              && Concat(r.chunks) == Contents(up.fragments)
              && r.session.history == Some(CommitReply(healed.history.value, Contents(up.fragments), now))
              && SessionStore.GetSession(r.db, healed.id).Some?
              && SessionStore.GetSession(r.db, healed.id).value.history == r.session.history
  {
    var p := Run(Pacer([], [], start, []), up.fragments);
    if up.raises then
      var chunks := p.chunks + [Apology];
      assert chunks[..|chunks| - 1] == p.chunks;
      assert Concat(p.chunks) + p.buffer == Contents(up.fragments);
      Generation(chunks, healed, db, Some(request))
    else
      var fin := Finish(p);
      var stored := healed.(history := Some(CommitReply(healed.history.value, fin.full, now)));
      SessionStore.SaveThenGet(db, stored.id, stored.owner, stored.history, now);
      Generation(fin.chunks, stored, SessionStore.SaveSession(db, stored.id, stored.owner, stored.history, now), Some(request))
  }

  /** The generator body, with the formatter given the wrapper dict
      (`passesWrapper`, as line 32 is written) or the message list. */
  function Generate(
    db: Db, session: Session, prompt: string, complete: seq<ApiMessage> -> Upstream,
    start: int, now: int, passesWrapper: bool): Generation
    requires SessionStore.Valid(db)
  {
    var healed := Heal(session);
    var msgs := healed.history.value;
    var arg := if passesWrapper then Wrapper(msgs) else MessageList(msgs);
    match FormatArgument(arg)
    case None => Generation([Apology], healed, db, None)
    case Some(formatted) =>
      var request := [ApiMessage(System, prompt)] + formatted;
      Stream(db, healed, request, complete(request), start, now)
  }

  /** `generate_response` as written: line 32 hands the wrapper dict to the
      formatter, which raises before any request is made, so every call yields
      the apology alone and neither appends nor saves. */
  function GenerateResponseAsWritten(
    db: Db, session: Session, prompt: string, complete: seq<ApiMessage> -> Upstream,
    start: int, now: int): (r: Generation)
    requires SessionStore.Valid(db)
    ensures r.chunks == [Apology]
    ensures r.request.None?
    ensures r.db == db
    ensures r.session == Heal(session)
  {
    FormatWrapperArgumentFails(Heal(session).history.value);
    Generate(db, session, prompt, complete, start, now, true)
  }

  /** `generate_response` with the message list handed to the formatter: the
      request is the system prompt followed by the formatted history, and the
      outcome is that of `Stream` on the upstream answer to it. */
  function GenerateResponse(
    db: Db, session: Session, prompt: string, complete: seq<ApiMessage> -> Upstream,
    start: int, now: int): (r: Generation)
    requires SessionStore.Valid(db)
    ensures r.request == Some([ApiMessage(System, prompt)] + Format(Heal(session).history.value))
    ensures r == Stream(db, Heal(session), r.request.value, complete(r.request.value), start, now)
  {
    FormatListArgument(Heal(session).history.value);
    Generate(db, session, prompt, complete, start, now, false)
  }
}
