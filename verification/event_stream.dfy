/** The `text/event-stream` body written by the `/chat` endpoint of
    app/api/v1/chat.py, and the reading of such a body by a client that follows
    the event-stream interpretation of the WHATWG HTML Living Standard
    (sections 9.2.5 and 9.2.6): the stream is cut into lines at CRLF, LF or CR;
    a `data` field appends its value and a line feed to the data buffer; a
    blank line dispatches the buffer without its final line feed. */
module EventStream {
  import opened Text

  /** The sentinel sent after the last chunk. */
  const Done: string := "[DONE]"

  predicate IsTerminator(c: char) {
    c == '\r' || c == '\n'
  }

  predicate SingleLine(s: string) {
    forall k :: 0 <= k < |s| ==> !IsTerminator(s[k])
  }

  predicate NoCarriageReturn(s: string) {
    forall k :: 0 <= k < |s| ==> s[k] != '\r'
  }

  // ------------------------------------------------------------ reading

  /** Length of the leading run of non-terminator characters. */
  function LineEnd(s: string): (i: nat)
    ensures i <= |s|
    ensures forall k :: 0 <= k < i ==> !IsTerminator(s[k])
    ensures i < |s| ==> IsTerminator(s[i])
  {
    if s == [] || IsTerminator(s[0]) then 0 else 1 + LineEnd(s[1..])
  }

  /** The complete lines of a stream, terminators removed; text after the last
      terminator is still pending and forms no line. */
  function Lines(s: string): (r: seq<string>)
    ensures forall k :: 0 <= k < |r| ==> SingleLine(r[k])
    ensures SingleLine(s) ==> r == []
    decreases |s|
  {
    var i := LineEnd(s);
    if i == |s| then []
    else
      var skip := if s[i] == '\r' && i + 1 < |s| && s[i + 1] == '\n' then 2 else 1;
      assert SingleLine(s[..i]) by {
        assert forall k :: 0 <= k < i ==> s[..i][k] == s[k];
      }
      [s[..i]] + Lines(s[i + skip..])
  }

  /** A field line split into its name and value. */
  datatype Field = Field(name: string, value: string)

  /** Position of the first `c` in `s`, `|s|` when there is none. */
  function IndexOf(s: string, c: char): (i: nat)
    ensures i <= |s|
    ensures forall k :: 0 <= k < i ==> s[k] != c
    ensures i < |s| ==> s[i] == c
  {
    if s == [] || s[0] == c then 0 else 1 + IndexOf(s[1..], c)
  }

  /** Position of the first colon, `|s|` when there is none. */
  function ColonAt(s: string): nat {
    IndexOf(s, ':')
  }

  /** Section 9.2.6 of the WHATWG HTML Living Standard: the name runs to the
      first colon and the value follows it, less one leading space; a line
      without a colon is a name with an empty value. */
  function ParseField(line: string): (f: Field)
    ensures forall k :: 0 <= k < |f.name| ==> f.name[k] != ':'
    ensures |f.name| == |line| ==> f == Field(line, [])
    ensures |f.name| < |line| ==> line[..|f.name| + 1] == f.name + ":"
    ensures |f.name| < |line| ==>
              line[|f.name| + 1..] == f.value || line[|f.name| + 1..] == " " + f.value
  {
    var i := ColonAt(line);
    if i == |line| then Field(line, [])
    else
      var rest := line[i + 1..];
      Field(line[..i], if rest != [] && rest[0] == ' ' then rest[1..] else rest)
  }

  /** A name without colons, a colon, and the rest: the first colon follows the name. */
  lemma {:induction false} ColonAfterName(name: string, rest: string)
    requires forall k :: 0 <= k < |name| ==> name[k] != ':'
    ensures ColonAt(name + ":" + rest) == |name|
    decreases |name|
  {
    if name != [] {
      assert (name + ":" + rest)[1..] == name[1..] + ":" + rest;
      ColonAfterName(name[1..], rest);
    }
  }

  /** A `data: ` line carries exactly the text after the space. */
  lemma ParseDataLine(p: string)
    ensures ParseField("data: " + p) == Field("data", p)
  {
    var s := "data: " + p;
    assert s == "data" + ":" + (" " + p);
    ColonAfterName("data", " " + p);
    assert s[..4] == "data";
    assert s[5..] == " " + p;
  }

  /** The reader's state: the data buffer and the data of the events dispatched so far. */
  datatype Reader = Reader(data: string, events: seq<string>)

  /** One line: a blank line dispatches the buffer (nothing when it is empty),
      a line starting with a colon is a comment, a `data` field appends its value
      and a line feed, and other fields leave the data alone. */
  function Process(r: Reader, line: string): (q: Reader)
    ensures line == [] ==> q.data == []
    ensures line == [] && r.data == [] ==> q == r
    ensures line == [] && r.data != [] ==> q.events == r.events + [r.data[..|r.data| - 1]]
    ensures line != [] ==> q.events == r.events
    ensures line != [] && line[0] == ':' ==> q == r
    ensures line != [] && line[0] != ':' && ParseField(line).name == "data" ==>
              q.data == r.data + ParseField(line).value + "\n"
    ensures line != [] && ParseField(line).name != "data" ==> q == r
  {
    if line == [] then
      if r.data == [] then r else Reader([], r.events + [r.data[..|r.data| - 1]])
    else if line[0] == ':' then r
    else
      var f := ParseField(line);
      if f.name == "data" then r.(data := r.data + f.value + "\n") else r
  }

  function Interpret(r: Reader, lines: seq<string>): Reader
    decreases |lines|
  {
    if lines == [] then r else Interpret(Process(r, lines[0]), lines[1..])
  }

  /** The reader continued over a stream. */
  function ReadFrom(r: Reader, stream: string): Reader {
    Interpret(r, Lines(stream))
  }

  /** The data of every event a client reads from the stream, in order. */
  function Decode(stream: string): seq<string> {
    ReadFrom(Reader([], []), stream).events
  }

  /** A line ended by a line feed is read by itself, then the rest. */
  lemma {:induction false} LineEndOfLine(line: string, t: string)
    requires SingleLine(line)
    ensures LineEnd(line + "\n" + t) == |line|
    decreases |line|
  {
    if line != [] {
      assert (line + "\n" + t)[1..] == line[1..] + "\n" + t;
      LineEndOfLine(line[1..], t);
    }
  }

  lemma ReadLine(r: Reader, line: string, t: string)
    requires SingleLine(line)
    ensures ReadFrom(r, line + "\n" + t) == ReadFrom(Process(r, line), t)
  {
    var s := line + "\n" + t;
    LineEndOfLine(line, t);
    assert s[..|line|] == line;
    assert s[|line| + 1..] == t;
  }

  // ------------------------------------------------------------ writing

  /** Line 56 as written: one `data:` line per chunk, whatever the chunk holds. */
  function Frame(chunk: string): string {
    "data: " + chunk + "\n\n"
  }

  /** The body of `generate()` (lines 52-57) with a given framing of one chunk. */
  function BodyWith(frame: string -> string, chunks: seq<string>): string {
    if chunks == [] then frame(Done)
    else (if chunks[0] != [] then frame(chunks[0]) else []) + BodyWith(frame, chunks[1..])
  }

  /** The body as written. */
  function Body(chunks: seq<string>): string {
    BodyWith(Frame, chunks)
  }

  /** A line-feed-separated text cut into its lines. */
  function SplitLf(s: string): (r: seq<string>)
    ensures |r| >= 1
    ensures forall k :: 0 <= k < |r| ==> forall j :: 0 <= j < |r[k]| ==> r[k][j] != '\n'
    ensures NoCarriageReturn(s) ==> forall k :: 0 <= k < |r| ==> SingleLine(r[k])
    ensures Join("\n", r) == s
    decreases |s|
  {
    var i := LineEndLf(s);
    if i == |s| then
      [s]
    else
      var rest := SplitLf(s[i + 1..]);
      assert NoCarriageReturn(s) ==> NoCarriageReturn(s[i + 1..]) by {
        var tail := s[i + 1..];
        forall k | 0 <= k < |tail|
          ensures tail[k] == s[i + 1 + k]
        {
        }
      }
      assert forall j :: 0 <= j < i ==> s[..i][j] == s[j];
      assert s == s[..i] + "\n" + s[i + 1..];
      [s[..i]] + rest
  }

  /** Length of the leading run of characters other than a line feed. */
  function LineEndLf(s: string): nat {
    IndexOf(s, '\n')
  }

  /** One `data: ` line, ended by a line feed, per line of the parts. */
  function DataLines(parts: seq<string>): string {
    if parts == [] then [] else "data: " + parts[0] + "\n" + DataLines(parts[1..])
  }

  /** The parts, each followed by a line feed. */
  function Terminated(parts: seq<string>): (r: string)
    ensures parts != [] ==> r == Join("\n", parts) + "\n"
  {
    if parts == [] then [] else parts[0] + "\n" + Terminated(parts[1..])
  }

  /** The framing that keeps multi-line chunks whole: one `data:` line per line
      of the chunk, then the blank line. */
  function FrameLines(chunk: string): string {
    DataLines(SplitLf(chunk)) + "\n"
  }

  /** The body with every chunk framed line by line. */
  function FramedBody(chunks: seq<string>): string {
    BodyWith(FrameLines, chunks)
  }

  /** A `data: ` line of a single-line text appends that text and a line feed to the buffer. */
  lemma ReadDataLine(r: Reader, p: string, t: string)
    requires SingleLine(p)
    ensures ReadFrom(r, "data: " + p + "\n" + t) == ReadFrom(r.(data := r.data + (p + "\n")), t)
  {
    var line := "data: " + p;
    assert SingleLine(line) by {
      forall k | 6 <= k < |line|
        ensures line[k] == p[k - 6]
      {
      }
    }
    ReadLine(r, line, t);
    ParseDataLine(p);
    SeqAssoc(r.data, p, "\n");
  }

  lemma SeqAssoc<T>(a: seq<T>, b: seq<T>, c: seq<T>)
    ensures (a + b) + c == a + (b + c)
  {
  }

  lemma DataLinesCons(parts: seq<string>, t: string)
    requires parts != []
    ensures DataLines(parts) + t == "data: " + parts[0] + "\n" + (DataLines(parts[1..]) + t)
    ensures Terminated(parts) == parts[0] + "\n" + Terminated(parts[1..])
  {
  }

  lemma {:induction false} ReadDataLines(r: Reader, parts: seq<string>, t: string)
    requires forall k :: 0 <= k < |parts| ==> SingleLine(parts[k])
    ensures ReadFrom(r, DataLines(parts) + t) == ReadFrom(r.(data := r.data + Terminated(parts)), t)
    decreases |parts|
  {
    if parts == [] {
      assert DataLines(parts) + t == t;
      assert r.(data := r.data + Terminated(parts)) == r;
    } else {
      DataLinesCons(parts, t);
      ReadDataLine(r, parts[0], DataLines(parts[1..]) + t);
      var tail := parts[1..];
      assert forall k :: 0 <= k < |tail| ==> SingleLine(tail[k]) by {
        forall k | 0 <= k < |tail|
          ensures tail[k] == parts[k + 1]
        {
        }
      }
      var line := parts[0] + "\n";
      ReadDataLines(r.(data := r.data + line), tail, t);
      SeqAssoc(r.data, line, Terminated(tail));
    }
  }

  /** A chunk without carriage returns, framed line by line, is read back whole as one event. */
  lemma ReadFramedChunk(events: seq<string>, chunk: string, t: string)
    requires NoCarriageReturn(chunk)
    ensures ReadFrom(Reader([], events), FrameLines(chunk) + t) == ReadFrom(Reader([], events + [chunk]), t)
  {
    var parts := SplitLf(chunk);
    var r := Reader([], events);
    var blank: string := [];
    var after := blank + "\n" + t;
    SeqAssoc(DataLines(parts), "\n", t);
    assert FrameLines(chunk) + t == DataLines(parts) + after;
    ReadDataLines(r, parts, after);
    var q := r.(data := r.data + Terminated(parts));
    assert q.data == chunk + "\n";
    ReadLine(q, blank, t);
    assert q.data[..|q.data| - 1] == chunk;
    assert Process(q, blank) == Reader([], events + [chunk]);
  }

  lemma FramedBodyEmpty(events: seq<string>)
    ensures ReadFrom(Reader([], events), FramedBody([])).events == events + [Done]
  {
    assert NoCarriageReturn(Done);
    ReadFramedChunk(events, Done, []);
    assert FramedBody([]) == FrameLines(Done) + [];
  }

  /** The corrected body reads back as the non-empty chunks followed by the sentinel. */
  lemma {:induction false} FramedBodyRoundTrip(events: seq<string>, chunks: seq<string>)
    requires forall k :: 0 <= k < |chunks| ==> NoCarriageReturn(chunks[k])
    ensures ReadFrom(Reader([], events), FramedBody(chunks)).events == events + NonEmpty(chunks) + [Done]
    decreases |chunks|
  {
    if chunks == [] {
      FramedBodyEmpty(events);
    } else {
      var tail := chunks[1..];
      assert forall k :: 0 <= k < |tail| ==> NoCarriageReturn(tail[k]) by {
        forall k | 0 <= k < |tail|
          ensures tail[k] == chunks[k + 1]
        {
        }
      }
      var rest := FramedBody(tail);
      if chunks[0] == [] {
        assert FramedBody(chunks) == rest;
        FramedBodyRoundTrip(events, tail);
      } else {
        assert FramedBody(chunks) == FrameLines(chunks[0]) + rest;
        ReadFramedChunk(events, chunks[0], rest);
        FramedBodyRoundTrip(events + [chunks[0]], tail);
        assert NonEmpty(chunks) == [chunks[0]] + NonEmpty(tail);
        SeqAssoc(events, [chunks[0]], NonEmpty(tail));
      }
    }
  }

  /** Every chunk without carriage returns reaches the client whole, in order,
      followed by the sentinel. */
  lemma FramedDecode(chunks: seq<string>)
    requires forall k :: 0 <= k < |chunks| ==> NoCarriageReturn(chunks[k])
    ensures Decode(FramedBody(chunks)) == NonEmpty(chunks) + [Done]
  {
    FramedBodyRoundTrip([], chunks);
    var ne := NonEmpty(chunks);
    assert [] + ne == ne;
  }

  /** A chunk of one line is framed alike either way. */
  lemma FrameAgrees(c: string)
    requires SingleLine(c)
    ensures Frame(c) == FrameLines(c)
  {
    assert LineEndLf(c) == |c|;
    assert SplitLf(c) == [c];
    assert DataLines([c]) == "data: " + c + "\n" + DataLines([]);
  }

  /** For chunks of a single line the written framing and the line-by-line one coincide. */
  lemma {:induction false} SingleLineFramingAgrees(chunks: seq<string>)
    requires forall k :: 0 <= k < |chunks| ==> SingleLine(chunks[k])
    ensures Body(chunks) == FramedBody(chunks)
    decreases |chunks|
  {
    if chunks == [] {
      assert SingleLine(Done);
      FrameAgrees(Done);
    } else {
      var tail := chunks[1..];
      assert forall k :: 0 <= k < |tail| ==> SingleLine(tail[k]) by {
        forall k | 0 <= k < |tail|
          ensures tail[k] == chunks[k + 1]
        {
        }
      }
      SingleLineFramingAgrees(tail);
      FrameAgrees(chunks[0]);
    }
  }

  lemma NoCarriageReturnAppend(a: string, b: string)
    requires NoCarriageReturn(a) && NoCarriageReturn(b)
    ensures NoCarriageReturn(a + b)
  {
    forall k | |a| <= k < |a + b|
      ensures (a + b)[k] == b[k - |a|]
    {
    }
  }

  /** The pieces of a text without carriage returns have none either. */
  lemma {:induction false} PiecesHaveNoCarriageReturn(pieces: seq<string>)
    requires NoCarriageReturn(Concat(pieces))
    ensures forall k :: 0 <= k < |pieces| ==> NoCarriageReturn(pieces[k])
    decreases |pieces|
  {
    if pieces != [] {
      var head := pieces[0];
      var rest := Concat(pieces[1..]);
      assert Concat(pieces) == head + rest;
      forall j | 0 <= j < |rest|
        ensures rest[j] == Concat(pieces)[|head| + j]
      {
      }
      forall j | 0 <= j < |head|
        ensures head[j] == Concat(pieces)[j]
      {
      }
      PiecesHaveNoCarriageReturn(pieces[1..]);
      forall k | 0 <= k < |pieces|
        ensures NoCarriageReturn(pieces[k])
      {
        if k > 0 {
          assert pieces[k] == pieces[1..][k - 1];
        }
      }
    }
  }

  lemma DoneIsOneLine()
    ensures SingleLine(Done) && NoCarriageReturn(Done)
  {
  }

  lemma DispatchOne(p: string)
    ensures Process(Reader(p + "\n", []), []) == Reader([], [p])
  {
    var d := p + "\n";
    assert d[..|d| - 1] == p;
  }

  /** As written, a chunk holding a line feed loses what follows it: the client
      reads `"a"` for the chunk `"a\nb"`, since the line `b` is a field named
      `b` that it ignores. */
  lemma MultiLineChunkIsCut()
    ensures Decode(Body(["a\nb"])) == ["a", Done]
  {
    var blank: string := [];
    var last := Frame(Done);
    CutReadsFirstLine();
    CutThenDone();
    assert ReadFrom(Reader([], []), Body(["a\nb"])) == ReadFrom(Reader([], ["a", Done]), []);
  }

  /** The chunk `"a\nb"` leaves `a` as pending data; the line `b` is ignored. */
  lemma CutReadsFirstLine()
    ensures ReadFrom(Reader([], []), Body(["a\nb"])) == ReadFrom(Reader("a" + "\n", []), [] + "\n" + Frame(Done))
  {
    var blank: string := [];
    var last := Frame(Done);
    var afterB := blank + "\n" + last;
    var afterA := "b" + "\n" + afterB;
    var r0 := Reader([], []);
    var r1 := Reader("a" + "\n", []);
    assert Body(["a\nb"]) == Frame("a\nb") + last;
    assert Frame("a\nb") + last == "data: " + "a" + "\n" + afterA;
    calc {
      ReadFrom(r0, Body(["a\nb"]));
      ReadFrom(r0, "data: " + "a" + "\n" + afterA);
      { ReadDataLine(r0, "a", afterA);
        assert r0.(data := r0.data + ("a" + "\n")) == r1; }
      ReadFrom(r1, "b" + "\n" + afterB);
      { ReadLine(r1, "b", afterB);
        assert ColonAt("b") == 1;
        assert Process(r1, "b") == r1; }
      ReadFrom(r1, blank + "\n" + last);
    }
  }

  /** The blank line dispatches `a`; the sentinel's frame follows. */
  lemma CutThenDone()
    ensures ReadFrom(Reader("a" + "\n", []), [] + "\n" + Frame(Done)) == ReadFrom(Reader([], ["a", Done]), [])
  {
    var blank: string := [];
    var last := Frame(Done);
    var r1 := Reader("a" + "\n", []);
    var r2 := Reader([], ["a"]);
    var r3 := Reader([], ["a", Done]);
    calc {
      ReadFrom(r1, blank + "\n" + last);
      { ReadLine(r1, blank, last);
        DispatchOne("a"); }
      ReadFrom(r2, last);
      { DoneIsOneLine();
        FrameAgrees(Done);
        assert last == FrameLines(Done) + []; }
      ReadFrom(r2, FrameLines(Done) + []);
      { DoneIsOneLine();
        ReadFramedChunk(["a"], Done, []); }
      ReadFrom(r3, []);
    }
  }
}
