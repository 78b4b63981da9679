/** The keyword extraction of app/services/profile_extraction.py. The regular
    expressions that capture phrases are inputs (`captures`); what is modelled
    is what happens to the captured phrases: splitting on "," and "and",
    stripping, dropping empty items and de-duplicating, and the trait lookup. */
module Phrases {
  import opened Text

  // ------------------------------------------------------------- splitting

  predicate IsSeparatorAt(s: string, i: nat)
    requires i <= |s|
  {
    (i < |s| && s[i] == ',') || (i + 3 <= |s| && s[i..i + 3] == "and")
  }

  /** `re.split(r",|and", s)`: the text between the separators, scanning left to
      right and trying "," before "and". "and" is a separator also inside a word. */
  function SplitItems(s: string): (r: seq<string>)
    ensures |r| >= 1
    ensures StartsWith(s, r[0])
    ensures forall k :: 0 <= k < |r| ==> ',' !in r[k] && !Contains(r[k], "and")
    decreases |s|
  {
    if s == [] then [""]
    else if s[0] == ',' then [""] + SplitItems(s[1..])
    else if |s| >= 3 && s[..3] == "and" then [""] + SplitItems(s[3..])
    else
      var rest := SplitItems(s[1..]);
      var head := [s[0]] + rest[0];
      assert |head| >= 3 ==> head[..3] == s[..3];
      assert head[1..] == rest[0];
      [head] + rest[1..]
  }

  /** The separators `re.split` removed, in order. */
  function Separators(s: string): (r: seq<string>)
    ensures forall k :: 0 <= k < |r| ==> r[k] == "," || r[k] == "and"
    decreases |s|
  {
    if s == [] then []
    else if s[0] == ',' then [","] + Separators(s[1..])
    else if |s| >= 3 && s[..3] == "and" then ["and"] + Separators(s[3..])
    else Separators(s[1..])
  }

  /** The parts with the separators put back between them. */
  function Interleave(parts: seq<string>, seps: seq<string>): string
    requires |parts| == |seps| + 1
  {
    if seps == [] then parts[0] else parts[0] + seps[0] + Interleave(parts[1..], seps[1..])
  }

  /** Splitting loses nothing but the separators: putting them back gives the phrase. */
  lemma {:induction false} SplitRoundTrip(s: string)
    ensures |SplitItems(s)| == |Separators(s)| + 1
    ensures Interleave(SplitItems(s), Separators(s)) == s
    decreases |s|
  {
    if s == [] {
    } else if s[0] == ',' {
      SplitRoundTrip(s[1..]);
      InterleaveSeparator(SplitItems(s[1..]), Separators(s[1..]), ",");
      assert s == "," + s[1..];
    } else if |s| >= 3 && s[..3] == "and" {
      SplitRoundTrip(s[3..]);
      InterleaveSeparator(SplitItems(s[3..]), Separators(s[3..]), "and");
      assert s == "and" + s[3..];
    } else {
      SplitRoundTrip(s[1..]);
      InterleaveCons(s[0], SplitItems(s[1..]), Separators(s[1..]));
      assert s == [s[0]] + s[1..];
    }
  }

  lemma InterleaveSeparator(parts: seq<string>, seps: seq<string>, sep: string)
    requires |parts| == |seps| + 1
    ensures Interleave([""] + parts, [sep] + seps) == sep + Interleave(parts, seps)
  {
    assert ([""] + parts)[1..] == parts;
    assert ([sep] + seps)[1..] == seps;
  }

  lemma InterleaveCons(c: char, parts: seq<string>, seps: seq<string>)
    requires |parts| == |seps| + 1
    ensures Interleave([[c] + parts[0]] + parts[1..], seps) == [c] + Interleave(parts, seps)
  {
    assert ([[c] + parts[0]] + parts[1..])[1..] == parts[1..];
  }

  /** `re.split` cuts inside words: "sandalwood" is read as "s" and "alwood". */
  lemma SplitInsideWord()
    ensures SplitItems("sandalwood") == ["s", "alwood"]
  {
    var w := "sandalwood";
    assert w[1..] == "andalwood";
    assert w[1..][..3] == "and";
    assert w[1..][3..] == "alwood";
    OneItem("alwood");
    assert w[..3] != "and" by {
      assert w[..3][0] == 's';
    }
    var rest := SplitItems(w[1..]);
    assert rest == [""] + SplitItems("alwood");
    assert SplitItems(w) == [[w[0]] + rest[0]] + rest[1..];
    assert [w[0]] + rest[0] == "s" && rest[1..] == ["alwood"];
  }

  /** "alwood" holds no separator. */
  lemma OneItem(t: string)
    requires t == "alwood"
    ensures SplitItems(t) == [t]
  {
    forall i | 0 <= i < |t|
      ensures !IsSeparatorAt(t, i)
    {
      if i + 3 <= |t| {
        assert t[i..i + 3][0] == t[i] && t[i..i + 3][1] == t[i + 1];
      }
    }
    NoSeparatorSplit(t);
  }

  /** A phrase with no separator is one item. */
  lemma {:induction false} NoSeparatorSplit(s: string)
    requires forall i :: 0 <= i < |s| ==> !IsSeparatorAt(s, i)
    ensures SplitItems(s) == [s]
    decreases |s|
  {
    if s != [] {
      assert !IsSeparatorAt(s, 0);
      forall i | 0 <= i < |s[1..]|
        ensures !IsSeparatorAt(s[1..], i)
      {
        assert !IsSeparatorAt(s, i + 1);
        if i + 3 <= |s[1..]| {
          assert s[1..][i..i + 3] == s[i + 1..i + 4];
        }
      }
      NoSeparatorSplit(s[1..]);
      assert [s[0]] + s[1..] == s;
    }
  }

  /** `[item.strip() for item in parts]`. */
  function StripAll(parts: seq<string>): (r: seq<string>)
    ensures |r| == |parts|
    ensures forall k :: 0 <= k < |parts| ==> r[k] == Strip(parts[k])
  {
    seq(|parts|, k requires 0 <= k < |parts| => Strip(parts[k]))
  }

  /** The stripped items of one captured phrase. */
  function ItemsOf(phrase: string): seq<string> {
    StripAll(SplitItems(phrase))
  }

  /** The items of all phrases, in order (`extend` over the matches). */
  function AllItems(phrases: seq<string>): (r: seq<string>)
    ensures forall x :: x in r <==> exists i :: 0 <= i < |phrases| && x in ItemsOf(phrases[i])
  {
    if phrases == [] then []
    else
      var tail := AllItems(phrases[1..]);
      forall x | x in tail
        ensures exists i :: 0 <= i < |phrases| && x in ItemsOf(phrases[i])
      {
        var i :| 0 <= i < |phrases[1..]| && x in ItemsOf(phrases[1..][i]);
        assert phrases[1..][i] == phrases[i + 1];
      }
      forall x | (exists i :: 0 <= i < |phrases| && x in ItemsOf(phrases[i])) && x !in ItemsOf(phrases[0])
        ensures x in tail
      {
        var i :| 0 <= i < |phrases| && x in ItemsOf(phrases[i]);
        assert i != 0;
        assert phrases[1..][i - 1] == phrases[i];
      }
      ItemsOf(phrases[0]) + tail
  }

  /** An item extracted from the phrases: non-empty, and one of the stripped pieces. */
  predicate Extracted(x: string, phrases: seq<string>) {
    x != [] && exists i :: 0 <= i < |phrases| && x in ItemsOf(phrases[i])
  }

  /** `list(set(s for s in items if s))` over the items of the phrases. */
  function Collect(phrases: seq<string>): (r: seq<string>)
    ensures NoDups(r)
    ensures forall x :: x in r <==> Extracted(x, phrases)
    ensures forall k :: 0 <= k < |r| ==> r[k] != []
  {
    var all := AllItems(phrases);
    var items := NonEmpty(all);
    var r := Dedup(items);
    forall x
      ensures x in r <==> x in items
    {
      assert x in r <==> x in Elems(r);
      assert x in items <==> x in Elems(items);
    }
    forall k | 0 <= k < |r|
      ensures r[k] != []
    {
      assert r[k] in r;
    }
    r
  }

  // ------------------------------------------------------ scent and style

  /** The result of `extract_scent_preferences`. */
  datatype Scents = Scents(favorites: seq<string>, dislikes: seq<string>)

  /** `extract_scent_preferences(message)`. `likes` and `dislikes` give the
      phrases the four like (dislike) patterns capture, pattern by pattern and
      match by match, in the text they are applied to; they see the message
      lower-cased. The two lists are computed independently. */
  function ExtractScentPreferences(message: string, likes: string -> seq<string>, dislikes: string -> seq<string>)
    : (r: Scents)
    ensures NoDups(r.favorites) && NoDups(r.dislikes)
    ensures forall x :: x in r.favorites <==> Extracted(x, likes(Lower(message)))
    ensures forall x :: x in r.dislikes <==> Extracted(x, dislikes(Lower(message)))
  {
    var text := Lower(message);
    Scents(Collect(likes(text)), Collect(dislikes(text)))
  }

  /** A phrase captured by both a like and a dislike pattern lands in both lists. */
  lemma LikedAndDisliked(message: string, likes: string -> seq<string>, dislikes: string -> seq<string>)
    requires likes(Lower(message)) == ["rose"] && dislikes(Lower(message)) == ["rose"]
    ensures var r := ExtractScentPreferences(message, likes, dislikes);
            "rose" in r.favorites && "rose" in r.dislikes
  {
    var w := "rose";
    forall i | 0 <= i < |w|
      ensures !IsSeparatorAt(w, i)
    {
      if i + 3 <= |w| {
        assert w[i..i + 3][0] == w[i];
      }
    }
    NoSeparatorSplit(w);
    StrippedIsFixed("rose");
    assert ItemsOf("rose") == ["rose"];
    assert Extracted("rose", ["rose"]);
  }

  const StyleMarker: string := "style is"

  /** `extract_style_preferences(message)`: nothing unless the message contains
      "style is" (case-sensitive); `found` gives what `re.findall` captures.
      Empty items are dropped but duplicates are kept. */
  function ExtractStylePreferences(message: string, found: string -> seq<string>): (r: seq<string>)
    ensures !Contains(message, StyleMarker) ==> r == []
    ensures forall k :: 0 <= k < |r| ==> r[k] != []
    ensures Contains(message, StyleMarker) ==> forall x :: x in r <==> Extracted(x, found(message))
  {
    if Contains(message, StyleMarker) then NonEmpty(AllItems(found(message))) else []
  }

  // ----------------------------------------------------------------- traits

  const TraitKeywords: seq<string> := [
    "creative", "adventurous", "calm", "outgoing", "introverted", "extroverted", "friendly", "ambitious",
    "thoughtful", "spontaneous", "organized", "curious", "empathetic", "optimistic", "realistic", "playful",
    "serious", "bold", "shy", "confident", "sensitive", "practical", "imaginative", "analytical"]

  /** `xs` lists some elements of `ys`, in the order of `ys`. */
  predicate Subsequence(xs: seq<string>, ys: seq<string>)
    decreases |ys|
  {
    if xs == [] then true
    else if ys == [] then false
    else if xs[0] == ys[0] then Subsequence(xs[1..], ys[1..])
    else Subsequence(xs, ys[1..])
  }

  /** A subsequence of the tail is a subsequence of the whole. */
  lemma {:induction false} SubsequenceDrop(xs: seq<string>, ys: seq<string>)
    requires ys != [] && Subsequence(xs, ys[1..])
    ensures Subsequence(xs, ys)
    decreases |xs| + |ys|
  {
    if xs != [] && xs[0] == ys[0] {
      SubsequenceTail(xs, ys[1..]);
    }
  }

  /** Dropping the first element keeps a subsequence. */
  lemma {:induction false} SubsequenceTail(xs: seq<string>, zs: seq<string>)
    requires xs != [] && Subsequence(xs, zs)
    ensures Subsequence(xs[1..], zs)
    decreases |xs| + |zs|
  {
    assert zs != [];
    if xs[0] == zs[0] {
      SubsequenceDrop(xs[1..], zs);
    } else {
      SubsequenceTail(xs, zs[1..]);
      SubsequenceDrop(xs[1..], zs);
    }
  }

  /** The keywords that satisfy `found`, in keyword order. */
  function FilterKeywords(keywords: seq<string>, found: string -> bool): (r: seq<string>)
    ensures Subsequence(r, keywords)
    ensures forall t :: t in r <==> t in keywords && found(t)
    ensures NoDups(keywords) ==> NoDups(r)
  {
    if keywords == [] then []
    else
      var tail := FilterKeywords(keywords[1..], found);
      assert forall t :: t in keywords[1..] ==> t in keywords;
      if found(keywords[0]) then
        assert NoDups(keywords) ==> keywords[0] !in keywords[1..];
        [keywords[0]] + tail
      else tail
  }

  /** Line 74 as written: the raw pattern `\\b<trait>\\b` asks, ignoring case, for
      a literal backslash and "b" on each side of the trait. */
  function ExtractPersonalityTraitsAsWritten(message: string): (r: seq<string>)
    ensures Subsequence(r, TraitKeywords)
    ensures forall t :: t in r <==> t in TraitKeywords && Contains(Lower(message), "\\b" + t + "\\b")
  {
    FilterKeywords(TraitKeywords, (t: string) => Contains(Lower(message), "\\b" + t + "\\b"))
  }

  /** Without a backslash in the message, line 74 finds no trait at all. */
  lemma NoBackslashNoTraits(message: string)
    requires '\\' !in message
    ensures ExtractPersonalityTraitsAsWritten(message) == []
  {
    assert forall i :: 0 <= i < |message| ==> Lower(message)[i] == LowerChar(message[i]) != '\\';
    var r := ExtractPersonalityTraitsAsWritten(message);
    forall t
      ensures !Contains(Lower(message), "\\b" + t + "\\b")
    {
      NoBackslashNoMatch(Lower(message), "\\b" + t + "\\b");
    }
  }

  /** A pattern that starts with a backslash does not occur in text without one. */
  lemma NoBackslashNoMatch(text: string, pattern: string)
    requires pattern != [] && pattern[0] == '\\'
    requires forall i :: 0 <= i < |text| ==> text[i] != '\\'
    ensures !Contains(text, pattern)
  {
    ContainsAt(text, pattern);
  }

  /** Python's `\w` restricted to ASCII. On `str` patterns Python's `\w`,
      and so `\b`, also admit non-ASCII letters and digits. */
  predicate IsWordChar(c: char) {
    ('a' <= c <= 'z') || ('A' <= c <= 'Z') || ('0' <= c <= '9') || c == '_'
  }

  /** `word` occurs in `text` at `i` with a word boundary on both sides. */
  predicate WholeWordAt(text: string, word: string, i: int) {
    && OccursAt(text, word, i)
    && (i == 0 || !IsWordChar(text[i - 1]))
    && (i + |word| == |text| || !IsWordChar(text[i + |word|]))
  }

  /** `re.search(rf"\b{word}\b", text)` for a word of word characters. */
  predicate HasWholeWord(text: string, word: string) {
    exists i :: 0 <= i <= |text| && WholeWordAt(text, word, i)
  }

  /** The evidently intended line 74: each trait matched as a whole word, ignoring case. */
  function ExtractPersonalityTraits(message: string): (r: seq<string>)
    ensures Subsequence(r, TraitKeywords)
    ensures forall t :: t in r <==> t in TraitKeywords && HasWholeWord(Lower(message), t)
  {
    FilterKeywords(TraitKeywords, (t: string) => HasWholeWord(Lower(message), t))
  }

  /** "I am Creative" names a trait: the intended matcher finds it, line 74 does not. */
  lemma CreativeMessage()
    ensures "creative" in ExtractPersonalityTraits("I am Creative")
    ensures ExtractPersonalityTraitsAsWritten("I am Creative") == []
  {
    CreativeIsWholeWord();
    assert TraitKeywords[0] == "creative";
    CreativeMissedAsWritten();
  }

  lemma CreativeMissedAsWritten()
    ensures ExtractPersonalityTraitsAsWritten("I am Creative") == []
  {
    var m := "I am Creative";
    assert '\\' !in m;
    NoBackslashNoTraits(m);
  }

  lemma LowerWord()
    ensures Lower("Creative") == "creative"
  {
    var r := Lower("Creative");
    assert r[0] == LowerChar('C') == 'c';
    assert forall k :: 1 <= k < 8 ==> r[k] == "Creative"[k] == "creative"[k];
  }

  lemma CreativeIsWholeWord()
    ensures HasWholeWord(Lower("I am Creative"), "creative")
  {
    var a, b := "I am ", "Creative";
    assert a + b == "I am Creative";
    LowerAppend(a, b);
    LowerWord();
    LowerEndsInSpace(a);
    WordAfterSpace(Lower(a), "creative");
  }

  lemma LowerEndsInSpace(a: string)
    requires a == "I am "
    ensures |Lower(a)| > 0 && Lower(a)[|Lower(a)| - 1] == ' '
  {
    assert Lower(a)[4] == LowerChar(a[4]);
  }

  /** A word right after a space, at the end of the text, is a whole word. */
  lemma WordAfterSpace(x: string, w: string)
    requires |x| > 0 && x[|x| - 1] == ' '
    ensures HasWholeWord(x + w, w)
  {
    SuffixOfAppend(x, w);
    assert (x + w)[|x| - 1] == ' ';
    assert WholeWordAt(x + w, w, |x|);
  }

  lemma SuffixOfAppend<T>(x: seq<T>, y: seq<T>)
    ensures (x + y)[|x|..|x| + |y|] == y
  {
  }
}
