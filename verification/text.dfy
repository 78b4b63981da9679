/** String operations of Python's `str` that the services rely on: `lower`, `strip`,
    `in` (substring test), `count`, `join`, and de-duplication through `set`.
    Characters are treated as ASCII: `Lower` maps only 'A'..'Z', and `IsSpace`
    recognises only the ASCII whitespace that `str.strip()` removes. */
module Text {

  /** The ASCII characters for which Python's `str.isspace()` holds. */
  predicate IsSpace(c: char) {
    c == ' ' || c == '\t' || c == '\n' || c == '\r' || c == '\U{B}' || c == '\U{C}'
    || ('\U{1C}' <= c <= '\U{1F}')
  }

  function LowerChar(c: char): (r: char)
    ensures 'A' <= c <= 'Z' ==> r as int == c as int + 32
    ensures !('A' <= c <= 'Z') ==> r == c
  {
    if 'A' <= c <= 'Z' then (c as int + 32) as char else c
  }

  /** `s.lower()` over ASCII. */
  function Lower(s: string): (r: string)
    ensures |r| == |s|
    ensures forall i :: 0 <= i < |s| ==> r[i] == LowerChar(s[i])
  {
    if s == [] then [] else [LowerChar(s[0])] + Lower(s[1..])
  }

  lemma LowerIdempotent(s: string)
    ensures Lower(Lower(s)) == Lower(s)
  {
    assert forall i :: 0 <= i < |s| ==> LowerChar(LowerChar(s[i])) == LowerChar(s[i]);
  }

  lemma LowerAppend(a: string, b: string)
    ensures Lower(a + b) == Lower(a) + Lower(b)
  {
  }

  lemma LowerSlice(s: string, i: nat, j: nat)
    requires i <= j <= |s|
    ensures Lower(s[i..j]) == Lower(s)[i..j]
  {
  }

  /** Lower-casing never turns a space into a non-space or back. */
  lemma LowerKeepsSpaces(c: char)
    ensures IsSpace(LowerChar(c)) <==> IsSpace(c)
  {
  }

  // ---------------------------------------------------------------- strip

  function TrimLeft(s: string): (r: string)
    ensures |r| <= |s| && r == s[|s| - |r|..]
    ensures r != [] ==> !IsSpace(r[0])
    ensures forall i :: 0 <= i < |s| - |r| ==> IsSpace(s[i])
    decreases |s|
  {
    if s != [] && IsSpace(s[0]) then TrimLeft(s[1..]) else s
  }

  function TrimRight(s: string): (r: string)
    ensures |r| <= |s| && r == s[..|r|]
    ensures r != [] ==> !IsSpace(r[|r| - 1])
    ensures forall i :: |r| <= i < |s| ==> IsSpace(s[i])
    decreases |s|
  {
    if s != [] && IsSpace(s[|s| - 1]) then TrimRight(s[..|s| - 1]) else s
  }

  /** `r` is `s[a..b]` and everything of `s` outside that window is whitespace. */
  predicate TrimmedTo(s: string, a: int, b: int, r: string) {
    && 0 <= a <= b <= |s| && r == s[a..b]
    && (forall i :: 0 <= i < a ==> IsSpace(s[i]))
    && (forall i :: b <= i < |s| ==> IsSpace(s[i]))
  }

  /** `s.strip()`: the infix left after removing leading and trailing whitespace. */
  function Strip(s: string): (r: string)
    ensures |r| <= |s|
    ensures r != [] ==> !IsSpace(r[0]) && !IsSpace(r[|r| - 1])
    ensures exists a, b :: TrimmedTo(s, a, b, r)
  {
    var r := TrimRight(TrimLeft(s));
    TrimWindow(s);
    assert TrimmedTo(s, |s| - |TrimLeft(s)|, |s| - |TrimLeft(s)| + |r|, r);
    r
  }

  lemma TrimWindow(s: string)
    ensures TrimmedTo(s, |s| - |TrimLeft(s)|, |s| - |TrimLeft(s)| + |TrimRight(TrimLeft(s))|,
                      TrimRight(TrimLeft(s)))
  {
    var left := TrimLeft(s);
    var a := |s| - |left|;
    var r := TrimRight(left);
    var b := a + |r|;
    assert left == s[a..];
    assert r == left[..|r|];
    assert r == s[a..b];
    forall i | b <= i < |s|
      ensures IsSpace(s[i])
    {
      assert s[i] == left[i - a];
    }
  }

  /** A stripped string carries no surrounding whitespace. */
  predicate IsStripped(s: string) {
    s == [] || (!IsSpace(s[0]) && !IsSpace(s[|s| - 1]))
  }

  lemma StrippedIsFixed(s: string)
    requires IsStripped(s)
    ensures Strip(s) == s
  {
  }

  lemma StripIdempotent(s: string)
    ensures Strip(Strip(s)) == Strip(s)
  {
    StrippedIsFixed(Strip(s));
  }

  lemma {:induction false} TrimLeftLower(s: string)
    ensures TrimLeft(Lower(s)) == Lower(TrimLeft(s))
    decreases |s|
  {
    if s != [] {
      LowerKeepsSpaces(s[0]);
      if IsSpace(s[0]) {
        assert Lower(s)[1..] == Lower(s[1..]);
        TrimLeftLower(s[1..]);
      }
    }
  }

  lemma {:induction false} TrimRightLower(s: string)
    ensures TrimRight(Lower(s)) == Lower(TrimRight(s))
    decreases |s|
  {
    if s != [] {
      LowerKeepsSpaces(s[|s| - 1]);
      if IsSpace(s[|s| - 1]) {
        LowerSlice(s, 0, |s| - 1);
        assert Lower(s)[..|s| - 1] == Lower(s[..|s| - 1]);
        TrimRightLower(s[..|s| - 1]);
      }
    }
  }

  /** `s.lower().strip()` and `s.strip().lower()` agree. */
  lemma StripLowerCommute(s: string)
    ensures Strip(Lower(s)) == Lower(Strip(s))
  {
    TrimLeftLower(s);
    TrimRightLower(TrimLeft(s));
  }

  /** The cleaning step `x.lower().strip()` is idempotent. */
  lemma CleanIdempotent(s: string)
    ensures Strip(Lower(Strip(Lower(s)))) == Strip(Lower(s))
  {
    StripLowerCommute(Strip(Lower(s)));
    StripIdempotent(Lower(s));
    StripLowerCommute(s);
    LowerIdempotent(Strip(s));
  }

  // ------------------------------------------------------------- substrings

  predicate StartsWith(s: string, prefix: string) {
    |prefix| <= |s| && s[..|prefix|] == prefix
  }

  /** Python's `pattern in text`. */
  predicate Contains(text: string, pattern: string)
    decreases |text|
  {
    StartsWith(text, pattern) || (text != [] && Contains(text[1..], pattern))
  }

  /** `pattern` occurs in `text` starting at index `i`. */
  predicate OccursAt(text: string, pattern: string, i: int) {
    0 <= i <= |text| - |pattern| && text[i..i + |pattern|] == pattern
  }

  /** `Contains` agrees with the positional definition of a substring. */
  lemma {:induction false} ContainsAt(text: string, pattern: string)
    ensures Contains(text, pattern) <==> exists i :: OccursAt(text, pattern, i)
    decreases |text|
  {
    if StartsWith(text, pattern) {
      assert OccursAt(text, pattern, 0);
    }
    if text != [] {
      ContainsAt(text[1..], pattern);
      if !StartsWith(text, pattern) && Contains(text[1..], pattern) {
        var i :| OccursAt(text[1..], pattern, i);
        assert text[i + 1..i + 1 + |pattern|] == text[1..][i..i + |pattern|];
        assert OccursAt(text, pattern, i + 1);
      }
      if exists i :: OccursAt(text, pattern, i) {
        var i :| OccursAt(text, pattern, i);
        if i > 0 {
          assert text[1..][i - 1..i - 1 + |pattern|] == text[i..i + |pattern|];
          assert OccursAt(text[1..], pattern, i - 1);
        } else {
          assert StartsWith(text, pattern);
        }
      }
    } else {
      if exists i :: OccursAt(text, pattern, i) {
        var i :| OccursAt(text, pattern, i);
        assert StartsWith(text, pattern);
      }
    }
  }

  /** Python's `text.count(pattern)`: non-overlapping occurrences scanned from the left. */
  function Occurrences(text: string, pattern: string): (n: nat)
    ensures pattern == [] ==> n == |text| + 1
    ensures pattern != [] ==> n * |pattern| <= |text|
    ensures pattern != [] ==> (n == 0 <==> !Contains(text, pattern))
    decreases |text|
  {
    if pattern == [] then |text| + 1
    else if |text| < |pattern| then
      assert !Contains(text, pattern) by { NoRoomNoMatch(text, pattern); }
      0
    else if text[..|pattern|] == pattern then
      var k := Occurrences(text[|pattern|..], pattern);
      MulSucc(k, |pattern|);
      assert Contains(text, pattern);
      1 + k
    else
      assert Contains(text, pattern) <==> Contains(text[1..], pattern);
      Occurrences(text[1..], pattern)
  }

  /** Positions of non-overlapping occurrences of `pattern`, left to right. */
  predicate Placement(text: string, pattern: string, ps: seq<int>) {
    && (forall k :: 0 <= k < |ps| ==> OccursAt(text, pattern, ps[k]))
    && Spaced(|pattern|, ps)
  }

  /** Each position lies at least `width` after the one before it. */
  predicate Spaced(width: nat, ps: seq<int>) {
    forall k :: 0 <= k < |ps| - 1 ==> ps[k] + width <= ps[k + 1]
  }

  function Shift(ps: seq<int>, d: int): (r: seq<int>)
    ensures |r| == |ps|
    ensures forall k :: 0 <= k < |ps| ==> r[k] == ps[k] + d
  {
    if ps == [] then [] else [ps[0] + d] + Shift(ps[1..], d)
  }

  /** An occurrence in a suffix is an occurrence in the whole text. */
  lemma OccursInSuffix(text: string, pattern: string, d: nat, i: int)
    requires d <= |text|
    requires 0 <= i
    ensures OccursAt(text[d..], pattern, i) <==> OccursAt(text, pattern, i + d)
  {
    if i <= |text| - d - |pattern| {
      assert text[d..][i..i + |pattern|] == text[i + d..i + d + |pattern|];
    }
  }

  /** A placement in a suffix, shifted back, is a placement in the text. */
  lemma ShiftPlacement(text: string, pattern: string, d: nat, ps: seq<int>)
    requires d <= |text|
    requires forall k :: 0 <= k < |ps| ==> 0 <= ps[k]
    ensures Placement(text[d..], pattern, ps) <==> Placement(text, pattern, Shift(ps, d))
  {
    ShiftOccurs(text, pattern, d, ps, Shift(ps, d));
    ShiftSpaced(|pattern|, d, ps);
  }

  lemma ShiftOccurs(text: string, pattern: string, d: nat, ps: seq<int>, q: seq<int>)
    requires d <= |text|
    requires |q| == |ps|
    requires forall k :: 0 <= k < |ps| ==> 0 <= ps[k] && q[k] == ps[k] + d
    ensures forall k :: 0 <= k < |ps| ==>
              (OccursAt(text[d..], pattern, ps[k]) <==> OccursAt(text, pattern, q[k]))
  {
    forall k | 0 <= k < |ps|
      ensures OccursAt(text[d..], pattern, ps[k]) <==> OccursAt(text, pattern, q[k])
    {
      OccursInSuffix(text, pattern, d, ps[k]);
    }
  }

  lemma ShiftSpaced(width: nat, d: int, ps: seq<int>)
    ensures Spaced(width, ps) <==> Spaced(width, Shift(ps, d))
  {
    var q := Shift(ps, d);
    forall k | 0 <= k < |ps| - 1
      ensures ps[k] + width <= ps[k + 1] <==> q[k] + width <= q[k + 1]
    {
    }
  }

  /** The occurrences the left-to-right scan of `count` takes. */
  function Greedy(text: string, pattern: string): (ps: seq<int>)
    requires pattern != []
    decreases |text|
  {
    if |text| < |pattern| then []
    else if text[..|pattern|] == pattern then [0] + Shift(Greedy(text[|pattern|..], pattern), |pattern|)
    else Shift(Greedy(text[1..], pattern), 1)
  }

  /** The scan finds `count` non-overlapping occurrences. */
  lemma {:induction false} CountIsAttained(text: string, pattern: string)
    requires pattern != []
    ensures Placement(text, pattern, Greedy(text, pattern))
    ensures |Greedy(text, pattern)| == Occurrences(text, pattern)
    decreases |text|
  {
    if |text| < |pattern| {
    } else if text[..|pattern|] == pattern {
      var rest := Greedy(text[|pattern|..], pattern);
      CountIsAttained(text[|pattern|..], pattern);
      ShiftPlacement(text, pattern, |pattern|, rest);
      var q := Shift(rest, |pattern|);
      var ps := [0] + q;
      assert OccursAt(text, pattern, 0);
      forall k | 0 <= k < |ps| - 1
        ensures ps[k] + |pattern| <= ps[k + 1]
      {
        if k > 0 {
          assert ps[k] == q[k - 1] && ps[k + 1] == q[k];
        } else {
          assert ps[1] == rest[0] + |pattern|;
          OccursInSuffix(text, pattern, |pattern|, rest[0]);
        }
      }
    } else {
      var rest := Greedy(text[1..], pattern);
      CountIsAttained(text[1..], pattern);
      ShiftPlacement(text, pattern, 1, rest);
    }
  }

  /** No choice of non-overlapping occurrences outnumbers `count`: the count
      is the greatest number of them. */
  lemma {:induction false} CountIsGreatest(text: string, pattern: string, ps: seq<int>)
    requires pattern != []
    requires Placement(text, pattern, ps)
    ensures |ps| <= Occurrences(text, pattern)
    decreases |text|
  {
    if |text| < |pattern| {
      assert |ps| > 0 ==> OccursAt(text, pattern, ps[0]);
    } else if ps == [] {
    } else if text[..|pattern|] == pattern {
      var tail := AfterFirst(text, pattern, ps);
      CountIsGreatest(text[|pattern|..], pattern, tail);
    } else {
      var tail := AfterNone(text, pattern, ps);
      CountIsGreatest(text[1..], pattern, tail);
    }
  }

  /** When the text starts with the pattern, the occurrences after the first
      one of a placement form a placement in the rest of the text. */
  lemma AfterFirst(text: string, pattern: string, ps: seq<int>) returns (tail: seq<int>)
    requires pattern != [] && |pattern| <= |text|
    requires ps != []
    requires Placement(text, pattern, ps)
    ensures |tail| == |ps| - 1
    ensures Placement(text[|pattern|..], pattern, tail)
  {
    var t := ps[1..];
    tail := Shift(t, -|pattern|);
    PlacementTail(text, pattern, ps);
    assert 0 <= ps[0] by { assert OccursAt(text, pattern, ps[0]); }
    if t != [] {
      SpacedAscends(|pattern|, t);
      assert ps[0] + |pattern| <= t[0];
    }
    forall k | 0 <= k < |tail|
      ensures 0 <= tail[k]
    {
      assert tail[k] == t[k] - |pattern| && t[0] <= t[k];
    }
    assert Shift(tail, |pattern|) == t;
    ShiftPlacement(text, pattern, |pattern|, tail);
  }

  /** When no occurrence starts the text, a placement shifted one to the left
      is a placement in the text without its first character. */
  lemma AfterNone(text: string, pattern: string, ps: seq<int>) returns (tail: seq<int>)
    requires pattern != [] && |pattern| <= |text|
    requires text[..|pattern|] != pattern
    requires Placement(text, pattern, ps)
    ensures |tail| == |ps|
    ensures Placement(text[1..], pattern, tail)
  {
    tail := Shift(ps, -1);
    if ps != [] {
      SpacedAscends(|pattern|, ps);
      assert OccursAt(text, pattern, ps[0]);
      assert ps[0] != 0;
    }
    assert Shift(tail, 1) == ps;
    ShiftPlacement(text, pattern, 1, tail);
  }

  lemma PlacementTail(text: string, pattern: string, ps: seq<int>)
    requires ps != []
    requires Placement(text, pattern, ps)
    ensures Placement(text, pattern, ps[1..])
  {
    SpacedTail(|pattern|, ps);
  }

  lemma SpacedTail(width: nat, ps: seq<int>)
    requires ps != []
    requires Spaced(width, ps)
    ensures Spaced(width, ps[1..])
  {
    var t := ps[1..];
    forall k | 0 <= k < |t| - 1
      ensures t[k] + width <= t[k + 1]
    {
      assert t[k] == ps[k + 1] && t[k + 1] == ps[k + 2];
    }
  }

  /** Positions of a spaced sequence grow from the first. */
  lemma {:induction false} SpacedAscends(width: nat, ps: seq<int>)
    requires Spaced(width, ps)
    ensures forall k :: 0 <= k < |ps| ==> ps[0] <= ps[k]
    decreases |ps|
  {
    if |ps| > 1 {
      SpacedTail(width, ps);
      SpacedAscends(width, ps[1..]);
      forall k | 0 <= k < |ps|
        ensures ps[0] <= ps[k]
      {
        if k > 0 {
          assert ps[k] == ps[1..][k - 1];
        }
      }
    }
  }

  lemma MulSucc(k: nat, p: nat)
    ensures (1 + k) * p == p + k * p
  {
  }

  lemma {:induction false} NoRoomNoMatch(text: string, pattern: string)
    requires |text| < |pattern|
    ensures !Contains(text, pattern)
    decreases |text|
  {
    if text != [] {
      NoRoomNoMatch(text[1..], pattern);
    }
  }

  // ------------------------------------------------------------- joining

  /** `"".join(parts)`. */
  function Concat(parts: seq<string>): (r: string)
    ensures |parts| == 0 ==> r == []
  {
    if parts == [] then [] else parts[0] + Concat(parts[1..])
  }

  lemma {:induction false} ConcatAppend(a: seq<string>, b: seq<string>)
    ensures Concat(a + b) == Concat(a) + Concat(b)
    decreases |a|
  {
    if a != [] {
      assert (a + b)[1..] == a[1..] + b;
      ConcatAppend(a[1..], b);
      calc {
        Concat(a + b);
        (a + b)[0] + Concat((a + b)[1..]);
        a[0] + (Concat(a[1..]) + Concat(b));
        (a[0] + Concat(a[1..])) + Concat(b);
      }
    } else {
      assert a + b == b;
    }
  }

  lemma ConcatSnoc(a: seq<string>, s: string)
    ensures Concat(a + [s]) == Concat(a) + s
  {
    ConcatAppend(a, [s]);
  }

  /** The non-empty strings of `parts`, in order (`[s for s in parts if s]`). */
  function NonEmpty(parts: seq<string>): (r: seq<string>)
    ensures forall k :: 0 <= k < |r| ==> r[k] != []
    ensures forall x :: x in r <==> x in parts && x != []
    ensures Concat(r) == Concat(parts)
  {
    if parts == [] then []
    else if parts[0] == [] then NonEmpty(parts[1..])
    else [parts[0]] + NonEmpty(parts[1..])
  }

  /** `sep.join(parts)`. */
  function Join(sep: string, parts: seq<string>): (r: string)
    ensures |parts| == 1 ==> r == parts[0]
    ensures |parts| == 0 ==> r == []
  {
    if parts == [] then []
    else if |parts| == 1 then parts[0]
    else parts[0] + sep + Join(sep, parts[1..])
  }

  lemma JoinSnoc(sep: string, parts: seq<string>, s: string)
    requires parts != []
    ensures Join(sep, parts + [s]) == Join(sep, parts) + sep + s
    decreases |parts|
  {
    if |parts| > 1 {
      assert (parts + [s])[1..] == parts[1..] + [s];
      JoinSnoc(sep, parts[1..], s);
    }
  }

  // ------------------------------------------------------------ set views

  predicate NoDups<T(==)>(s: seq<T>) {
    forall i, j :: 0 <= i < j < |s| ==> s[i] != s[j]
  }

  function Elems<T>(s: seq<T>): set<T> {
    set x | x in s
  }

  /** `list(set(s))`: the distinct elements of `s`. Python leaves the order of the
      result unspecified; this model keeps first occurrences, and no property below
      depends on that order. */
  function Dedup<T(==)>(s: seq<T>): (r: seq<T>)
    ensures NoDups(r)
    ensures Elems(r) == Elems(s)
    ensures |r| <= |s|
  {
    if s == [] then []
    else
      var rest := Dedup(s[..|s| - 1]);
      assert Elems(s) == Elems(s[..|s| - 1]) + {s[|s| - 1]} by {
        assert s == s[..|s| - 1] + [s[|s| - 1]];
      }
      if s[|s| - 1] in rest then rest else rest + [s[|s| - 1]]
  }

  /** `list(set(a) | set(b))` and `list(set(a + b))`: the merge used for list-valued preferences. */
  function UnionList<T(==)>(a: seq<T>, b: seq<T>): (r: seq<T>)
    ensures NoDups(r)
    ensures Elems(r) == Elems(a) + Elems(b)
  {
    assert Elems(a + b) == Elems(a) + Elems(b) by {
      forall x | x in a + b ensures x in a || x in b { }
    }
    Dedup(a + b)
  }
}
