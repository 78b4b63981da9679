/** A database table as a sequence of rows in storage order: `.first()` of a
    filtered query is the first matching row, `.delete()` of a filtered query
    keeps the others in order. */
module Table {
  import opened Wrappers

  /** No two rows share a primary key. */
  predicate UniqueKeys<R>(rows: seq<R>, key: R -> string) {
    forall i, j :: 0 <= i < j < |rows| ==> key(rows[i]) != key(rows[j])
  }

  predicate HasKey<R>(rows: seq<R>, key: R -> string, k: string) {
    exists i :: 0 <= i < |rows| && key(rows[i]) == k
  }

  /** Position of the first row satisfying `p`. */
  function IndexWhere<R>(rows: seq<R>, p: R -> bool): (r: Option<nat>)
    ensures r.Some? ==> r.value < |rows| && p(rows[r.value])
    ensures r.Some? ==> forall j :: 0 <= j < r.value ==> !p(rows[j])
    ensures r.None? <==> forall j :: 0 <= j < |rows| ==> !p(rows[j])
  {
    if rows == [] then None
    else if p(rows[0]) then Some(0)
    else match IndexWhere(rows[1..], p)
      case None => None
      case Some(i) => Some(i + 1)
  }

  /** Two tables whose rows agree on `p` position by position have the same first match. */
  lemma IndexWhereAgree<R>(a: seq<R>, b: seq<R>, p: R -> bool)
    requires |a| == |b|
    requires forall i :: 0 <= i < |a| ==> p(a[i]) == p(b[i])
    ensures IndexWhere(a, p) == IndexWhere(b, p)
  {
    var x, y := IndexWhere(a, p), IndexWhere(b, p);
    if x.Some? && y.Some? {
      assert !(x.value < y.value) && !(y.value < x.value);
    }
  }

  /** A row appended after rows none of which matches is the first match. */
  lemma IndexWhereAppend<R>(a: seq<R>, row: R, p: R -> bool)
    requires forall i :: 0 <= i < |a| ==> !p(a[i])
    requires p(row)
    ensures IndexWhere(a + [row], p) == Some(|a|)
  {
    assert (a + [row])[|a|] == row;
    forall i | 0 <= i < |a|
      ensures (a + [row])[i] == a[i]
    {
    }
  }

  /** `query.filter(p).first()`. */
  function FirstWhere<R>(rows: seq<R>, p: R -> bool): (r: Option<R>)
    ensures r.None? <==> forall j :: 0 <= j < |rows| ==> !p(rows[j])
    ensures r.Some? ==> exists i :: 0 <= i < |rows| && rows[i] == r.value && p(r.value)
  {
    match IndexWhere(rows, p)
    case None => None
    case Some(i) => Some(rows[i])
  }

  /** The row whose key is `k`, if any. */
  function Lookup<R>(rows: seq<R>, key: R -> string, k: string): (r: Option<R>)
    ensures r.None? <==> !HasKey(rows, key, k)
    ensures r.Some? ==> key(r.value) == k && exists i :: 0 <= i < |rows| && rows[i] == r.value
  {
    FirstWhere(rows, (x: R) => key(x) == k)
  }

  /** With unique keys, the row at index `i` is the one found under its key. */
  lemma LookupUnique<R>(rows: seq<R>, key: R -> string, i: nat)
    requires UniqueKeys(rows, key)
    requires i < |rows|
    ensures Lookup(rows, key, key(rows[i])) == Some(rows[i])
  {
    var r := Lookup(rows, key, key(rows[i]));
    var j :| 0 <= j < |rows| && rows[j] == r.value;
    assert key(rows[j]) == key(rows[i]);
  }

  /** With unique keys, equal keys mean the same position. */
  lemma KeyDeterminesIndex<R>(rows: seq<R>, key: R -> string, i: nat, j: nat)
    requires UniqueKeys(rows, key)
    requires i < |rows| && j < |rows|
    requires key(rows[i]) == key(rows[j])
    ensures i == j
  {
  }

  /** Every row whose key equals `row`'s is replaced by `row`; the others are kept in place. */
  function Replace<R>(rows: seq<R>, key: R -> string, row: R): (r: seq<R>)
    ensures |r| == |rows|
    ensures forall i :: 0 <= i < |rows| ==> r[i] == (if key(rows[i]) == key(row) then row else rows[i])
  {
    seq(|rows|, i requires 0 <= i < |rows| => if key(rows[i]) == key(row) then row else rows[i])
  }

  lemma ReplaceKeepsKeys<R>(rows: seq<R>, key: R -> string, row: R)
    requires UniqueKeys(rows, key)
    ensures UniqueKeys(Replace(rows, key, row), key)
    ensures forall i :: 0 <= i < |rows| ==> key(Replace(rows, key, row)[i]) == key(rows[i])
  {
  }

  /** The rows satisfying `p`, in their original order. */
  function Retain<R>(rows: seq<R>, p: R -> bool): (r: seq<R>)
    ensures |r| <= |rows|
    ensures forall x :: x in r ==> x in rows && p(x)
    ensures forall i :: 0 <= i < |rows| && p(rows[i]) ==> rows[i] in r
  {
    if rows == [] then []
    else (if p(rows[0]) then [rows[0]] else []) + Retain(rows[1..], p)
  }

  lemma {:induction false} RetainKeepsUnique<R>(rows: seq<R>, key: R -> string, p: R -> bool)
    requires UniqueKeys(rows, key)
    ensures UniqueKeys(Retain(rows, p), key)
    decreases |rows|
  {
    if rows != [] {
      RetainKeepsUnique(rows[1..], key, p);
      var tail := Retain(rows[1..], p);
      forall x | x in tail
        ensures key(x) != key(rows[0])
      {
        var j :| 0 <= j < |rows[1..]| && rows[1..][j] == x;
        assert rows[j + 1] == x;
      }
    }
  }

  lemma AppendFreshKeepsUnique<R>(rows: seq<R>, key: R -> string, row: R)
    requires UniqueKeys(rows, key)
    requires !HasKey(rows, key, key(row))
    ensures UniqueKeys(rows + [row], key)
  {
  }
}
