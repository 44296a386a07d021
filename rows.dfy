/**
 * The parts of SQL query semantics the services rely on, over rows kept in
 * table order: `ORDER BY` as a stable sort by a total preorder (Postgres
 * leaves the order of ties unspecified; this model keeps them in table
 * order), `LIMIT n`, gorm's `Offset(o).Limit(l)` and a raw `LIMIT ? OFFSET ?`.
 */
module Rows {
  import opened Wrappers

  // ---------------------------------------------------------------- ORDER BY

  ghost predicate IsTotalPreorder<T(!new)>(le: (T, T) -> bool)
  {
    (forall x, y :: le(x, y) || le(y, x)) &&
    (forall x, y, z :: le(x, y) && le(y, z) ==> le(x, z))
  }

  ghost predicate SortedBy<T>(s: seq<T>, le: (T, T) -> bool)
  {
    forall i, j :: 0 <= i < j < |s| ==> le(s[i], s[j])
  }

  /** Puts `x` before the first element it may precede. */
  function InsertBy<T>(x: T, s: seq<T>, le: (T, T) -> bool): (r: seq<T>)
    ensures |r| == |s| + 1
    ensures multiset(r) == multiset(s) + multiset{x}
  {
    if |s| == 0 then [x]
    else if le(x, s[0]) then [x] + s
    else
      assert s == [s[0]] + s[1..];
      [s[0]] + InsertBy(x, s[1..], le)
  }

  /** A stable insertion sort: the rows of `s` ordered by `le`, ties in their original order. */
  function SortBy<T>(s: seq<T>, le: (T, T) -> bool): (r: seq<T>)
    ensures |r| == |s|
    ensures multiset(r) == multiset(s)
  {
    if |s| == 0 then []
    else
      assert s == [s[0]] + s[1..];
      InsertBy(s[0], SortBy(s[1..], le), le)
  }

  lemma {:induction false} InsertBySorted<T(!new)>(x: T, s: seq<T>, le: (T, T) -> bool)
    requires IsTotalPreorder(le) && SortedBy(s, le)
    ensures SortedBy(InsertBy(x, s, le), le)
  {
    if |s| > 0 {
      if le(x, s[0]) {
        assert forall j :: 0 <= j < |s| ==> le(x, s[j]);
      } else {
        var rest := InsertBy(x, s[1..], le);
        InsertBySorted(x, s[1..], le);
        forall j | 0 <= j < |rest|
          ensures le(s[0], rest[j])
        {
          assert rest[j] in multiset(rest);
          assert rest[j] == x || rest[j] in multiset(s[1..]);
          if rest[j] != x {
            var k :| 0 <= k < |s[1..]| && s[1..][k] == rest[j];
            assert s[k + 1] == rest[j];
          }
        }
      }
    }
  }

  /** The result of `SortBy` is ordered by `le`. */
  lemma {:induction false} SortBySorted<T(!new)>(s: seq<T>, le: (T, T) -> bool)
    requires IsTotalPreorder(le)
    ensures SortedBy(SortBy(s, le), le)
  {
    if |s| > 0 {
      SortBySorted(s[1..], le);
      InsertBySorted(s[0], SortBy(s[1..], le), le);
    }
  }

  // ---------------------------------------------------------------- LIMIT / OFFSET

  function Min(x: int, y: int): int
  {
    if x <= y then x else y
  }

  /** `LIMIT n`: the first `n` rows, or all of them when there are fewer. */
  function Take<T>(s: seq<T>, n: nat): (r: seq<T>)
    ensures |r| == Min(n, |s|)
    ensures forall i :: 0 <= i < |r| ==> r[i] == s[i]
  {
    if n <= |s| then s[..n] else s
  }

  /**
   * gorm's `Offset(offset).Limit(limit)`: the offset is emitted only when it
   * is positive and the limit only when it is not negative, so a negative
   * value means "none".
   */
  function Page<T>(s: seq<T>, offset: int, limit: int): (r: seq<T>)
    ensures var skip := if offset > 0 then Min(offset, |s|) else 0;
            && |r| == (if limit >= 0 then Min(limit, |s| - skip) else |s| - skip)
            && r == s[skip..skip + |r|]
  {
    var rest := if offset > 0 then (if offset <= |s| then s[offset..] else []) else s;
    if limit >= 0 then Take(rest, limit) else rest
  }

  /** A raw `LIMIT limit OFFSET offset`; Postgres refuses a negative value (None). */
  function RawPage<T>(s: seq<T>, limit: int, offset: int): (r: Option<seq<T>>)
    ensures r.None? <==> limit < 0 || offset < 0
    ensures r.Some? ==> |r.value| == Min(limit, |s| - Min(offset, |s|))
    ensures r.Some? ==> forall i :: 0 <= i < |r.value| ==> r.value[i] == s[offset + i]
  {
    if limit < 0 || offset < 0 then None
    else Some(Take(if offset <= |s| then s[offset..] else [], limit))
  }

  // ---------------------------------------------------------------- WHERE

  /** `WHERE p`: the rows satisfying `p`, in table order. */
  function Filter<T(!new)>(s: seq<T>, p: T -> bool): (r: seq<T>)
    ensures |r| <= |s|
    ensures forall x :: x in r <==> x in s && p(x)
    ensures (forall x :: x in s ==> !p(x)) ==> r == []
  {
    if |s| == 0 then []
    else
      var rest := Filter(s[..|s| - 1], p);
      assert forall x :: x in s <==> x in s[..|s| - 1] || x == s[|s| - 1];
      if p(s[|s| - 1]) then rest + [s[|s| - 1]] else rest
  }

  /** The position of the first row satisfying `p`: `First()` after a `WHERE`, in table order. */
  function FirstWhere<T>(s: seq<T>, p: T -> bool): (r: Option<nat>)
    ensures r.Some? ==> r.value < |s| && p(s[r.value]) && forall j :: 0 <= j < r.value ==> !p(s[j])
    ensures r.None? ==> forall j :: 0 <= j < |s| ==> !p(s[j])
  {
    if |s| == 0 then None
    else if p(s[0]) then Some(0)
    else
      var rest := FirstWhere(s[1..], p);
      if rest.Some? then Some(rest.value + 1) else None
  }

  /** The first row satisfying `p`; None is gorm's `ErrRecordNotFound`. */
  function First<T>(s: seq<T>, p: T -> bool): (r: Option<T>)
    ensures r.Some? ==> r.value in s && p(r.value)
    ensures r.None? ==> forall x :: x in s ==> !p(x)
  {
    var pos := FirstWhere(s, p);
    if pos.Some? then Some(s[pos.value]) else None
  }

  /** `SELECT f(row)`: each row mapped, in order. */
  function Map<T, U>(s: seq<T>, f: T -> U): (r: seq<U>)
    ensures |r| == |s|
    ensures forall i :: 0 <= i < |s| ==> r[i] == f(s[i])
  {
    seq(|s|, i requires 0 <= i < |s| => f(s[i]))
  }

  // ---------------------------------------------------------------- facts

  lemma SortByMembers<T>(s: seq<T>, le: (T, T) -> bool, x: T)
    ensures x in SortBy(s, le) <==> x in s
  {
    assert x in SortBy(s, le) <==> x in multiset(SortBy(s, le));
    assert x in s <==> x in multiset(s);
  }

  /** A page is a window of the list: row `i` of the page is row `skip + i` of the list. */
  lemma PageWindow<T>(s: seq<T>, offset: int, limit: int)
    ensures var skip := if offset > 0 then Min(offset, |s|) else 0;
            && skip + |Page(s, offset, limit)| <= |s|
            && forall i :: 0 <= i < |Page(s, offset, limit)| ==> Page(s, offset, limit)[i] == s[skip + i]
  {
  }

  /** A page of a sorted list is sorted. */
  lemma PageOfSorted<T>(s: seq<T>, le: (T, T) -> bool, offset: int, limit: int)
    requires SortedBy(s, le)
    ensures SortedBy(Page(s, offset, limit), le)
  {
    var skip := if offset > 0 then Min(offset, |s|) else 0;
    var r := Page(s, offset, limit);
    WindowSorted(s, le, skip, skip + |r|);
  }

  /** A window of consecutive rows of a sorted list is sorted. */
  lemma WindowSorted<T>(s: seq<T>, le: (T, T) -> bool, lo: nat, hi: nat)
    requires SortedBy(s, le)
    requires lo <= hi <= |s|
    ensures SortedBy(s[lo..hi], le)
  {
    var r := s[lo..hi];
    forall i, j | 0 <= i < j < |r|
      ensures le(r[i], r[j])
    {
      assert r[i] == s[lo + i] && r[j] == s[lo + j];
    }
  }

  /** A page holds only rows of the list. */
  lemma PageMembers<T>(s: seq<T>, offset: int, limit: int, x: T)
    requires x in Page(s, offset, limit)
    ensures x in s
  {
    var r := Page(s, offset, limit);
    var skip := if offset > 0 then Min(offset, |s|) else 0;
    PageWindow(s, offset, limit);
    var i :| 0 <= i < |r| && r[i] == x;
    assert r[i] == s[skip + i];
  }

  /** Without an offset and with no limit, or one as large as the list, the page is the whole list. */
  lemma PageOfAll<T>(s: seq<T>, offset: int, limit: int)
    requires offset <= 0 && (limit < 0 || limit >= |s|)
    ensures Page(s, offset, limit) == s
  {
  }
}
