/**
 * The order of a book's picks. Each pick carries an `index`, its position in
 * the book; the book service keeps the indices of a book's picks equal to
 * `0..n-1` when it appends, inserts and deletes, through the SQL updates
 * modelled here as `ShiftUp` and `ShiftDown`.
 */
module PickOrder {
  import opened Wrappers
  import opened Uuids
  import opened Domain

  /** The number of picks of book `b`. */
  function CountIn(ps: seq<Pick>, b: Id): nat
  {
    if |ps| == 0 then 0
    else CountIn(ps[..|ps| - 1], b) + (if ps[|ps| - 1].bookId == b then 1 else 0)
  }

  /** The picks of book `b`, in table order. */
  function PicksOf(ps: seq<Pick>, b: Id): (r: seq<Pick>)
    ensures |r| == CountIn(ps, b)
    ensures forall p :: p in r <==> p in ps && p.bookId == b
  {
    if |ps| == 0 then []
    else
      var rest := PicksOf(ps[..|ps| - 1], b);
      assert forall p :: p in ps <==> p in ps[..|ps| - 1] || p == ps[|ps| - 1];
      if ps[|ps| - 1].bookId == b then rest + [ps[|ps| - 1]] else rest
  }

  /** Some pick of book `b` has index `k`. */
  ghost predicate HasIndex(ps: seq<Pick>, b: Id, k: nat)
  {
    exists i :: 0 <= i < |ps| && ps[i].bookId == b && ps[i].index == k
  }

  /**
   * The indices of book `b`'s picks are exactly `0..n-1`, each used once,
   * where `n` is the number of its picks.
   */
  ghost predicate Contiguous(ps: seq<Pick>, b: Id)
  {
    var n := CountIn(ps, b);
    && (forall i :: 0 <= i < |ps| && ps[i].bookId == b ==> ps[i].index < n)
    && (forall i, j :: 0 <= i < j < |ps| && ps[i].bookId == b && ps[j].bookId == b ==> ps[i].index != ps[j].index)
    && (forall k: nat :: k < n ==> HasIndex(ps, b, k))
  }

  /** The greatest index among book `b`'s picks; None when it has none. */
  function MaxIndex(ps: seq<Pick>, b: Id): Option<nat>
  {
    if |ps| == 0 then None
    else
      var m := MaxIndex(ps[..|ps| - 1], b);
      var last := ps[|ps| - 1];
      if last.bookId != b then m
      else if m.Some? && m.value >= last.index then m
      else Some(last.index)
  }

  /** `UPDATE book_picks SET index = index + 1 WHERE book_id = b AND index >= k`. */
  function ShiftUp(ps: seq<Pick>, b: Id, k: nat): (r: seq<Pick>)
    ensures |r| == |ps|
  {
    seq(|ps|, i requires 0 <= i < |ps| =>
      if ps[i].bookId == b && ps[i].index >= k then ps[i].(index := ps[i].index + 1) else ps[i])
  }

  /** `UPDATE book_picks SET index = index - 1 WHERE book_id = b AND index > k`. */
  function ShiftDown(ps: seq<Pick>, b: Id, k: nat): (r: seq<Pick>)
    ensures |r| == |ps|
  {
    seq(|ps|, i requires 0 <= i < |ps| =>
      if ps[i].bookId == b && ps[i].index > k then ps[i].(index := ps[i].index - 1) else ps[i])
  }

  /** The table without the row at position `q`. */
  function RemoveAt<T>(s: seq<T>, q: nat): (r: seq<T>)
    requires q < |s|
    ensures |r| == |s| - 1
    ensures forall i :: 0 <= i < |r| ==> r[i] == if i < q then s[i] else s[i + 1]
  {
    s[..q] + s[q + 1..]
  }

  // ---------------------------------------------------------------- counting

  lemma {:induction false} CountInAppend(ps: seq<Pick>, qs: seq<Pick>, b: Id)
    ensures CountIn(ps + qs, b) == CountIn(ps, b) + CountIn(qs, b)
    decreases |qs|
  {
    if |qs| == 0 {
      assert ps + qs == ps;
    } else {
      assert (ps + qs)[..|ps + qs| - 1] == ps + qs[..|qs| - 1];
      CountInAppend(ps, qs[..|qs| - 1], b);
    }
  }

  /** The count only depends on which book each row belongs to. */
  lemma {:induction false} CountInSameBooks(ps: seq<Pick>, qs: seq<Pick>, b: Id)
    requires |ps| == |qs|
    requires forall i :: 0 <= i < |ps| ==> ps[i].bookId == qs[i].bookId
    ensures CountIn(ps, b) == CountIn(qs, b)
    decreases |ps|
  {
    if |ps| > 0 {
      CountInSameBooks(ps[..|ps| - 1], qs[..|qs| - 1], b);
    }
  }

  lemma CountInRemoveAt(ps: seq<Pick>, q: nat, b: Id)
    requires q < |ps|
    ensures CountIn(RemoveAt(ps, q), b) == CountIn(ps, b) - (if ps[q].bookId == b then 1 else 0)
  {
    assert ps == ps[..q] + [ps[q]] + ps[q + 1..];
    CountInAppend(ps[..q] + [ps[q]], ps[q + 1..], b);
    CountInAppend(ps[..q], [ps[q]], b);
    CountInAppend(ps[..q], ps[q + 1..], b);
    assert CountIn([ps[q]], b) == (if ps[q].bookId == b then 1 else 0) by {
      assert [ps[q]][..0] == [];
    }
  }

  /** A row of book `b` exists exactly when the count is positive. */
  lemma {:induction false} CountInPositive(ps: seq<Pick>, b: Id)
    ensures CountIn(ps, b) > 0 <==> exists i :: 0 <= i < |ps| && ps[i].bookId == b
    decreases |ps|
  {
    if |ps| > 0 {
      CountInPositive(ps[..|ps| - 1], b);
      if CountIn(ps[..|ps| - 1], b) > 0 {
        var i :| 0 <= i < |ps| - 1 && ps[..|ps| - 1][i].bookId == b;
        assert ps[i].bookId == b;
      }
      forall i | 0 <= i < |ps| - 1 && ps[i].bookId == b
        ensures CountIn(ps[..|ps| - 1], b) > 0
      {
        assert ps[..|ps| - 1][i].bookId == b;
      }
    }
  }

  // ---------------------------------------------------------------- greatest index

  /** `MaxIndex` is the greatest index of the book's picks, or None when it has none. */
  lemma {:induction false} MaxIndexIsGreatest(ps: seq<Pick>, b: Id)
    ensures MaxIndex(ps, b).None? <==> forall i :: 0 <= i < |ps| ==> ps[i].bookId != b
    ensures MaxIndex(ps, b).Some? ==>
              && (exists i :: 0 <= i < |ps| && ps[i].bookId == b && ps[i].index == MaxIndex(ps, b).value)
              && (forall i :: 0 <= i < |ps| && ps[i].bookId == b ==> ps[i].index <= MaxIndex(ps, b).value)
    decreases |ps|
  {
    if |ps| > 0 {
      var init := ps[..|ps| - 1];
      MaxIndexIsGreatest(init, b);
      assert forall i :: 0 <= i < |init| ==> init[i] == ps[i];
      var m := MaxIndex(init, b);
      if m.Some? {
        var i :| 0 <= i < |init| && init[i].bookId == b && init[i].index == m.value;
        assert ps[i] == init[i];
      }
    }
  }

  /** In a contiguous book with picks, the greatest index is the count minus one. */
  lemma MaxIndexOfContiguous(ps: seq<Pick>, b: Id)
    requires Contiguous(ps, b) && CountIn(ps, b) > 0
    ensures MaxIndex(ps, b) == Some(CountIn(ps, b) - 1)
  {
    MaxIndexIsGreatest(ps, b);
    var n := CountIn(ps, b);
    assert HasIndex(ps, b, n - 1);
  }

  // ---------------------------------------------------------------- insert and delete

  /**
   * Shifting the picks at or above `k` up by one and then adding a pick at
   * `k` keeps a contiguous book contiguous, one pick longer, provided `k` is
   * at most the number of picks.
   */
  lemma InsertKeepsContiguous(ps: seq<Pick>, b: Id, k: nat, p: Pick)
    requires Contiguous(ps, b) && k <= CountIn(ps, b)
    requires p.bookId == b && p.index == k
    ensures CountIn(ShiftUp(ps, b, k) + [p], b) == CountIn(ps, b) + 1
    ensures Contiguous(ShiftUp(ps, b, k) + [p], b)
  {
    var n := CountIn(ps, b);
    var up := ShiftUp(ps, b, k);
    var r := up + [p];
    CountInSameBooks(ps, up, b);
    CountInAppend(up, [p], b);
    assert CountIn([p], b) == 1 by {
      assert [p][..0] == [];
    }
    assert forall i :: 0 <= i < |ps| ==> r[i] == up[i];
    forall i | 0 <= i < |r| && r[i].bookId == b
      ensures r[i].index < n + 1
    {
      if i < |ps| {
        assert ps[i].index < n;
      }
    }
    forall i, j | 0 <= i < j < |r| && r[i].bookId == b && r[j].bookId == b
      ensures r[i].index != r[j].index
    {
      if j < |ps| {
        assert ps[i].index != ps[j].index;
        assert r[i] == up[i] && r[j] == up[j];
      } else {
        assert ps[i].bookId == b && ps[i].index < n;
        assert r[i] == up[i];
      }
    }
    forall m: nat | m < n + 1
      ensures HasIndex(r, b, m)
    {
      if m == k {
        assert r[|ps|] == p;
      } else {
        var m' := if m < k then m else m - 1;
        assert HasIndex(ps, b, m');
        var i :| 0 <= i < |ps| && ps[i].bookId == b && ps[i].index == m';
        assert r[i] == up[i];
        if m < k {
          assert up[i] == ps[i];
        } else {
          assert up[i] == ps[i].(index := m);
        }
      }
    }
  }

  /**
   * Removing a pick of index `d` from a contiguous book and shifting the
   * picks above `d` down by one keeps the book contiguous, one pick shorter.
   */
  lemma DeleteKeepsContiguous(ps: seq<Pick>, b: Id, q: nat)
    requires q < |ps| && ps[q].bookId == b && Contiguous(ps, b)
    ensures CountIn(ShiftDown(RemoveAt(ps, q), b, ps[q].index), b) == CountIn(ps, b) - 1
    ensures Contiguous(ShiftDown(RemoveAt(ps, q), b, ps[q].index), b)
  {
    var rest := RemoveAt(ps, q);
    var r := ShiftDown(rest, b, ps[q].index);
    CountInRemoveAt(ps, q, b);
    CountInSameBooks(rest, r, b);
    DeleteBounded(ps, b, q);
    DeleteDistinct(ps, b, q);
    DeleteCovers(ps, b, q);
  }

  lemma DeleteBounded(ps: seq<Pick>, b: Id, q: nat)
    requires q < |ps| && ps[q].bookId == b && Contiguous(ps, b)
    ensures var r := ShiftDown(RemoveAt(ps, q), b, ps[q].index);
            forall i :: 0 <= i < |r| && r[i].bookId == b ==> r[i].index < CountIn(ps, b) - 1
  {
    var d := ps[q].index;
    var rest := RemoveAt(ps, q);
    var r := ShiftDown(rest, b, d);
    forall i | 0 <= i < |r| && r[i].bookId == b
      ensures r[i].index < CountIn(ps, b) - 1
    {
      var o := if i < q then i else i + 1;
      assert rest[i] == ps[o];
      assert ps[o].index != d;
    }
  }

  lemma DeleteDistinct(ps: seq<Pick>, b: Id, q: nat)
    requires q < |ps| && ps[q].bookId == b && Contiguous(ps, b)
    ensures var r := ShiftDown(RemoveAt(ps, q), b, ps[q].index);
            forall i, j :: 0 <= i < j < |r| && r[i].bookId == b && r[j].bookId == b ==> r[i].index != r[j].index
  {
    var d := ps[q].index;
    var rest := RemoveAt(ps, q);
    var r := ShiftDown(rest, b, d);
    forall i, j | 0 <= i < j < |r| && r[i].bookId == b && r[j].bookId == b
      ensures r[i].index != r[j].index
    {
      var oi := if i < q then i else i + 1;
      var oj := if j < q then j else j + 1;
      assert rest[i] == ps[oi] && rest[j] == ps[oj];
      assert ps[oi].index != d && ps[oj].index != d && ps[oi].index != ps[oj].index;
    }
  }

  lemma DeleteCovers(ps: seq<Pick>, b: Id, q: nat)
    requires q < |ps| && ps[q].bookId == b && Contiguous(ps, b)
    ensures var r := ShiftDown(RemoveAt(ps, q), b, ps[q].index);
            forall m: nat :: m < CountIn(ps, b) - 1 ==> HasIndex(r, b, m)
  {
    var d := ps[q].index;
    var rest := RemoveAt(ps, q);
    var r := ShiftDown(rest, b, d);
    forall m: nat | m < CountIn(ps, b) - 1
      ensures HasIndex(r, b, m)
    {
      var want := if m < d then m else m + 1;
      assert HasIndex(ps, b, want);
      var o :| 0 <= o < |ps| && ps[o].bookId == b && ps[o].index == want;
      assert o != q;
      var i := if o < q then o else o - 1;
      assert rest[i] == ps[o];
      assert r[i].bookId == b && r[i].index == m;
    }
  }

  /** An explicit insert index beyond the number of picks always leaves the book non-contiguous. */
  lemma InsertPastEndBreaksContiguity(ps: seq<Pick>, b: Id, k: nat, p: Pick)
    requires k > CountIn(ps, b)
    requires p.bookId == b && p.index == k
    ensures !Contiguous(ShiftUp(ps, b, k) + [p], b)
  {
    var up := ShiftUp(ps, b, k);
    var r := up + [p];
    CountInSameBooks(ps, up, b);
    CountInAppend(up, [p], b);
    assert CountIn([p], b) == 1 by {
      assert [p][..0] == [];
    }
    assert r[|ps|] == p;
    assert !(r[|ps|].index < CountIn(r, b));
  }

  /** Shifting only moves picks of book `b`; every other book's picks are untouched. */
  lemma ShiftsTouchOnlyTheBook(ps: seq<Pick>, b: Id, k: nat, c: Id)
    requires c != b
    ensures PicksOf(ShiftUp(ps, b, k), c) == PicksOf(ps, c)
    ensures PicksOf(ShiftDown(ps, b, k), c) == PicksOf(ps, c)
  {
    SameOutside(ps, ShiftUp(ps, b, k), b, c);
    SameOutside(ps, ShiftDown(ps, b, k), b, c);
  }

  lemma {:induction false} SameOutside(ps: seq<Pick>, qs: seq<Pick>, b: Id, c: Id)
    requires c != b && |ps| == |qs|
    requires forall i :: 0 <= i < |ps| ==> ps[i].bookId == qs[i].bookId
    requires forall i :: 0 <= i < |ps| && ps[i].bookId != b ==> ps[i] == qs[i]
    ensures PicksOf(qs, c) == PicksOf(ps, c)
    decreases |ps|
  {
    if |ps| > 0 {
      SameOutside(ps[..|ps| - 1], qs[..|qs| - 1], b, c);
    }
  }

  // ---------------------------------------------------------------- reordering by guid

  /** The position of the last order for pick `g`. */
  function LastOrder(orders: seq<EditBookOrderParams>, g: Uuid): (r: Option<nat>)
    ensures r.Some? ==> r.value < |orders| && orders[r.value].guid == g
                        && forall j :: r.value < j < |orders| ==> orders[j].guid != g
    ensures r.None? ==> forall j :: 0 <= j < |orders| ==> orders[j].guid != g
  {
    if |orders| == 0 then None
    else if orders[|orders| - 1].guid == g then Some(|orders| - 1)
    else LastOrder(orders[..|orders| - 1], g)
  }

  /** A pick with the index of the last order naming its guid, or unchanged when none does. */
  function Reordered(p: Pick, orders: seq<EditBookOrderParams>): Pick
  {
    var l := LastOrder(orders, p.guid);
    if l.Some? then p.(index := orders[l.value].index) else p
  }

  /**
   * `EditBook`'s reordering: every row whose guid some order names takes
   * that order's index (the last one when several name it), whatever its
   * book; every other row, and every other field, is unchanged.
   */
  function Reindexed(ps: seq<Pick>, orders: seq<EditBookOrderParams>): (r: seq<Pick>)
    ensures |r| == |ps|
    ensures forall i :: 0 <= i < |ps| ==>
              && r[i].(index := ps[i].index) == ps[i]
              && (forall j :: 0 <= j < |orders| && orders[j].guid == ps[i].guid ==>
                    exists k :: j <= k < |orders| && orders[k].guid == ps[i].guid && r[i].index == orders[k].index)
              && ((forall j :: 0 <= j < |orders| ==> orders[j].guid != ps[i].guid) ==> r[i] == ps[i])
  {
    seq(|ps|, i requires 0 <= i < |ps| => Reordered(ps[i], orders))
  }

  /** Reordering checks nothing: naming the first pick of a two-pick book with index 1 leaves two picks at index 1. */
  lemma ReindexCanBreakContiguity()
    ensures var ps := [Pick(1, 10, 5, 1, "a", "a", "", 0), Pick(2, 11, 5, 1, "b", "b", "", 1)];
            && Contiguous(ps, 5)
            && !Contiguous(Reindexed(ps, [EditBookOrderParams(10, 1)]), 5)
  {
    var ps := [Pick(1, 10, 5, 1, "a", "a", "", 0), Pick(2, 11, 5, 1, "b", "b", "", 1)];
    TwoPicksContiguous(ps[0], ps[1]);
    var orders := [EditBookOrderParams(10, 1)];
    assert LastOrder(orders, 10) == Some(0);
    var r := Reindexed(ps, orders);
    assert r[0] == Reordered(ps[0], orders) && r[0].index == 1;
    assert r[1].index == 1;
  }

  lemma TwoPicksContiguous(p: Pick, q: Pick)
    requires p.bookId == q.bookId && p.index == 0 && q.index == 1
    ensures Contiguous([p, q], p.bookId)
  {
    var ps := [p, q];
    var b := p.bookId;
    assert ps[..|ps| - 1] == [p] && [p][..0] == [];
    assert CountIn([], b) == 0;
    assert CountIn([p], b) == 1;
    assert CountIn(ps, b) == CountIn([p], b) + 1;
    assert HasIndex(ps, p.bookId, 0) && HasIndex(ps, p.bookId, 1);
  }
}
