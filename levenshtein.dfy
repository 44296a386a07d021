/**
 * Edit distance between two strings (`utility.levenshteinDistance`) and the
 * "at least 20% changed" test built on it, which decides whether an edited
 * pick's search keywords are regenerated.
 *
 * The distance is defined once, generically, as the recursive specification
 * `Dist`; the method fills the dynamic-programming matrix as the Go code does
 * (cell `[i][j]` holding the distance between the first `i` and the first `j`
 * elements) and is proved to return `Dist`.
 */
module Levenshtein {

  function Min(x: int, y: int): int
  {
    if x <= y then x else y
  }

  function Max(x: int, y: int): int
  {
    if x >= y then x else y
  }

  /**
   * The least number of single-element insertions, deletions and
   * substitutions that turn `a` into `b`, by recursion on the last elements.
   */
  function Dist<T(==)>(a: seq<T>, b: seq<T>): nat
    decreases |a| + |b|
  {
    if |a| == 0 then |b|
    else if |b| == 0 then |a|
    else
      var cost := if a[|a| - 1] != b[|b| - 1] then 1 else 0;
      Min(Min(Dist(a[..|a| - 1], b) + 1, Dist(a, b[..|b| - 1]) + 1),
          Dist(a[..|a| - 1], b[..|b| - 1]) + cost)
  }

  /** One step of the recurrence, on prefixes. */
  lemma DistPrefixStep<T>(a: seq<T>, b: seq<T>, i: nat, j: nat)
    requires 1 <= i <= |a| && 1 <= j <= |b|
    ensures Dist(a[..i], b[..j])
         == Min(Min(Dist(a[..i - 1], b[..j]) + 1, Dist(a[..i], b[..j - 1]) + 1),
                Dist(a[..i - 1], b[..j - 1]) + (if a[i - 1] != b[j - 1] then 1 else 0))
  {
    assert a[..i][..i - 1] == a[..i - 1];
    assert b[..j][..j - 1] == b[..j - 1];
  }

  /** `levenshteinDistance(a, b)`: the matrix algorithm computes `Dist`. */
  method LevenshteinDistance<T(==)>(a: seq<T>, b: seq<T>) returns (d: nat)
    ensures d == Dist(a, b)
  {
    var aLen := |a|;
    var bLen := |b|;
    if aLen == 0 {
      return bLen;
    }
    if bLen == 0 {
      return aLen;
    }
    var matrix := new nat[aLen + 1, bLen + 1];
    var i := 0;
    while i <= aLen
      invariant 0 <= i <= aLen + 1
      invariant forall i' :: 0 <= i' < i ==> matrix[i', 0] == i'
    {
      matrix[i, 0] := i;
      i := i + 1;
    }
    var j := 0;
    while j <= bLen
      invariant 0 <= j <= bLen + 1
      invariant forall i' :: 0 <= i' <= aLen ==> matrix[i', 0] == i'
      invariant forall j' :: 0 <= j' < j ==> matrix[0, j'] == j'
    {
      matrix[0, j] := j;
      j := j + 1;
    }
    assert forall j' {:trigger matrix[0, j']} :: 0 <= j' <= bLen ==> matrix[0, j'] == Dist(a[..0], b[..j']);
    i := 1;
    while i <= aLen
      invariant 1 <= i <= aLen + 1
      invariant forall i', j' {:trigger matrix[i', j']} :: 0 <= i' < i && 0 <= j' <= bLen ==> matrix[i', j'] == Dist(a[..i'], b[..j'])
      invariant forall i' :: i <= i' <= aLen ==> matrix[i', 0] == i'
    {
      FillRow(matrix, a, b, i);
      i := i + 1;
    }
    assert a[..aLen] == a && b[..bLen] == b;
    return matrix[aLen, bLen];
  }

  /** Fills row `i` of the matrix from row `i - 1`, left to right. */
  method FillRow<T(==)>(matrix: array2<nat>, a: seq<T>, b: seq<T>, i: nat)
    requires matrix.Length0 == |a| + 1 && matrix.Length1 == |b| + 1
    requires 1 <= i <= |a|
    requires forall j' {:trigger matrix[i - 1, j']} :: 0 <= j' <= |b| ==> matrix[i - 1, j'] == Dist(a[..i - 1], b[..j'])
    requires matrix[i, 0] == i
    modifies matrix
    ensures forall j' {:trigger matrix[i, j']} :: 0 <= j' <= |b| ==> matrix[i, j'] == Dist(a[..i], b[..j'])
    ensures forall i', j' :: 0 <= i' < matrix.Length0 && 0 <= j' < matrix.Length1 && i' != i
              ==> matrix[i', j'] == old(matrix[i', j'])
  {
    assert b[..0] == [];
    var j := 1;
    while j <= |b|
      invariant 1 <= j <= |b| + 1
      invariant forall j' {:trigger matrix[i, j']} :: 0 <= j' < j ==> matrix[i, j'] == Dist(a[..i], b[..j'])
      invariant forall i', j' :: 0 <= i' < matrix.Length0 && 0 <= j' < matrix.Length1 && i' != i
                  ==> matrix[i', j'] == old(matrix[i', j'])
    {
      var cost := 0;
      if a[i - 1] != b[j - 1] {
        cost := 1;
      }
      DistPrefixStep(a, b, i, j);
      assert matrix[i - 1, j] == old(matrix[i - 1, j]) == Dist(a[..i - 1], b[..j]);
      assert matrix[i - 1, j - 1] == old(matrix[i - 1, j - 1]) == Dist(a[..i - 1], b[..j - 1]);
      matrix[i, j] := Min(Min(matrix[i - 1, j] + 1, matrix[i, j - 1] + 1), matrix[i - 1, j - 1] + cost);
      assert matrix[i, j] == Dist(a[..i], b[..j]);
      j := j + 1;
    }
  }

  /** A sequence is at distance zero from itself. */
  lemma {:induction false} DistSelf<T>(a: seq<T>)
    ensures Dist(a, a) == 0
    decreases |a|
  {
    if |a| > 0 {
      DistSelf(a[..|a| - 1]);
    }
  }

  /** The distance is at least the difference in length and at most the longer length. */
  lemma {:induction false} DistBounds<T>(a: seq<T>, b: seq<T>)
    ensures |a| - |b| <= Dist(a, b) && |b| - |a| <= Dist(a, b)
    ensures Dist(a, b) <= Max(|a|, |b|)
    decreases |a| + |b|
  {
    if |a| > 0 && |b| > 0 {
      DistBounds(a[..|a| - 1], b);
      DistBounds(a, b[..|b| - 1]);
      DistBounds(a[..|a| - 1], b[..|b| - 1]);
    }
  }

  /** Distance zero means equal sequences, and only those. */
  lemma {:induction false} DistZeroIff<T>(a: seq<T>, b: seq<T>)
    ensures Dist(a, b) == 0 <==> a == b
    decreases |a| + |b|
  {
    if a == b {
      DistSelf(a);
    } else if |a| > 0 && |b| > 0 && a[|a| - 1] == b[|b| - 1] {
      var a', b' := a[..|a| - 1], b[..|b| - 1];
      assert a == a' + [a[|a| - 1]] && b == b' + [b[|b| - 1]];
      assert a' != b';
      DistZeroIff(a', b');
    }
  }

  /** Turning `a` into `b` costs as much as turning `b` into `a`. */
  lemma {:induction false} DistSymmetric<T>(a: seq<T>, b: seq<T>)
    ensures Dist(a, b) == Dist(b, a)
    decreases |a| + |b|
  {
    if |a| > 0 && |b| > 0 {
      DistSymmetric(a[..|a| - 1], b);
      DistSymmetric(a, b[..|b| - 1]);
      DistSymmetric(a[..|a| - 1], b[..|b| - 1]);
    }
  }

  /**
   * `percentageChanged(prev, next) >= 20`, in exact arithmetic:
   * distance / longer length * 100 >= 20. Two empty strings give 0/0, which
   * is NaN in Go, and NaN >= 20 is false.
   */
  predicate ChangedAtLeast20(prev: string, next: string)
  {
    var longer := Max(|prev|, |next|);
    longer > 0 && 5 * Dist(prev, next) >= longer
  }

  /** `AtLeast20PercentChanged(prev, next)`. */
  method AtLeast20PercentChanged(prev: string, next: string) returns (changed: bool)
    ensures changed <==> ChangedAtLeast20(prev, next)
  {
    var editDistance := LevenshteinDistance(prev, next);
    var longerLen := Max(|prev|, |next|);
    changed := longerLen > 0 && 5 * editDistance >= longerLen;
  }

  /** Saving a pick with its text unchanged never counts as a change. */
  lemma UnchangedIsNotChanged(s: string)
    ensures !ChangedAtLeast20(s, s)
  {
    DistSelf(s);
  }

  /** Any edit of a text of fewer than five characters counts as a change. */
  lemma ShortTextAnyEditChanges(prev: string, next: string)
    requires prev != next && |prev| < 5 && |next| < 5
    ensures ChangedAtLeast20(prev, next)
  {
    DistZeroIff(prev, next);
  }

  /** A length change of at least a fifth of the longer text always counts as a change. */
  lemma LengthChangeCounts(prev: string, next: string)
    requires 5 * (|next| - |prev|) >= Max(|prev|, |next|) > 0 || 5 * (|prev| - |next|) >= Max(|prev|, |next|) > 0
    ensures ChangedAtLeast20(prev, next)
  {
    DistBounds(prev, next);
  }

  /** Filling in an empty pick text, or clearing it, counts as a change. */
  lemma FromOrToEmptyChanges(s: string)
    requires |s| > 0
    ensures ChangedAtLeast20("", s) && ChangedAtLeast20(s, "")
  {
  }

  /** The test does not depend on which text is the old one. */
  lemma ChangedSymmetric(prev: string, next: string)
    ensures ChangedAtLeast20(prev, next) <==> ChangedAtLeast20(next, prev)
  {
    DistSymmetric(prev, next);
  }
}
