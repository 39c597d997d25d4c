/** `slice::sort_by` run in place on an array: a stable insertion sort, proved to
    leave `StableSorting.Sort` of the array's old contents. */
module InPlaceSort {
  import opened Ordering
  import opened StableSorting

  /** Where `Insert` puts `x`: right after the last element that does not compare
      greater than it. */
  lemma {:induction false} InsertPosition<T>(cmp: (T, T) -> Ordering, x: T, t: seq<T>, j: nat)
    requires j <= |t|
    requires forall k :: j <= k < |t| ==> cmp(t[k], x) == Greater
    requires j == 0 || cmp(t[j - 1], x) != Greater
    ensures Insert(cmp, x, t) == t[..j] + [x] + t[j..]
    decreases |t|
  {
    if j < |t| {
      var t' := t[..|t| - 1];
      InsertPosition(cmp, x, t', j);
      assert t'[..j] == t[..j] && t'[j..] + [t[|t| - 1]] == t[j..];
    } else {
      assert t[..j] == t;
    }
  }

  /** A sequence that agrees with `sorted` before `j`, holds `x` at `j` and
      agrees with `sorted` shifted by one after `j` is `sorted` with `x` put at `j`. */
  lemma Shifted<T>(b: seq<T>, sorted: seq<T>, x: T, j: nat)
    requires j <= |sorted| && |b| == |sorted| + 1
    requires forall k :: 0 <= k < j ==> b[k] == sorted[k]
    requires b[j] == x
    requires forall k :: j < k < |b| ==> b[k] == sorted[k - 1]
    ensures b == sorted[..j] + [x] + sorted[j..]
  {
  }

  /** Moves `a[i]` left past the elements of `a[..i]` that compare greater than it. */
  method InsertAt<T>(a: array<T>, i: nat, cmp: (T, T) -> Ordering)
    requires i < a.Length
    modifies a
    ensures a[..i + 1] == Insert(cmp, old(a[i]), old(a[..i]))
    ensures a[i + 1..] == old(a[i + 1..])
  {
    var x := a[i];
    ghost var sorted := a[..i];
    var j := i;
    while j > 0 && cmp(a[j - 1], x) == Greater
      invariant 0 <= j <= i
      invariant forall k :: 0 <= k < j ==> a[k] == sorted[k]
      invariant forall k :: j < k <= i ==> a[k] == sorted[k - 1]
      invariant forall k :: i < k < a.Length ==> a[k] == old(a[k])
      invariant forall k :: j <= k < i ==> cmp(sorted[k], x) == Greater
    {
      a[j] := a[j - 1];
      j := j - 1;
    }
    a[j] := x;
    InsertPosition(cmp, x, sorted, j);
    Shifted(a[..i + 1], sorted, x, j);
  }

  /** Sorts `a` by `cmp`, in place. An element never moves past one it is tied
      with, so the sort is stable. */
  method SortBy<T>(a: array<T>, cmp: (T, T) -> Ordering)
    modifies a
    ensures a[..] == Sort(cmp, old(a[..]))
  {
    ghost var input := a[..];
    var i := 0;
    while i < a.Length
      invariant 0 <= i <= a.Length
      invariant a[..i] == Sort(cmp, input[..i])
      invariant a[i..] == input[i..]
    {
      assert a[i] == input[i] && a[i + 1..] == input[i + 1..] by {
        assert a[i..][0] == a[i] && a[i..][1..] == a[i + 1..];
      }
      InsertAt(a, i, cmp);
      assert input[..i + 1][..i] == input[..i];
      i := i + 1;
    }
    assert input[..a.Length] == input;
  }
}
