/** The contract of Rust's `slice::sort_by`: a stable sort under a comparator the
    caller supplies. `Sort` specifies it as insertion sort. The lemmas show that it
    permutes, that it orders, that it keeps tied elements in input order, and that
    no other ordered, tie-preserving permutation exists, so every stable sort
    (Rust's merge-based one included) gives the same result. */
module StableSorting {
  import opened Ordering

  /** `cmp` is a total preorder: swapping the arguments reverses the answer, and
      "not greater" is transitive. */
  ghost predicate TotalPreorder<T(!new)>(cmp: (T, T) -> Ordering) {
    && (forall a, b :: cmp(b, a) == cmp(a, b).Reverse())
    && (forall a, b, c :: cmp(a, b) != Greater && cmp(b, c) != Greater ==> cmp(a, c) != Greater)
  }

  /** `tied` holds of exactly the pairs `cmp` calls `Equal`. */
  ghost predicate TiesOf<T(!new)>(cmp: (T, T) -> Ordering, tied: (T, T) -> bool) {
    forall a, b :: tied(a, b) <==> cmp(a, b) == Equal
  }

  /** Every pair of elements is in the order `cmp` asks for. */
  ghost predicate Ordered<T>(cmp: (T, T) -> Ordering, s: seq<T>) {
    forall i, j :: 0 <= i < j < |s| ==> cmp(s[i], s[j]) != Greater
  }

  /** The elements of `s` tied with `x`, in the order `s` holds them. */
  function Ties<T>(tied: (T, T) -> bool, x: T, s: seq<T>): seq<T> {
    if s == [] then []
    else Ties(tied, x, s[..|s| - 1]) + (if tied(s[|s| - 1], x) then [s[|s| - 1]] else [])
  }

  /** Places `x` after the elements of `t`, then moves it left past every element
      that compares greater than it, and no further. */
  function Insert<T>(cmp: (T, T) -> Ordering, x: T, t: seq<T>): seq<T> {
    if t == [] then [x]
    else if cmp(t[|t| - 1], x) == Greater then Insert(cmp, x, t[..|t| - 1]) + [t[|t| - 1]]
    else t + [x]
  }

  /** Insertion sort, taking the elements from left to right. */
  function Sort<T>(cmp: (T, T) -> Ordering, s: seq<T>): seq<T> {
    if s == [] then [] else Insert(cmp, s[|s| - 1], Sort(cmp, s[..|s| - 1]))
  }

  lemma EqualReflexive<T(!new)>(cmp: (T, T) -> Ordering, a: T)
    requires TotalPreorder(cmp)
    ensures cmp(a, a) == Equal
  {
    assert cmp(a, a) == cmp(a, a).Reverse();
  }

  // ---------------------------------------------------------------------------
  // Sort permutes

  lemma {:induction false} InsertPermutes<T>(cmp: (T, T) -> Ordering, x: T, t: seq<T>)
    ensures multiset(Insert(cmp, x, t)) == multiset(t) + multiset{x}
  {
    if t != [] && cmp(t[|t| - 1], x) == Greater {
      var t' := t[..|t| - 1];
      InsertPermutes(cmp, x, t');
      assert t == t' + [t[|t| - 1]];
    }
  }

  /** No element added, none lost. */
  lemma {:induction false} SortPermutes<T>(cmp: (T, T) -> Ordering, s: seq<T>)
    ensures multiset(Sort(cmp, s)) == multiset(s)
  {
    if s != [] {
      var s' := s[..|s| - 1];
      SortPermutes(cmp, s');
      InsertPermutes(cmp, s[|s| - 1], Sort(cmp, s'));
      assert s == s' + [s[|s| - 1]];
    }
  }

  // ---------------------------------------------------------------------------
  // Sort orders

  lemma {:induction false} InsertOrders<T(!new)>(cmp: (T, T) -> Ordering, x: T, t: seq<T>)
    requires TotalPreorder(cmp) && Ordered(cmp, t)
    ensures Ordered(cmp, Insert(cmp, x, t))
  {
    if t != [] {
      var last, t' := t[|t| - 1], t[..|t| - 1];
      if cmp(last, x) == Greater {
        InsertOrders(cmp, x, t');
        InsertPermutes(cmp, x, t');
        var u := Insert(cmp, x, t');
        forall i | 0 <= i < |u|
          ensures cmp(u[i], last) != Greater
        {
          assert u[i] in multiset(u);
          if u[i] != x {
            assert u[i] in multiset(t');
            var j :| 0 <= j < |t'| && t'[j] == u[i];
            assert t[j] == u[i];
          }
        }
        assert Insert(cmp, x, t) == u + [last];
      } else {
        forall i | 0 <= i < |t|
          ensures cmp(t[i], x) != Greater
        {
          if i < |t| - 1 {
            assert cmp(t[i], last) != Greater;
          }
        }
      }
    }
  }

  /** After sorting, every pair of elements is in the comparator's order. */
  lemma {:induction false} SortOrders<T(!new)>(cmp: (T, T) -> Ordering, s: seq<T>)
    requires TotalPreorder(cmp)
    ensures Ordered(cmp, Sort(cmp, s))
  {
    if s != [] {
      SortOrders(cmp, s[..|s| - 1]);
      InsertOrders(cmp, s[|s| - 1], Sort(cmp, s[..|s| - 1]));
    }
  }

  // ---------------------------------------------------------------------------
  // Sort keeps tied elements in input order

  lemma {:induction false} TiesAppend<T>(tied: (T, T) -> bool, y: T, a: seq<T>, b: seq<T>)
    ensures Ties(tied, y, a + b) == Ties(tied, y, a) + Ties(tied, y, b)
  {
    if b == [] {
      assert a + b == a;
    } else {
      var b' := b[..|b| - 1];
      TiesAppend(tied, y, a, b');
      assert (a + b)[..|a + b| - 1] == a + b';
    }
  }

  lemma TiesSingleton<T>(tied: (T, T) -> bool, y: T, x: T)
    ensures Ties(tied, y, [x]) == if tied(x, y) then [x] else []
  {
    assert [x][..0] == [];
  }

  /** `x` moves only past elements it is not tied with, so they cannot both be
      tied with a third element `y`. */
  lemma PassedNotTied<T(!new)>(cmp: (T, T) -> Ordering, tied: (T, T) -> bool, x: T, last: T, y: T)
    requires TotalPreorder(cmp) && TiesOf(cmp, tied)
    requires cmp(last, x) == Greater
    ensures !(tied(last, y) && tied(x, y))
  {
  }

  /** The step of `InsertTies` where `x` has moved past the last element. */
  lemma TiesMovedPast<T>(tied: (T, T) -> bool, y: T, moved: seq<T>, t: seq<T>, x: T, last: T)
    requires Ties(tied, y, moved) == Ties(tied, y, t) + Ties(tied, y, [x])
    requires !(tied(last, y) && tied(x, y))
    ensures Ties(tied, y, moved + [last]) == Ties(tied, y, t + [last]) + Ties(tied, y, [x])
  {
    TiesAppend(tied, y, moved, [last]);
    TiesAppend(tied, y, t, [last]);
    TiesSingleton(tied, y, x);
    TiesSingleton(tied, y, last);
    SwapEmpty(Ties(tied, y, t), Ties(tied, y, [x]), Ties(tied, y, [last]));
  }

  /** Two parts of which one is empty can be appended in either order. */
  lemma SwapEmpty<T>(a: seq<T>, b: seq<T>, c: seq<T>)
    requires b == [] || c == []
    ensures a + b + c == a + c + b
  {
    if b == [] {
      assert a + b == a;
    } else {
      assert a + c == a;
    }
  }

  lemma {:induction false} InsertTies<T(!new)>(cmp: (T, T) -> Ordering, tied: (T, T) -> bool, x: T, t: seq<T>, y: T)
    requires TotalPreorder(cmp) && TiesOf(cmp, tied)
    ensures Ties(tied, y, Insert(cmp, x, t)) == Ties(tied, y, t) + Ties(tied, y, [x])
  {
    if t == [] {
      assert Insert(cmp, x, t) == [x];
    } else {
      var last, t' := t[|t| - 1], t[..|t| - 1];
      assert t == t' + [last];
      if cmp(last, x) == Greater {
        assert Insert(cmp, x, t) == Insert(cmp, x, t') + [last];
        InsertTies(cmp, tied, x, t', y);
        PassedNotTied(cmp, tied, x, last, y);
        TiesMovedPast(tied, y, Insert(cmp, x, t'), t', x, last);
      } else {
        assert Insert(cmp, x, t) == t + [x];
        TiesAppend(tied, y, t, [x]);
      }
    }
  }

  /** Elements tied with `y` keep their relative input order. */
  lemma {:induction false} SortKeepsTies<T(!new)>(cmp: (T, T) -> Ordering, tied: (T, T) -> bool, s: seq<T>, y: T)
    requires TotalPreorder(cmp) && TiesOf(cmp, tied)
    ensures Ties(tied, y, Sort(cmp, s)) == Ties(tied, y, s)
  {
    if s != [] {
      var s', last := s[..|s| - 1], s[|s| - 1];
      var sorted := Sort(cmp, s');
      assert Sort(cmp, s) == Insert(cmp, last, sorted);
      SortKeepsTies(cmp, tied, s', y);
      InsertTies(cmp, tied, last, sorted, y);
      assert Ties(tied, y, s) == Ties(tied, y, s') + Ties(tied, y, [last]) by {
        TiesAppend(tied, y, s', [last]);
        assert s == s' + [last];
      }
    }
  }

  // ---------------------------------------------------------------------------
  // A stable sort has only one possible result

  /** Every element of an ordered sequence may precede its last element. */
  lemma PrecedesLast<T(!new)>(cmp: (T, T) -> Ordering, u: seq<T>, x: T)
    requires TotalPreorder(cmp) && Ordered(cmp, u) && x in multiset(u)
    ensures cmp(x, u[|u| - 1]) != Greater
  {
    var j :| 0 <= j < |u| && u[j] == x;
    EqualReflexive(cmp, x);
  }

  /** Two ordered sequences holding the same elements end in tied elements. */
  lemma LastTied<T(!new)>(cmp: (T, T) -> Ordering, t: seq<T>, u: seq<T>)
    requires TotalPreorder(cmp) && t != [] && Ordered(cmp, t) && Ordered(cmp, u)
    requires multiset(t) == multiset(u)
    ensures u != [] && cmp(u[|u| - 1], t[|t| - 1]) == Equal
  {
    assert |t| == |multiset(t)| == |multiset(u)| == |u|;
    var lt, lu := t[|t| - 1], u[|u| - 1];
    assert lt in multiset(u);
    PrecedesLast(cmp, u, lt);
    assert lu in multiset(t);
    PrecedesLast(cmp, t, lu);
    assert cmp(lu, lt) == cmp(lt, lu).Reverse();
  }

  /** If, besides, they keep tied elements in the same order, they end in the
      same element. */
  lemma SameLast<T(!new)>(cmp: (T, T) -> Ordering, tied: (T, T) -> bool, t: seq<T>, u: seq<T>)
    requires TotalPreorder(cmp) && TiesOf(cmp, tied)
    requires t != [] && Ordered(cmp, t) && Ordered(cmp, u)
    requires multiset(t) == multiset(u)
    requires Ties(tied, t[|t| - 1], t) == Ties(tied, t[|t| - 1], u)
    ensures u != [] && t[|t| - 1] == u[|u| - 1]
  {
    LastTied(cmp, t, u);
    var lt, lu := t[|t| - 1], u[|u| - 1];
    EqualReflexive(cmp, lt);
    var tt, tu := Ties(tied, lt, t[..|t| - 1]), Ties(tied, lt, u[..|u| - 1]);
    assert Ties(tied, lt, t) == tt + [lt];
    assert Ties(tied, lt, u) == tu + [lu];
    assert (tt + [lt])[|tt|] == lt;
    assert (tu + [lu])[|tu|] == lu;
  }

  /** Dropping the same last element from two sequences with the same elements
      and ties leaves two sequences with the same elements and ties. */
  lemma DropSameLast<T(!new)>(tied: (T, T) -> bool, t: seq<T>, u: seq<T>, last: T)
    requires multiset(t + [last]) == multiset(u + [last])
    requires forall y :: Ties(tied, y, t + [last]) == Ties(tied, y, u + [last])
    ensures multiset(t) == multiset(u)
    ensures forall y :: Ties(tied, y, t) == Ties(tied, y, u)
  {
    assert multiset(t) == multiset(t + [last]) - multiset{last};
    assert multiset(u) == multiset(u + [last]) - multiset{last};
    forall y
      ensures Ties(tied, y, t) == Ties(tied, y, u)
    {
      TiesAppend(tied, y, t, [last]);
      TiesAppend(tied, y, u, [last]);
      var tail := Ties(tied, y, [last]);
      var tt, tu := Ties(tied, y, t), Ties(tied, y, u);
      assert tt + tail == tu + tail;
      assert tt == (tt + tail)[..|tt|];
      assert tu == (tu + tail)[..|tu|];
    }
  }

  /** Two ordered sequences with the same elements and the same order among tied
      elements are equal. */
  lemma {:induction false} OrderedUnique<T(!new)>(cmp: (T, T) -> Ordering, tied: (T, T) -> bool, t: seq<T>, u: seq<T>)
    requires TotalPreorder(cmp) && TiesOf(cmp, tied)
    requires Ordered(cmp, t) && Ordered(cmp, u)
    requires multiset(t) == multiset(u)
    requires forall y :: Ties(tied, y, t) == Ties(tied, y, u)
    ensures t == u
    decreases |t|
  {
    if t == [] {
      assert |u| == |multiset(u)| == 0;
    } else {
      SameLast(cmp, tied, t, u);
      var last, t', u' := t[|t| - 1], t[..|t| - 1], u[..|u| - 1];
      assert t == t' + [last] && u == u' + [last];
      DropSameLast(tied, t', u', last);
      OrderedUnique(cmp, tied, t', u');
    }
  }

  /** Any ordered permutation of `s` that keeps tied elements in input order is
      `Sort(cmp, s)`: whichever stable algorithm runs, the result is this one. */
  lemma SortUnique<T(!new)>(cmp: (T, T) -> Ordering, tied: (T, T) -> bool, s: seq<T>, t: seq<T>)
    requires TotalPreorder(cmp) && TiesOf(cmp, tied)
    requires Ordered(cmp, t)
    requires multiset(t) == multiset(s)
    requires forall y :: Ties(tied, y, t) == Ties(tied, y, s)
    ensures t == Sort(cmp, s)
  {
    var u := Sort(cmp, s);
    SortOrders(cmp, s);
    SortPermutes(cmp, s);
    forall y
      ensures Ties(tied, y, t) == Ties(tied, y, u)
    {
      SortKeepsTies(cmp, tied, s, y);
    }
    OrderedUnique(cmp, tied, t, u);
  }

  /** Sorting two elements swaps them exactly when the comparator says Greater. */
  lemma SortTwo<T>(cmp: (T, T) -> Ordering, a: T, b: T)
    ensures Sort(cmp, [a, b]) == if cmp(a, b) == Greater then [b, a] else [a, b]
  {
    assert [a, b][..1] == [a] && [a][..0] == [];
    assert Sort(cmp, [a]) == [a];
    assert Sort(cmp, [a, b]) == Insert(cmp, b, [a]);
  }
}
