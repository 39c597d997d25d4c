/** The Ranking Engine: the ranking state (active column and direction) and the
    comparator `sort_processes` hands to `sort_by`. The comparator is proved a
    total preorder whose ties are the rows with equal keys in the active column,
    in either direction, so `StableSorting`'s results apply to the table. */
module RankingEngine {
  import opened Ordering
  import opened Records
  import opened StableSorting

  /** `SortColumn`: the columns the table can be sorted by. */
  datatype SortColumn = Pid | Name | Memory | Cpu

  /** The ranking state, held in the fields `sort_column` and `sort_ascending`. */
  datatype Ranking = Ranking(column: SortColumn, ascending: bool) {

    /** The `Sort` arm of `update`: selecting the active column flips the
        direction, selecting another column switches to it, ascending. */
    function Select(requested: SortColumn): (r: Ranking)
      ensures r.column == requested
      ensures r.ascending <==> requested != column || !ascending
    {
      if column == requested then Ranking(column, !ascending) else Ranking(requested, true)
    }
  }

  /** The state `new` starts from. */
  const InitialRanking := Ranking(Pid, true)

  /** Selecting the active column twice in a row restores the direction. */
  lemma SelectActiveTwice(r: Ranking)
    ensures r.Select(r.column).ascending == !r.ascending
    ensures r.Select(r.column).Select(r.column) == r
  {
  }

  /** Selecting a new column twice: ascending first, then descending. */
  lemma SelectNewTwice(r: Ranking, c: SortColumn)
    requires c != r.column
    ensures r.Select(c) == Ranking(c, true)
    ensures r.Select(c).Select(c) == Ranking(c, false)
  {
  }

  /** The per-column key comparison of `sort_processes`. */
  function KeyCmp(column: SortColumn, a: ProcessInfo, b: ProcessInfo): Ordering {
    match column
    case Pid => CmpInt(a.pid, b.pid)
    case Name => CmpStr(a.name, b.name)
    case Memory => CmpInt(a.memory, b.memory)
    case Cpu => CmpReal(a.cpu, b.cpu)
  }

  /** The comparator handed to `sort_by`: the key comparison, reversed pair by pair
      when descending. */
  function Compare(r: Ranking, a: ProcessInfo, b: ProcessInfo): Ordering {
    var cmp := KeyCmp(r.column, a, b);
    if r.ascending then cmp else cmp.Reverse()
  }

  /** `a` and `b` are tied in `column`. */
  predicate SameKey(column: SortColumn, a: ProcessInfo, b: ProcessInfo) {
    KeyCmp(column, a, b) == Equal
  }

  /** `a` may stand before `b` in a table ranked by `r`. */
  predicate Precedes(r: Ranking, a: ProcessInfo, b: ProcessInfo) {
    Compare(r, a, b) != Greater
  }

  /** Key order, stated per column without the comparator. */
  ghost predicate KeyLe(column: SortColumn, a: ProcessInfo, b: ProcessInfo) {
    match column
    case Pid => a.pid <= b.pid
    case Name => LexLe(a.name, b.name)
    case Memory => a.memory <= b.memory
    case Cpu => a.cpu <= b.cpu
  }

  /** The comparator as a value, as `sort_by` receives it. */
  function Comparator(r: Ranking): (ProcessInfo, ProcessInfo) -> Ordering {
    (a, b) => Compare(r, a, b)
  }

  /** Ties in `column`, as a value. */
  function Tied(column: SortColumn): (ProcessInfo, ProcessInfo) -> bool {
    (a, b) => SameKey(column, a, b)
  }

  // ---------------------------------------------------------------------------
  // The comparator is a total preorder

  lemma KeyCmpReverse(column: SortColumn, a: ProcessInfo, b: ProcessInfo)
    ensures KeyCmp(column, b, a) == KeyCmp(column, a, b).Reverse()
  {
    if column == Name {
      CmpStrReverse(a.name, b.name);
    }
  }

  lemma KeyCmpTransitive(column: SortColumn, a: ProcessInfo, b: ProcessInfo, c: ProcessInfo)
    requires KeyCmp(column, a, b) != Greater && KeyCmp(column, b, c) != Greater
    ensures KeyCmp(column, a, c) != Greater
  {
    if column == Name {
      CmpStrTransitive(a.name, b.name, c.name);
    }
  }

  lemma CompareReverse(r: Ranking, a: ProcessInfo, b: ProcessInfo)
    ensures Compare(r, b, a) == Compare(r, a, b).Reverse()
  {
    KeyCmpReverse(r.column, a, b);
  }

  /** Descending reverses the comparator, so ties are the same in both directions. */
  lemma CompareEqualIsSameKey(r: Ranking, a: ProcessInfo, b: ProcessInfo)
    ensures Compare(r, a, b) == Equal <==> SameKey(r.column, a, b)
  {
  }

  lemma PrecedesTransitive(r: Ranking, a: ProcessInfo, b: ProcessInfo, c: ProcessInfo)
    requires Precedes(r, a, b) && Precedes(r, b, c)
    ensures Precedes(r, a, c)
  {
    if r.ascending {
      KeyCmpTransitive(r.column, a, b, c);
    } else {
      KeyCmpReverse(r.column, a, b);
      KeyCmpReverse(r.column, b, c);
      KeyCmpReverse(r.column, a, c);
      KeyCmpTransitive(r.column, c, b, a);
    }
  }

  /** What the comparator means, column by column: ascending puts the smaller key
      first, descending the larger. */
  lemma PrecedesMeaning(r: Ranking, a: ProcessInfo, b: ProcessInfo)
    ensures Precedes(r, a, b) <==>
            if r.ascending then KeyLe(r.column, a, b) else KeyLe(r.column, b, a)
  {
    if r.column == Name {
      CmpStrIsLex(a.name, b.name);
      CmpStrIsLex(b.name, a.name);
      CmpStrReverse(a.name, b.name);
    }
  }

  /** The comparator `sort_processes` builds is a total preorder, and it calls
      `Equal` exactly the rows tied in the active column, whatever the direction. */
  lemma ComparatorIsTotalPreorder(r: Ranking)
    ensures TotalPreorder(Comparator(r))
    ensures TiesOf(Comparator(r), Tied(r.column))
  {
    forall a, b
      ensures Comparator(r)(b, a) == Comparator(r)(a, b).Reverse()
    {
      CompareReverse(r, a, b);
    }
    forall a, b, c | Comparator(r)(a, b) != Greater && Comparator(r)(b, c) != Greater
      ensures Comparator(r)(a, c) != Greater
    {
      PrecedesTransitive(r, a, b, c);
    }
    forall a, b
      ensures Tied(r.column)(a, b) <==> Comparator(r)(a, b) == Equal
    {
      CompareEqualIsSameKey(r, a, b);
    }
  }

  /** In a table ordered by `r`, keys never decrease (ascending) or never increase
      (descending) from one row to any later row. */
  lemma OrderedKeys(r: Ranking, s: seq<ProcessInfo>)
    requires Ordered(Comparator(r), s)
    ensures forall i, j :: 0 <= i < j < |s| ==>
              if r.ascending then KeyLe(r.column, s[i], s[j]) else KeyLe(r.column, s[j], s[i])
  {
    forall i, j | 0 <= i < j < |s|
      ensures if r.ascending then KeyLe(r.column, s[i], s[j]) else KeyLe(r.column, s[j], s[i])
    {
      assert Comparator(r)(s[i], s[j]) != Greater;
      PrecedesMeaning(r, s[i], s[j]);
    }
  }

  /** Sorting by `r` keeps rows tied in the active column in their input order,
      ascending and descending alike. */
  lemma SortKeepsColumnTies(r: Ranking, s: seq<ProcessInfo>, y: ProcessInfo)
    ensures Ties(Tied(r.column), y, Sort(Comparator(r), s)) == Ties(Tied(r.column), y, s)
  {
    ComparatorIsTotalPreorder(r);
    SortKeepsTies(Comparator(r), Tied(r.column), s, y);
  }

  /** Sorting, then selecting the active column and sorting again, keeps tied rows
      in the order they had before either sort: toggling never reshuffles ties. */
  lemma ToggleKeepsTies(r: Ranking, s: seq<ProcessInfo>, y: ProcessInfo)
    ensures Ties(Tied(r.column), y, Sort(Comparator(r.Select(r.column)), Sort(Comparator(r), s)))
            == Ties(Tied(r.column), y, s)
  {
    SortKeepsColumnTies(r.Select(r.column), Sort(Comparator(r), s), y);
    SortKeepsColumnTies(r, s, y);
  }

  /** Two rows tied on CPU: since descending reverses the comparator and not the
      output, the earlier row stays first in both directions. */
  lemma TiedCpuExample()
    ensures
      var p1, p2 := ProcessInfo(1, "a", 0, 5.0), ProcessInfo(2, "b", 0, 5.0);
      && Sort(Comparator(Ranking(Cpu, true)), [p1, p2]) == [p1, p2]
      && Sort(Comparator(Ranking(Cpu, false)), [p1, p2]) == [p1, p2]
  {
    var p1, p2 := ProcessInfo(1, "a", 0, 5.0), ProcessInfo(2, "b", 0, 5.0);
    SortTwo(Comparator(Ranking(Cpu, true)), p1, p2);
    SortTwo(Comparator(Ranking(Cpu, false)), p1, p2);
  }
}
