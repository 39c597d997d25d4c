/** The process table: the state of `TaskManager` (the rows, the ranking state and
    the system-information object's last snapshot), `refresh`, `sort_processes`,
    the initial state built by `new`, and the three arms of `update`. */
module TaskManagerApp {
  import opened Records
  import opened RankingEngine
  import opened InPlaceSort
  import StableSorting

  datatype Option<T> = None | Some(value: T)

  /** `Message`: the events `update` handles. */
  datatype Message = Sort(column: SortColumn) | KillProcess(pid: U32) | Tick

  /** `self.system.process(pid)` finds a process: the snapshot held since the last
      refresh has an entry with this pid. */
  predicate Found(system: seq<RawProcess>, pid: U32) {
    exists i :: 0 <= i < |system| && system[i].pid == pid
  }

  /** The `map(...).collect()` of `refresh`: a new buffer with one row per
      snapshot entry. */
  method Collect(snapshot: seq<RawProcess>) returns (rows: array<ProcessInfo>)
    ensures fresh(rows)
    ensures rows[..] == Build(snapshot)
  {
    rows := new ProcessInfo[|snapshot|];
    var k := 0;
    while k < |snapshot|
      invariant 0 <= k <= |snapshot|
      invariant forall m :: 0 <= m < k ==> rows[m] == ToRecord(snapshot[m])
    {
      rows[k] := ToRecord(snapshot[k]);
      k := k + 1;
    }
  }

  class TaskManager {
    /** `processes`: the rows on display. */
    var processes: array<ProcessInfo>
    /** `sort_column` and `sort_ascending`: the ranking state. */
    var sortColumn: SortColumn
    var sortAscending: bool
    /** `system`: the snapshot the system-information object took at its last
        `refresh_all`. */
    var system: seq<RawProcess>

    function CurrentRanking(): Ranking
      reads this
    {
      Ranking(sortColumn, sortAscending)
    }

    /** The table holds exactly the rows built from the held snapshot, one per
        entry, ordered by the ranking state. */
    ghost predicate Valid()
      reads this, processes
    {
      && multiset(processes[..]) == multiset(Build(system))
      && StableSorting.Ordered(Comparator(CurrentRanking()), processes[..])
    }

    /** `new`: column Pid, ascending, then one refresh. */
    constructor (snapshot: seq<RawProcess>)
      ensures Valid() && fresh(processes)
      ensures CurrentRanking() == InitialRanking
      ensures system == snapshot
      ensures processes[..] == StableSorting.Sort(Comparator(InitialRanking), Build(snapshot))
    {
      processes := new ProcessInfo[0];
      sortColumn := Pid;
      sortAscending := true;
      system := [];
      new;
      Refresh(snapshot);
    }

    /** `refresh`: takes a new snapshot, builds one row per entry and sorts the
        rows by the ranking state, which it leaves as it was. */
    method Refresh(snapshot: seq<RawProcess>)
      modifies this
      ensures Valid() && fresh(processes)
      ensures CurrentRanking() == old(CurrentRanking())
      ensures system == snapshot
      ensures processes[..] == StableSorting.Sort(Comparator(CurrentRanking()), Build(snapshot))
    {
      system := snapshot;
      var rows := Collect(snapshot);
      processes := rows;
      SortProcesses();
      StableSorting.SortPermutes(Comparator(CurrentRanking()), Build(snapshot));
      ComparatorIsTotalPreorder(CurrentRanking());
      StableSorting.SortOrders(Comparator(CurrentRanking()), Build(snapshot));
    }

    /** `sort_processes`: reorders the rows in place by the ranking state. */
    method SortProcesses()
      modifies processes
      ensures processes[..] == StableSorting.Sort(Comparator(CurrentRanking()), old(processes[..]))
    {
      SortBy(processes, Comparator(CurrentRanking()));
    }

    /** `update`. `snapshot` is what the system-information object sees when the
        arm refreshes; the result is the pid a kill signal was sent to, if any. */
    method Update(message: Message, snapshot: seq<RawProcess>) returns (killed: Option<U32>)
      requires Valid()
      modifies this, processes
      ensures Valid()
      // Sort: new ranking state, the same rows re-sorted, no new snapshot.
      ensures message.Sort? ==>
                && CurrentRanking() == old(CurrentRanking()).Select(message.column)
                && system == old(system)
                && processes == old(processes)
                && multiset(processes[..]) == old(multiset(processes[..]))
                && processes[..] == StableSorting.Sort(Comparator(CurrentRanking()), old(processes[..]))
      // Tick and KillProcess: a refresh with the ranking state unchanged.
      ensures !message.Sort? ==>
                && CurrentRanking() == old(CurrentRanking())
                && system == snapshot
                && fresh(processes)
                && processes[..] == StableSorting.Sort(Comparator(CurrentRanking()), Build(snapshot))
      // A kill is requested only for a pid the held snapshot has.
      ensures killed == if message.KillProcess? && Found(old(system), message.pid)
                        then Some(message.pid) else None
    {
      killed := None;
      match message {
        case Tick =>
          Refresh(snapshot);
        case Sort(column) =>
          if sortColumn == column {
            sortAscending := !sortAscending;
          } else {
            sortColumn := column;
            sortAscending := true;
          }
          SortProcesses();
          StableSorting.SortPermutes(Comparator(CurrentRanking()), old(processes[..]));
          ComparatorIsTotalPreorder(CurrentRanking());
          StableSorting.SortOrders(Comparator(CurrentRanking()), old(processes[..]));
        case KillProcess(pid) =>
          if Found(system, pid) {
            killed := Some(pid);
          }
          Refresh(snapshot);
      }
    }
  }

  /** Two processes, refreshed under the initial state, then the Memory header
      selected twice: ascending by pid, ascending by memory, descending by memory. */
  lemma EndToEndScenario()
    ensures
      var snapshot := [RawProcess(10, "a", 3145728, 1.0), RawProcess(20, "b", 1048576, 9.5)];
      var p10, p20 := ProcessInfo(10, "a", 3, 1.0), ProcessInfo(20, "b", 1, 9.5);
      var byMemory := InitialRanking.Select(Memory);
      var t0 := StableSorting.Sort(Comparator(InitialRanking), Build(snapshot));
      var t1 := StableSorting.Sort(Comparator(byMemory), t0);
      var t2 := StableSorting.Sort(Comparator(byMemory.Select(Memory)), t1);
      t0 == [p10, p20] && t1 == [p20, p10] && t2 == [p10, p20]
  {
    var snapshot := [RawProcess(10, "a", 3145728, 1.0), RawProcess(20, "b", 1048576, 9.5)];
    var p10, p20 := ProcessInfo(10, "a", 3, 1.0), ProcessInfo(20, "b", 1, 9.5);
    assert Build(snapshot) == [p10, p20];
    StableSorting.SortTwo(Comparator(InitialRanking), p10, p20);
    StableSorting.SortTwo(Comparator(Ranking(Memory, true)), p10, p20);
    StableSorting.SortTwo(Comparator(Ranking(Memory, false)), p20, p10);
  }
}
