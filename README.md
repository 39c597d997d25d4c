# Process table of a small task manager, in Dafny

This project models the process table behind a desktop task manager, `TaskManager`
in `src/main.rs`. The rest of that program is GUI code. The table is rebuilt from an
operating-system snapshot on every tick. It is sorted by a column the operator picks
by clicking a header; a second click on the same header reverses the direction. A
kill request is always followed by a fresh snapshot.

Modules, one per component:

- `Ordering` (`ordering.dfy`): Rust's three-way `Ordering` with `reverse`. It also
  holds the comparisons the table ranks by: integers, the CPU value, and names.
  Names are compared lexicographically. This comparison is proved to agree with an
  independent definition of lexicographic order, `LexLe`.
- `Records` (`records.dfy`): a snapshot entry (`RawProcess`) and a table row
  (`ProcessInfo`). `ToRecord` is the per-entry mapping done in `refresh`. It turns
  bytes into whole megabytes with `bytes / 1024 / 1024`, which is proved equal to
  the floor of `bytes / 1048576`.
- `StableSorting` (`stable_sort.dfy`): the contract of `slice::sort_by` for any
  comparator that is a total preorder. `Sort` is the table that `sort_by` leaves
  behind, written as insertion sort. It is proved to permute its input and to order
  it. It is proved stable: elements the comparator calls `Equal` keep their input
  order. It is also proved unique: any ordered, stable permutation of the input
  equals it. So the choice of stable algorithm does not change the result.
- `RankingEngine` (`ranking.dfy`): the ranking state (`Ranking`: column, ascending)
  and its `Select` rule. It also holds the comparator handed to `sort_by`
  (`Compare`, and `Comparator` as a value). The comparator is proved a total
  preorder, in both directions. Its ties are proved to be exactly the rows with
  equal keys in the active column. Its order is proved to be the per-column key
  order: numeric for pid, memory and CPU, lexicographic for names.
- `InPlaceSort` (`insertion_sort.dfy`): the in-place sort of `sort_processes`. It is
  an insertion sort on an `array`, proved to leave `Sort` of the old contents.
- `TaskManagerApp` (`task_manager.dfy`): the class `TaskManager`. Its fields are
  `processes`, `sortColumn`, `sortAscending` and `system`, the snapshot the
  system-information object holds. It has the constructor (`new`), `Refresh`,
  `SortProcesses` and `Update` for the `Tick`, `Sort` and `KillProcess` messages.
  Every operation keeps `Valid()` true: the rows are exactly the records built from
  the held snapshot, ordered by the ranking state.

Inputs from the outside world are parameters. The snapshot `refresh_all` would read
is a `seq<RawProcess>`; its order is arbitrary, as that library returns a hash map.
`self.system.process(pid)` is a lookup in the snapshot the object holds. The kill
itself is the result `Update` returns: the pid a kill was requested for, if any. Its
outcome is discarded in the source and is not modelled.

Descending order: the code reverses the comparator, pair by pair (`cmp.reverse()`,
`src/main.rs:86`). As a result, tied rows keep their input order in both directions
(`SortKeepsColumnTies`, `TiedCpuExample`); reversing the output would swap them.

## Model

| member | source | states |
|---|---|---|
| `Ordering.Ordering.Reverse` | src/main.rs:83-87 | reversing keeps `Equal` and swaps `Less` with `Greater` |
| `Ordering.CmpStrReverse` | src/main.rs:79 | comparing names the other way round gives the reversed ordering |
| `Ordering.CmpStrEqual` | src/main.rs:79 | two names compare `Equal` exactly when they are the same string |
| `Ordering.CmpStrTransitive` | src/main.rs:79 | "not greater" on names is transitive |
| `Ordering.CmpStrIsLex` | src/main.rs:79 | the name comparison is "not greater" exactly when the first name is a prefix of the second or has the smaller character at the first difference |
| `Records.DivideTwice` | src/main.rs:67 | dividing by 1024 twice equals dividing by 1048576 |
| `Records.ToRecord` | src/main.rs:64-69 | a row keeps the entry's pid, name and CPU; its memory is the floor of bytes / 1048576 (`m * 1048576 <= bytes < (m + 1) * 1048576`) |
| `Records.MemoryConversionExamples` | src/main.rs:67 | 2097152 bytes give 2 MB; 1000000 and 1048575 bytes give 0; 1048576 gives 1 |
| `RankingEngine.Ranking.Select` | src/main.rs:130-135 | the new column is the requested one; ascending unless the requested column was active and ascending |
| `RankingEngine.SelectActiveTwice` | src/main.rs:130-131 | selecting the active column flips the direction; doing it twice restores the state |
| `RankingEngine.SelectNewTwice` | src/main.rs:132-134 | selecting another column gives that column ascending, and selecting it again gives descending |
| `RankingEngine.KeyCmpReverse` | src/main.rs:77-82 | swapping the rows reverses the per-column comparison |
| `RankingEngine.KeyCmpTransitive` | src/main.rs:77-82 | the per-column "not greater" is transitive |
| `RankingEngine.CompareReverse` | src/main.rs:76-88 | the comparator given to `sort_by` is antisymmetric, in both directions |
| `RankingEngine.CompareEqualIsSameKey` | src/main.rs:83-87 | the comparator says `Equal` exactly on tied rows, ascending or descending |
| `RankingEngine.PrecedesTransitive` | src/main.rs:76-88 | "may precede" under the comparator is transitive |
| `RankingEngine.PrecedesMeaning` | src/main.rs:76-87 | a row may precede another exactly when its key is smaller or equal (ascending) or larger or equal (descending): pid and memory numerically, name lexicographically, CPU numerically |
| `RankingEngine.ComparatorIsTotalPreorder` | src/main.rs:76-88 | the comparator given to `sort_by` is a total preorder, and it says `Equal` exactly on rows tied in the active column, ascending or descending |
| `RankingEngine.OrderedKeys` | src/main.rs:76-87 | in a table ordered by the comparator, keys never decrease (ascending) or never increase (descending) from one row to any later row |
| `RankingEngine.SortKeepsColumnTies` | src/main.rs:76-88 | after sorting, rows tied in the active column keep their input order, ascending and descending |
| `RankingEngine.ToggleKeepsTies` | src/main.rs:129-136 | sorting, then sorting again after selecting the same column, keeps tied rows in their original order |
| `RankingEngine.TiedCpuExample` | src/main.rs:81-87 | two rows tied on CPU 5.0 stay in input order both ascending and descending |
| `StableSorting.EqualReflexive` | src/main.rs:76 | under a total preorder every element ties with itself |
| `StableSorting.InsertPermutes` | src/main.rs:76 | inserting an element adds that element and nothing else |
| `StableSorting.SortPermutes` | src/main.rs:76 | the sorted sequence has the same multiset of elements as the input |
| `StableSorting.InsertOrders` | src/main.rs:76 | inserting into an ordered sequence keeps it ordered |
| `StableSorting.SortOrders` | src/main.rs:76 | every pair of elements in the sorted sequence is in the comparator's order |
| `StableSorting.TiesAppend` | src/main.rs:76 | the tied elements of a concatenation are those of each part, in order |
| `StableSorting.TiesSingleton` | src/main.rs:76 | a one-element sequence has that element as its tie exactly when it is tied |
| `StableSorting.PassedNotTied` | src/main.rs:76 | an element moved past another is not tied with it, so the two are never both tied with a third |
| `StableSorting.TiesMovedPast` | src/main.rs:76 | moving an element past one it is not tied with leaves the order of ties unchanged |
| `StableSorting.InsertTies` | src/main.rs:76 | inserting an element puts it after every element it is tied with |
| `StableSorting.SortKeepsTies` | src/main.rs:76 | elements tied with any given element keep their input order after sorting |
| `StableSorting.PrecedesLast` | src/main.rs:76 | every element of an ordered sequence may precede its last element |
| `StableSorting.LastTied` | src/main.rs:76 | two ordered sequences with the same elements end in tied elements |
| `StableSorting.SameLast` | src/main.rs:76 | if they also keep ties in the same order, they end in the same element |
| `StableSorting.DropSameLast` | src/main.rs:76 | removing that common last element keeps the same elements and the same order of ties |
| `StableSorting.OrderedUnique` | src/main.rs:76 | two ordered sequences with the same elements and the same order of ties are equal |
| `StableSorting.SortUnique` | src/main.rs:76 | any ordered permutation of the input that keeps ties in input order is `Sort` of it |
| `StableSorting.SortTwo` | src/main.rs:76 | two elements are swapped exactly when the comparator says `Greater` |
| `InPlaceSort.InsertPosition` | src/main.rs:76 | `Insert` places the element right after the last one that does not compare greater than it |
| `InPlaceSort.InsertAt` | src/main.rs:76 | moving one element left into the sorted prefix leaves the prefix equal to `Insert` of that element, and the rest of the array unchanged |
| `InPlaceSort.SortBy` | src/main.rs:76-88 | the array is left equal to `Sort` of its old contents under the given comparator |
| `TaskManagerApp.Collect` | src/main.rs:61-70 | a fresh buffer holding one row per snapshot entry, built by `ToRecord`, in snapshot order |
| `TaskManagerApp.TaskManager.constructor` | src/main.rs:100-107 | column Pid, ascending, the snapshot held, rows equal to `Sort` of the records of that snapshot, `Valid()` |
| `TaskManagerApp.TaskManager.Refresh` | src/main.rs:59-72 | the snapshot is replaced; the rows are the records built from it, sorted by the unchanged ranking state; `Valid()` |
| `TaskManagerApp.TaskManager.SortProcesses` | src/main.rs:75-89 | the rows become `Sort` of the old rows under the current ranking state |
| `TaskManagerApp.TaskManager.Update` | src/main.rs:121-147 | `Sort`: ranking state becomes `Select` of the old one; no new snapshot; same multiset of rows, re-sorted. `Tick`, `KillProcess`: ranking unchanged, new snapshot, rows rebuilt and sorted. A kill is requested exactly when the pid is in the held snapshot. `Valid()` kept |
| `TaskManagerApp.EndToEndScenario` | src/main.rs:101-136 | pids 10 (3 MB) and 20 (1 MB): by pid [10, 20]; Memory selected gives [20, 10]; selected again gives [10, 20] |

## Left out

- CPU values: the source's `f32` is a `real` here, so NaN cannot occur. The fallback `partial_cmp(...).unwrap_or(Equal)` (`src/main.rs:81`) is therefore never taken. With a NaN the comparator is not a total order, and what `sort_by` then does is unspecified, and it may panic.
- The `{:.1}` display format of the CPU column, and `view`, `title`, `theme`, `subscription` (the 5-second timer) and `main` (`src/main.rs:111-205`). These are GUI code with nothing to state.
- The system-information library (`System::new_all`, `refresh_all`, `processes`, `process`, `kill`). The snapshot is an input. `process(pid)` is a lookup in the held snapshot. The kill's effect shows only through the snapshot given to the next refresh.
- The conversions `pid.as_u32()` and `Pid::from(pid as usize)`. Pids are taken to be `u32` on both sides.
- Rust's `sort_by` algorithm. It is replaced by an insertion sort. `SortUnique` shows that every stable sort with this comparator gives the same result, so the replacement does not change the table.
- The `Command` values `update` and `new` return (always `Command::none()`).
