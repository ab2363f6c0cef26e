# Task table of my-todo-list, modelled in Dafny

This project models the client-side task list of the `App` component in
`src/App.jsx`. The component holds the list of task rows and a `loading` flag.
Its handlers fetch the list, patch one column of a row, add a row, delete a row
and reorder rows by drag and drop. A row's priority cycles through
LOW → MEDIUM → HIGH → URGENT → LOW, and a row's "time left" cell splits a
deadline into urgency buckets.

Modules:

- `Wrappers` (`wrappers.dfy`): `Option`, and `Falsy`, which is JavaScript falsiness of a nullable string.
- `Priorities` (`priorities.dfy`): `priorityOrder`, the normalisation of a row's priority (upper case, MEDIUM when null or empty), `indexOf`, and the next priority chosen by `cyclePriority`.
- `Urgency` (`urgency.dfy`): `getTimeLeft`, with the colour class reduced to the identity of its bucket (`Shade`), and the decimal text of the "N DAYS" labels.
- `Tasks` (`tasks.dfy`): the `Task` row, the patch of one column of a row, the status toggle, and the new lists the handlers build with `map`, `filter`, `findIndex` and `arrayMove`.
- `Board` (`board.dfy`): class `TaskBoard`. Its fields `tasks` and `loading` are the component state. Its methods are the handlers, each overwriting the state the way `setTasks`/`setLoading` do.

Remote calls become parameters:
- `UpdateTaskField` takes `error: bool`.
- `AddTask` takes the row the insert returned as an `Option<Task>`. It returns the insert it issues, or `None` when it issues none.
- `FetchTasks` takes the data the select returned as an `Option<seq<Task>>`.

The whole-day difference `diffDays` is a parameter of `GetTimeLeft`. `AddTask` takes the default deadline as its `today` parameter.

The code's behaviour worth noting:
- An unrecognised non-empty priority cycles to LOW, because `indexOf` gives -1 (src/App.jsx:144-145).
- The "N DAYS" bands are 1–4 (red), 5–9 (yellow) and 10 or more (emerald) (src/App.jsx:133-135).
- `addTask` ignores only a null or empty name; a whitespace-only name is inserted (src/App.jsx:151).
- The code reads and writes no order column. The display order is the fetch order by id, changed only locally by drag and drop (src/App.jsx:116, 163-171).
- `deleteTask` drops the row locally whatever the store answers (src/App.jsx:159-160).

## Model

| member | source | states |
|---|---|---|
| Priorities.ToUpper | src/App.jsx:21 | same length; each ASCII lower-case letter becomes its upper case, every other character is kept |
| Priorities.Normalize | src/App.jsx:21 | the normalised priority is never empty and is its own upper case |
| Priorities.NormalizeCases | src/App.jsx:144 | a null or empty priority normalises to MEDIUM; any other string to its upper case |
| Priorities.IndexOf | src/App.jsx:144 | -1 exactly when the value is absent; otherwise a position holding the value with no earlier occurrence |
| Priorities.NextPriority | src/App.jsx:143-146 | the priority written is always one of LOW, MEDIUM, HIGH, URGENT |
| Priorities.NextFollowsOrder | src/App.jsx:111 | each entry of the order advances to the next entry, URGENT wrapping to LOW |
| Priorities.CyclePeriodFour | src/App.jsx:145 | four clicks from a recognised priority return it |
| Priorities.CycleBijective | src/App.jsx:145 | on the four entries the cycle is injective and every entry has a predecessor |
| Priorities.FalsyGoesHigh | src/App.jsx:144-145 | an absent or empty priority counts as MEDIUM, so the next one is HIGH |
| Priorities.UnrecognisedGoesLow | src/App.jsx:144-145 | a non-empty string whose upper case is not in the order has index -1, so the next priority is LOW |
| Priorities.CycleIgnoresCase | src/App.jsx:144 | the next priority of a string equals that of its upper case |
| Priorities.NormalizeStable | src/App.jsx:58 | the row hands `cyclePriority` its already normalised `p`; normalising again changes neither `p` nor the next priority |
| Priorities.UpperIdempotent | src/App.jsx:21 | upper-casing twice is upper-casing once |
| Urgency.Decimal | src/App.jsx:133 | the day count is written as non-empty decimal digits with no leading zero |
| Urgency.DecimalRoundTrip | src/App.jsx:133 | reading the decimal text back gives the day count |
| Urgency.GetTimeLeft | src/App.jsx:121-135 | the seven buckets, each with the inputs that lead to it: DONE iff done; NO DATE iff open with a falsy deadline; then by `diffDays`: below 0, 0, 1–4, 5–9, 10 or more; the four fixed buckets carry the labels DONE, NO DATE, OVERDUE and TODAY |
| Urgency.DaysLabelCarriesCount | src/App.jsx:133-135 | a label holds a day count exactly in the three "N DAYS" buckets; that count is `diffDays`, and the label is exactly its canonical decimal text followed by " DAYS" |
| Urgency.PressureFallsWithDistance | src/App.jsx:131-135 | for an open task with a deadline, a later deadline is never shown as more pressing |
| Tasks.SetField | src/App.jsx:140 | the patched row keeps its id, has the new value in the field, and every other field is unchanged |
| Tasks.ToggledStatus | src/App.jsx:33 | the toggle writes Completed exactly when the status was not Completed, and only ever writes Completed or To Do |
| Tasks.ToggleTwice | src/App.jsx:33 | toggling Completed or To Do twice gives the original status back |
| Tasks.UpdateById | src/App.jsx:140 | the length and the id at every position are kept; every row with the id is patched as `SetField` says; every other row is untouched |
| Tasks.UpdateIdempotent | src/App.jsx:140 | writing the same value twice gives the same list as writing it once |
| Tasks.WithoutId | src/App.jsx:160 | a row is in the result exactly when it is in the input and does not carry the id |
| Tasks.WithoutIdConcat | src/App.jsx:160 | filtering a concatenation filters each part, so the kept rows stay in their original relative order |
| Tasks.WithoutIdAbsent | src/App.jsx:160 | deleting an id that no row carries changes nothing |
| Tasks.DeleteTwice | src/App.jsx:160 | after a delete no row carries the id, and deleting it again gives the same list |
| Tasks.FindIndex | src/App.jsx:167-168 | -1 exactly when no row carries the id; otherwise the first row that does |
| Tasks.ArrayMove | src/App.jsx:169 | same length and same multiset of elements; the moved element lands at `to`; removing it from the result gives the input with `from` removed, so every other element keeps its relative order |
| Tasks.ArrayMoveUndo | src/App.jsx:169 | dragging from `to` back to `from` restores the list |
| Tasks.ArrayMoveFirstToLast | src/App.jsx:169 | moving the first row to the last position rotates the list by one |
| Tasks.DragEnd | src/App.jsx:163-171 | equal ids leave the list unchanged; otherwise the result is a permutation in which the dragged row now sits at the drop row's old index and the other rows keep their order |
| Board.TaskBoard.constructor | src/App.jsx:103-104 | an empty list, still loading |
| Board.TaskBoard.FetchTasks | src/App.jsx:115-119 | the list is replaced when data came back and kept otherwise; loading ends either way |
| Board.TaskBoard.UpdateTaskField | src/App.jsx:138-141 | on error the list is unchanged; otherwise it is `UpdateById` of the old list |
| Board.TaskBoard.CyclePriority | src/App.jsx:143-147 | writes `NextPriority` of the given priority through `UpdateTaskField` |
| Board.TaskBoard.ToggleDone | src/App.jsx:33 | writes the toggled status of the row through `UpdateTaskField` |
| Board.TaskBoard.AddTask | src/App.jsx:149-156 | a falsy name issues no insert and changes nothing; otherwise the insert has status To Do, priority MEDIUM and the given deadline, and a returned row is appended to the unchanged old list |
| Board.TaskBoard.DeleteTask | src/App.jsx:158-161 | the list becomes `WithoutId` of the old list |
| Board.TaskBoard.HandleDragEnd | src/App.jsx:163-172 | the list becomes `DragEnd` of the old list |

## Left out

- The store calls (`select`, `update`, `insert`, `delete`) are remote I/O. They are replaced by the parameters described above.
- Date construction and the millisecond arithmetic behind `diffDays` (`new Date`, `setHours`, `Math.ceil`, src/App.jsx:125-129) are left out: they involve floating point, time zones and the parsing of date-only strings as UTC. `diffDays` is an integer parameter. A NaN day count from an unparseable deadline is not modelled.
- The default deadline `new Date().toISOString().split('T')[0]` depends on the clock and on UTC. It is the `today` parameter.
- `prompt()` is UI. Its result is the `name` parameter.
- Rendering is left out: the Tailwind class strings, the priority badge colours of lines 59-63, the icons, and the dnd-kit sensors and collision detection. For the time-left cell only the identity of its colour bucket is kept.
- Stale closures are not modelled. `updateTaskField` (src/App.jsx:140, and `cyclePriority` and the status toggle through it), `addTask` (src/App.jsx:155) and `deleteTask` (src/App.jsx:160) build the new list from the one captured before their `await`, so interleaved async completions can overwrite each other. `fetchTasks` instead replaces the list with the fetched rows (src/App.jsx:117), overwriting any local edit made while its select was in flight. Each handler is modelled as one atomic step on the current list.
- Rows hold only the five columns `id`, `name`, `status`, `priority` and `deadline`; any other column `select('*')` returns is dropped, and `name` and `status` are never null (a null status would toggle to Completed, as any status other than Completed does).
- Priorities.ToUpper: only ASCII letters are upper-cased. Unicode mappings that `toUpperCase` also performs (dotless i to I, sharp s to SS) are not modelled.
- Board.TaskBoard.HandleDragEnd: requires that, when the two ids differ, both occur in the list. dnd-kit takes the ids from the rendered list. The `findIndex` result -1 is not modelled, because it depends on the negative-index handling of `arrayMove`, and neither is a null `over`, which throws.
- Tasks.ArrayMove: `arrayMove` belongs to @dnd-kit/sortable and is not part of this model. It is modelled by its documented behaviour on in-range positions: remove the element at `from`, then insert it at `to`.
- Board.TaskBoard.AddTask: when the insert succeeds with an empty row array, the source appends `undefined`. That case is not modelled: the returned row is an `Option<Task>`.
- The study dashboard, the focus timer, readiness percentages and the weekly series do not appear in `src/App.jsx`, so they are not part of this model.
