# TaskFlow task board — a verified Dafny model

TaskFlow is a single-page task tracker. Its one stateful component,
`MainFeature`, holds a list of task records. Each task has an id, title,
description, due date, priority, category, status, creation time and
update time. The component offers:

- a form that creates a task or edits one;
- a delete button;
- a status button that cycles todo → in progress → done → todo;
- a kanban board whose drop target sets a task's status;
- a list view filtered by a selector (all, pending, completed, due today,
  overdue, or a category) and a case-insensitive search box, sorted by
  status and then by priority;
- a dashboard with the counts total, completed, pending and overdue.

When storage holds nothing, the component seeds two demo tasks.

This project models that collection logic and proves its properties.

## Modules

- `Text` (`text.dfy`): JavaScript's `trim`, `toLowerCase` and `includes`.
- `Tasks` (`tasks.dfy`): the task record, the form draft, the status cycle,
  the create, edit and move replacements, and the demo tasks.
- `TaskList` (`tasklist.dfy`): the array operations the handlers use.
  These are `filter`, `map` over the tasks with a given id, and `find`.
  The module also has counting lemmas.
- `Ordering` (`ordering.dfy`): the comparator of the list view's `sort`.
  It also holds a stable insertion sort as a function that defines the
  result, and the same sort run in place on an `array` and proved equal to
  that function.
- `Queries` (`queries.dfy`): the filter selector, the search, the view and
  the dashboard statistics.
- `Board` (`board.dfy`): class `TaskBoard`, whose `tasks` field is the
  component's task state. Its methods are the handlers.

## How the model reads the code

- Dates are day numbers and timestamps are integers. The current day
  (`today`), the current time (`now`) and the id of a new task (`newId`) are
  parameters. In the code they come from `new Date()` and `Date.now()`.
- A stored task may hold any string as its status or priority. The extra
  constructors `OtherStatus` and `OtherPriority` carry such a value. Their
  `raw` string is never one of the recognised names (`todo`, `inprogress`,
  `done`; `low`, `medium`, `high`): a stored recognised name is always read
  as its own constructor, so `OtherStatus("todo")` stands for no stored
  task.
- A missing due date, category or timestamp is `None`. An empty date field
  is also `None`. The first demo task has no category and the second has no
  creation time, exactly as in the code.
- Lines 177–188 of `MainFeature.jsx` lack their `switch (filter) {` line.
  The model reads them as a switch on the selector whose default arm
  matches the category.
- In these places the model follows the code as written:
  - Creating a task sets no creation time.
  - The new task's status is always `todo`, whatever the form's status field
    says.
  - Editing or moving an id that no task has changes nothing.
  - Toggling an id that no task has makes `find` yield `undefined`, and the
    handler throws before changing anything. `ToggleStatus` models this
    error path: it returns `false` and leaves the list unchanged.
  - With no filter and no search term, the list view sorts the component's
    own `tasks` array in place. `FilteredTasks` therefore writes the sorted
    view back into `tasks` in that case. In every other case `tasks` is left
    alone.
- The comparator subtracts looked-up ranks. An unrecognised status or
  priority gives `NaN`, which `sort` treats as "equal". `Compare` returns
  `None` for `NaN`.

## Model

| member | source | states |
|---|---|---|
| `Text.Trim` | src/components/MainFeature.jsx:90 | `trim` yields the slice of the title left after dropping all leading and all trailing whitespace: everything cut off is whitespace and the slice neither starts nor ends with whitespace; it is empty exactly when every character is whitespace |
| `Text.TrimStart` | src/components/MainFeature.jsx:90 | only leading whitespace is dropped; the rest is a suffix that does not start with whitespace |
| `Text.TrimEnd` | src/components/MainFeature.jsx:90 | only trailing whitespace is dropped; the rest is a prefix that does not end with whitespace |
| `Text.ToLower` | src/components/MainFeature.jsx:196-197 | lower-casing keeps the length and maps every character on its own |
| `Text.ToLowerIdempotent` | src/components/MainFeature.jsx:196-197 | lower-casing twice equals lower-casing once |
| `Text.Contains` | src/components/MainFeature.jsx:196-197 | `includes` holds exactly when the needle occurs at some index of the haystack |
| `Text.ContainsEmpty` | src/components/MainFeature.jsx:194-198 | the empty term occurs in every string, so an empty search would keep every task |
| `Tasks.NextStatus` | src/components/MainFeature.jsx:142-144 | todo moves to in progress, in progress moves to done, and any other value (done or an unrecognised one) moves to todo; the result is always a column status different from the current one |
| `Tasks.StatusCycleCloses` | src/components/MainFeature.jsx:142-144 | three steps of the cycle return every column status to itself, and one or two steps never do |
| `Tasks.NewTask` | src/components/MainFeature.jsx:104-110 | a created task has the new id, status todo whatever the form says, the form's other five fields, and no timestamps |
| `Tasks.Edited` | src/components/MainFeature.jsx:96-100 | an edited task carries exactly the form's six fields, keeps its id and creation time, and has `updatedAt = now` |
| `Tasks.EditUnchangedDraft` | src/components/MainFeature.jsx:119-127 | submitting the form as `handleEdit` filled it changes only `updatedAt` (edit round trip) |
| `Tasks.MovedTo` | src/components/MainFeature.jsx:148 | a moved task takes the new status and `updatedAt = now`, and no other field changes |
| `Tasks.SampleTasks` | src/components/MainFeature.jsx:56-77 | the demo data is two tasks with distinct ids: in progress and due today, then done and due tomorrow |
| `Tasks.InitialTasks` | src/components/MainFeature.jsx:50-81 | stored tasks are used as they are, even an empty list; when nothing was stored the board holds exactly the demo tasks; it is empty only when an empty list was stored |
| `TaskList.Keep` | src/components/MainFeature.jsx:134 | `filter` never grows the list; with `TaskList.KeepMembers` (exactly the elements that satisfy the predicate are kept), `TaskList.KeepMultiset` (each as often as it occurs) and `TaskList.KeepConcat` (in their order) it is characterised completely |
| `TaskList.FindById` | src/components/MainFeature.jsx:139 | `find` fails exactly when no task has the id; otherwise it returns the first task with that id |
| `TaskList.ApplyWhere` | src/components/MainFeature.jsx:146-150 | the `map` keeps the length; each task with the id is replaced and every other task stays at its position |
| `TaskList.ApplyWhereAbsent` | src/components/MainFeature.jsx:162-166 | mapping over an id no task has leaves the list unchanged |
| `TaskList.ApplyWhereKeepsIds` | src/components/MainFeature.jsx:96-100 | a replacement that keeps ids keeps every position's id, so unique ids stay unique |
| `TaskList.RemoveId` | src/components/MainFeature.jsx:134 | after a delete no task has the id, and every other task remains as often as before |
| `TaskList.RemoveConcat` | src/components/MainFeature.jsx:134 | deleting distributes over concatenation, so the survivors keep their relative order |
| `TaskList.RemoveAbsent` | src/components/MainFeature.jsx:134 | deleting an absent id is a no-op |
| `TaskList.RemoveIdempotent` | src/components/MainFeature.jsx:134 | deleting twice equals deleting once |
| `TaskList.RemoveCount` | src/components/MainFeature.jsx:134 | a delete removes exactly as many tasks as carry the id |
| `TaskList.ApplyAfterRemove` | src/components/MainFeature.jsx:96-100 | after a delete, an edit or a move of that id finds nothing to change |
| `Ordering.StatusRank` | src/components/MainFeature.jsx:203 | `statusOrder` gives a rank in 0..2 exactly to the three column statuses; any other status looks up `undefined` |
| `Ordering.PriorityRank` | src/components/MainFeature.jsx:206 | `priorityOrder` gives a rank in 1..3 exactly to the three recognised priorities; any other priority looks up `undefined` |
| `Ordering.RanksFollowColumns` | src/components/MainFeature.jsx:203-206 | the status ranks follow todo, in progress, done and the priority ranks low, medium, high; distinct recognised values never share a rank |
| `Ordering.Compare` | src/components/MainFeature.jsx:201-208 | the comparator is `NaN` exactly when a rank it needs is missing (a status when the statuses differ, a priority when they agree); otherwise it is negative exactly when the first task has the lower status rank or, under one status, the higher priority; it is 0 exactly for tasks with the same status and the same recognised priority |
| `Ordering.OutOfOrderAsymmetric` | src/components/MainFeature.jsx:201-208 | the comparator never asks for both orders of one pair |
| `Ordering.OutOfOrderRanked` | src/components/MainFeature.jsx:202-207 | for recognised values, the comparator asks for a swap exactly when the pair violates the order "status rank ascending, then priority rank descending" |
| `Ordering.Insert` | src/components/MainFeature.jsx:201-208 | one insertion step adds exactly one element |
| `Ordering.Sort` | src/components/MainFeature.jsx:201-208 | the sorted view has the length of its input |
| `Ordering.SortPermutes` | src/components/MainFeature.jsx:201-208 | the sorted view is a permutation of its input |
| `Ordering.SortedWhenRanked` | src/components/MainFeature.jsx:201-208 | when every status and priority is recognised, the view is ordered by status rank and, within a status, by priority from high to low |
| `Ordering.SortStable` | src/components/MainFeature.jsx:201-208 | tasks with the same status and the same priority keep their relative order; pairs the comparator calls equal only because it yields `NaN` are not covered |
| `Ordering.SortNeighboursInOrder` | src/components/MainFeature.jsx:201-208 | for any stored values, no two neighbours of the result are a pair the comparator would swap |
| `Ordering.SortIdempotent` | src/components/MainFeature.jsx:201-208 | sorting an already sorted view changes nothing |
| `Ordering.SortExample` | src/components/MainFeature.jsx:201-208 | a done task followed by a high-priority todo and a low-priority todo is listed as high todo, low todo, done |
| `Ordering.InsertInPlace` | src/components/MainFeature.jsx:201 | one pass of the in-place sort turns the array's prefix into the insertion of the next element, and leaves the elements after it untouched |
| `Ordering.SortInPlace` | src/components/MainFeature.jsx:201 | the in-place sort leaves the array holding the sorted view of its old contents |
| `Queries.IsOverdue` | src/components/MainFeature.jsx:185 | an overdue task has a due date, is not due today and is not done (the date test is read as "due day before today", see Left out) |
| `Queries.MatchesFilter` | src/components/MainFeature.jsx:176-188 | `all` passes every task; `completed` passes exactly the done tasks; `pending` exactly the tasks in the todo or in-progress column; `today` exactly the tasks due today; `overdue` exactly the overdue tasks, which are never done and never due today; a category filter exactly the tasks of that category |
| `Queries.MatchesSearch` | src/components/MainFeature.jsx:194-198 | the empty term matches every task, and a matching term is no longer than the title or the description |
| `Queries.Select` | src/components/MainFeature.jsx:174-199 | a task is selected exactly when it is in the list, passes the selector (completed, pending, due today, overdue or category) and contains the lower-cased term in its lower-cased title or description |
| `Queries.View` | src/components/MainFeature.jsx:173-210 | `getFilteredTasks` returns exactly the selected tasks, each as often as the selection holds it; a task is in it exactly when it is in the list and passes the selector and the search |
| `Queries.ViewSorted` | src/components/MainFeature.jsx:201-208 | with recognised statuses and priorities, the view is ordered by status and then by priority |
| `Queries.ViewStable` | src/components/MainFeature.jsx:201-208 | tied tasks appear in the view in list order |
| `Queries.SelectAllEmpty` | src/components/MainFeature.jsx:174-199 | with no filter and no term, the selection is the task list itself |
| `Queries.ViewAgain` | src/components/MainFeature.jsx:174 | after the unfiltered view has been written back into the list, computing it again gives the same view |
| `Queries.CompletedPendingComplement` | src/components/MainFeature.jsx:178-181 | for a column status, a task is completed exactly when it is not pending |
| `Queries.Stats` | src/components/MainFeature.jsx:212-218 | `total` is the list length; completed and pending never exceed the total together, nor do completed and overdue; when every status is a column status, completed + pending = total and overdue ≤ pending |
| `Queries.ViewCountsMatchStats` | src/components/MainFeature.jsx:178-185 | the completed, pending and overdue views without a term have the sizes the dashboard shows |
| `Queries.SortCount` | src/components/MainFeature.jsx:201-217 | sorting preserves every filtered count |
| `Queries.StatsIgnoreOrder` | src/components/MainFeature.jsx:201-217 | the in-place reordering of the list leaves the dashboard numbers unchanged |
| `Queries.CreateStats` | src/components/MainFeature.jsx:104-110 | a created task adds one to the total and to pending, leaves completed unchanged, and adds one to overdue only if it is overdue |
| `Queries.SampleStats` | src/components/MainFeature.jsx:56-77 | the demo data has total 2, completed 1, pending 1 and unique ids; overdue is 0 under the model's day comparison, where the code's would count the first demo task (see Left out) |
| `Queries.SearchMissEmpty` | src/components/MainFeature.jsx:194-199 | a term found in no title or description gives an empty view |
| `Queries.SearchIgnoresCase` | src/components/MainFeature.jsx:196-197 | a term and its lower-cased form select the same tasks |
| `Board.MoveChangesOnlyStatus` | src/components/MainFeature.jsx:162-166 | a drop changes only the status and `updatedAt` of the dragged tasks, and nothing else in the list |
| `Board.EditChangesOnlyTarget` | src/components/MainFeature.jsx:96-100 | an edit gives the target the form's fields and a new `updatedAt`, keeps its id and creation time, and leaves the length and every other task unchanged |
| `Board.Toggled` | src/components/MainFeature.jsx:138-150 | a toggle fails exactly when no task has the id; otherwise it keeps the length and every other task, changes only the status and `updatedAt` of the matching tasks, and gives every one of them the status after that of the first task with the id (with unique ids: one step along its own cycle) |
| `Board.ToggleThrice` | src/components/MainFeature.jsx:138-150 | three toggles restore the task except for `updatedAt`, and leave every other task as it was |
| `Board.MovesKeepIdsUnique` | src/components/MainFeature.jsx:96-166 | edit, move and delete keep task ids unique |
| `Board.CreateKeepsIdsUnique` | src/components/MainFeature.jsx:104-110 | creating with a fresh id keeps ids unique, and the new task is in the unfiltered view |
| `Board.TaskBoard.constructor` | src/components/MainFeature.jsx:50-81 | on mount the board holds the stored tasks, or the demo tasks when nothing is stored |
| `Board.TaskBoard.Submit` | src/components/MainFeature.jsx:88-117 | a title that trims to empty is rejected and nothing changes; an edit replaces the target through `Edited`; a create puts the new todo task at index 0, followed by the old list unchanged |
| `Board.TaskBoard.Delete` | src/components/MainFeature.jsx:133-136 | the list becomes the delete result, and is unchanged when the id is absent |
| `Board.TaskBoard.ToggleStatus` | src/components/MainFeature.jsx:138-154 | it succeeds exactly when the id is present and then stores the toggle result; otherwise nothing changes |
| `Board.TaskBoard.DragEnd` | src/components/MainFeature.jsx:156-170 | a drop with no destination changes nothing; otherwise the dragged tasks move to the destination column |
| `Board.TaskBoard.FilteredTasks` | src/components/MainFeature.jsx:173-210 | it returns the sorted selection; with no filter and no term the task list becomes that sorted view, and otherwise it is unchanged |

## Left out

- Rendering is left out because it is presentation only. This covers JSX,
  framer-motion animation, toasts, icons, the list/grid/kanban view modes
  and the drag-and-drop library's mechanics. A drop is reduced to the
  dragged id and the target column.
- Browser storage is left out because it is I/O. This covers the
  `localStorage` reads and writes, JSON encoding, and the save effect that
  runs on every change. The stored value is a parameter: the parsed list,
  or nothing.
- React's state scheduling and the order in which effects run are left out.
  So is the fact that the in-place sort changes `tasks` without telling
  React. The sort runs while rendering; after a `setTasks` the save effect
  of lines 84-86 runs after that render and stores the already sorted list.
  A render that does not change `tasks` (switching back to "all", clearing
  the search) sorts the list without saving it or rendering again.
- Form and view bookkeeping is left out: `handleEdit`, `editingTask`,
  `showForm`, `viewMode`, the cancel button, and resetting the form after a
  submit. The id of the task being edited is a parameter of `Submit`.
- The clock and date formatting are parameters (`today`, `now`, `newId`).
  This covers `new Date()`, `Date.now()`, `format`, `addDays` and the
  `yyyy-MM-dd` strings.
- Queries.IsOverdue: uses "due day < today". The code calls `isPast` on
  `new Date(dueDate)`, which parses a `yyyy-MM-dd` string as UTC midnight
  of that day, and compares it with the current instant. In UTC and every
  timezone west of it, a task due today is therefore overdue for the whole
  local day; east of UTC it becomes overdue once the local time passes the
  zone's offset. Consequences the model does not reproduce: the first demo
  task, due today and in progress, counts as overdue on a fresh install
  (`Queries.SampleStats` proves 0 under the model's reading); a task can
  pass both the `today` and the `overdue` filters in the code, never in the
  model; and west of UTC a task due tomorrow becomes overdue in the code
  once the local clock passes UTC midnight of tomorrow (19:00 in UTC-5),
  so from that evening on it passes the `overdue` filter and counts in the
  dashboard's overdue number, while it still does not pass `today`. `Queries.Stats`, `Queries.MatchesFilter` and
  `Queries.CreateStats` inherit this simplification.
- Text.ToLower: maps only ASCII letters. JavaScript's `toLowerCase` applies
  full Unicode case mapping.
- Text.Contains: works on Unicode scalar values. JavaScript strings are
  UTF-16 code units, so a search term containing a lone surrogate could
  match half of a character pair in the code but not in the model.
- Ordering.Sort: an unrecognised status or priority makes the comparator
  return `NaN`, which `sort` reads as "equal". That can make the comparator
  inconsistent (for three or more tasks it need not be a total preorder;
  two tasks alone are always consistent), and then the engine's order is
  implementation-defined. The model uses one stable insertion sort;
  sortedness is proved only for recognised values, and permutation holds
  for all inputs.
- Ordering.SortStable: proves that tasks with the same status and the same
  priority keep their order, for all inputs. Tasks that the comparator
  calls equal only through `NaN` are not covered, because for them the
  engine's order is not determined.
- Tasks.Task: every task has a title and a description string. A stored
  task without a description would make the search's `toLowerCase` throw.
  The model does not include that failure.
- Board.TaskBoard.Submit: a new task's id comes from the clock in the code
  and can repeat an existing id. The model takes the id as a parameter, and
  `Board.CreateKeepsIdsUnique` proves unique ids only for an id that is not
  already present.
