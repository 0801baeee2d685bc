# tadoo task logic in Dafny

This project models the logic of the tadoo todo application:

- **Task list view** (`src/components/TaskList.tsx`). The component keeps three pieces of state: a local list of tasks, a sort option (priority, due date, status or title) and a sort direction. It updates the list optimistically when a status changes or a task is deleted. It rolls back to the query-cache snapshot when the server reports an error. It replaces the list whenever its prop changes. The display order is computed on a copy.
  - The state is the class `TaskListView.TaskList`.
  - The display order is `TaskOrder.SortTasks`: a stable insertion sort with the source's comparator.
- **Task router** (`src/server/api/routers/task.ts`). It has four procedures over the `tasks` table, each run for an authenticated caller: `createTask`, `getTasks`, `updateTaskTodoStatus` and `deleteTask`.
  - The table is the class `TaskRouter.TaskStore`: a sequence of rows plus the next id to allocate.
  - Input validation is `TaskRouter.ValidateCreate`.
- **Header initials** (`src/app/_components/Header.tsx`). `getUserInitials` is `Header.GetUserInitials`.

The record and the edits that client and server share (`WithStatus`, `WithoutId`, `OwnedBy`) are in module `Tasks`. Module `Reconcile` shows that each optimistic edit predicts what the refetch after a successful mutation returns, assuming the table keeps its row order across an update (see "## Left out").

## The update guard as written

`updateTaskTodoStatus` first selects the rows with the given id that the caller owns. It then throws if that selection is falsy. The selection is an array, and every JavaScript array is truthy, even an empty one. So the guard never fires:
- an update with an unknown id succeeds with no task;
- an update of another user's row changes that row.

The guard's error message at `src/server/api/routers/task.ts:51` ("Task not found or unauthorized to update.") shows that both cases were meant to be rejected. The model follows the code as written:
- `TaskRouter.UpdateGuardNeverFires` states the guard's behaviour.
- `TaskRouter.TaskStore.UpdateTaskTodoStatus` never returns `NotFound` and edits every row with the id.
- `TaskRouter.UpdateUnknownId` works through the unknown-id case.

`deleteTask` tests the length of its selection and does reject.

## Model

| member | source | states |
|---|---|---|
| `TaskOrder.PriorityRankValues` | src/components/TaskList.tsx:108-112 | the priority rank is high 3, medium 2, low 1, and 0 for an absent or unrecognised priority, compared after lower-casing |
| `TaskOrder.StatusRankValues` | src/components/TaskList.tsx:118-122 | the status rank is 1 exactly for "completed" in any case, and 0 for pending, absent or unrecognised |
| `TaskOrder.UndatedPlacement` | src/components/TaskList.tsx:114-116 | by due date, undated tasks (ranked MAX_SAFE_INTEGER) come after every dated task ascending and before every dated task descending |
| `TaskOrder.CompareAntisymmetric` | src/components/TaskList.tsx:105-125 | swapping the operands negates the comparison, for every sort option |
| `TaskOrder.CompareZeroIffSameKey` | src/components/TaskList.tsx:105-125 | two tasks tie exactly when their rank, or their title, is equal |
| `TaskOrder.PrecedesTransitive` | src/components/TaskList.tsx:104-128 | the directed comparator is transitive in both directions, so the sort gets a consistent comparator |
| `TaskOrder.SortTasksIsPermutation` | src/components/TaskList.tsx:104 | the sorted list holds the same tasks as `tasks`, with multiplicity |
| `TaskOrder.SortTasksIsSorted` | src/components/TaskList.tsx:104-128 | in the sorted list every task may precede every later one under the comparator, negated for desc |
| `TaskOrder.SortTasksIsStable` | src/components/TaskList.tsx:127 | tasks with equal keys keep their input order, in both directions |
| `TaskOrder.StableSortIsUnique` | src/components/TaskList.tsx:104 | two sorted, tie-order-preserving permutations of one list are equal, so any stable sort with this comparator gives `SortTasks` |
| `TaskOrder.SortTasksCharacterised` | src/components/TaskList.tsx:101-129 | a list is the display order exactly when it is a permutation of `tasks`, sorted, and keeps the order of ties |
| `TaskOrder.SortedByRank` | src/components/TaskList.tsx:107-122 | for priority, due date and status the output rank is non-decreasing for asc and non-increasing for desc |
| `TaskOrder.SortedByTitle` | src/components/TaskList.tsx:123-127 | by title the output is in comparator order for asc and in reverse order for desc |
| `TaskListView.NextSort` | src/components/TaskList.tsx:131-142 | choosing the current option keeps it and flips the direction; another option is selected with direction desc |
| `TaskListView.ChooseCurrentTwice` | src/components/TaskList.tsx:135-137 | choosing the current option twice restores the sort state |
| `TaskListView.ChooseNewTwice` | src/components/TaskList.tsx:135-142 | choosing a new option twice sorts by it ascending |
| `TaskListView.StatusForCheckbox` | src/components/TaskList.tsx:90-95 | a checked box sends "completed" and an unchecked box sends "pending" |
| `TaskListView.TaskList.constructor` | src/components/TaskList.tsx:31-34 | the list starts with its prop, sorted by status ascending |
| `TaskListView.TaskList.SyncTasks` | src/components/TaskList.tsx:36-38 | a new prop replaces the local tasks wholesale and keeps the sort state |
| `TaskListView.TaskList.ToggleSortDirection` | src/components/TaskList.tsx:131-133 | the direction flips and nothing else changes |
| `TaskListView.TaskList.ChangeSortOption` | src/components/TaskList.tsx:135-142 | the sort state moves as `NextSort` says, and the tasks are unchanged |
| `TaskListView.TaskList.OnMutateUpdateStatus` | src/components/TaskList.tsx:44-53 | the snapshot is the query-cache value; the local tasks become `WithStatus` of the old ones |
| `TaskListView.TaskList.OnMutateDelete` | src/components/TaskList.tsx:66-76 | the snapshot is the query-cache value; the local tasks become `WithoutId` of the old ones |
| `TaskListView.TaskList.OnError` | src/components/TaskList.tsx:54-58 | a present snapshot, even an empty one, replaces the tasks; without one they are unchanged (the delete handler at lines 77-82 is the same) |
| `TaskListView.TaskList.SortedTasks` | src/components/TaskList.tsx:101-129 | the display order is a permutation of the current tasks, computed without changing them |
| `TaskListView.DeleteThenFail` | src/components/TaskList.tsx:64-82 | a failed delete whose snapshot is the list it started from restores that list, the task in its old position |
| `TaskListView.ToggleTwice` | src/components/TaskList.tsx:135-142 | clicking the current option twice leaves sort state and tasks as they were |
| `Tasks.WithStatus` | src/components/TaskList.tsx:47-51 | same length and the same ids and owners in the same order; entries with the id get only the new status; all others are unchanged |
| `Tasks.WithoutId` | src/components/TaskList.tsx:73 | exactly the entries with the id are removed (multiplicities of the rest kept), and the rest keep their relative order |
| `Tasks.OwnedBy` | src/server/api/routers/task.ts:35-38 | exactly the caller's rows, with multiplicity, in table order |
| `Tasks.ToBoolean` | src/server/api/routers/task.ts:50 | undefined, null, false, 0 and "" are falsy; every object, every array included, is truthy |
| `Reconcile.OptimisticUpdateMatchesRefetch` | src/components/TaskList.tsx:59-61 | after a successful update, the caller's refetched list equals the optimistically edited list |
| `Reconcile.OptimisticDeleteMatchesRefetch` | src/components/TaskList.tsx:83-86 | after a successful delete, the caller's refetched list equals the optimistically filtered list |
| `TaskRouter.ParsePriority` | src/server/api/routers/task.ts:13 | exactly "low", "medium" and "high" are accepted, case-sensitively, and map back to their names |
| `TaskRouter.ParseStatus` | src/server/api/routers/task.ts:14 | exactly "completed" and "pending" are accepted and map back to their names |
| `TaskRouter.ParseNamesRoundTrip` | src/server/api/routers/task.ts:13-14 | parsing the name of a priority or status gives it back |
| `TaskRouter.CreateIssues` | src/server/api/routers/task.ts:10-14 | a short title, an unknown priority and an unknown status are each reported exactly when they occur |
| `TaskRouter.ValidateCreate` | src/server/api/routers/task.ts:9-16 | input is accepted exactly when the title has at least 3 characters and priority and status are in their enums; fields are passed through and an absent status becomes pending |
| `TaskRouter.NewRow` | src/server/api/routers/task.ts:18-26 | the inserted row is owned by the caller; tags are the input's or []; the due date is null when absent or "" and otherwise `parseDate` of the input; the priority is the validated one's name or null when absent; the status is the validated one |
| `TaskRouter.OwnedWithId` | src/server/api/routers/task.ts:46-48 | selects exactly the rows with that id owned by the caller |
| `TaskRouter.FirstWithId` | src/server/api/routers/task.ts:65 | the first row with the id (no earlier row has it), or nothing exactly when no row has it |
| `TaskRouter.UpdateGuardNeverFires` | src/server/api/routers/task.ts:46-52 | the tested array is truthy even though it is empty exactly when the caller owns no row with the id |
| `TaskRouter.WithoutIdKeepsIds` | src/server/api/routers/task.ts:79 | deleting rows keeps ids distinct and below the next id |
| `TaskRouter.TaskStore.CreateTask` | src/server/api/routers/task.ts:17-31 | rejected input leaves the table unchanged; accepted input appends exactly one row with a fresh id and returns success with it |
| `TaskRouter.TaskStore.GetTasks` | src/server/api/routers/task.ts:33-39 | returns exactly the caller's rows, never another user's, and changes nothing |
| `TaskRouter.TaskStore.UpdateTaskTodoStatus` | src/server/api/routers/task.ts:40-67 | a valid status never fails; every row with the id gets it, whoever owns it; nothing else changes; the task returned is the first updated row, absent for an unknown id |
| `TaskRouter.TaskStore.DeleteTask` | src/server/api/routers/task.ts:68-85 | without a row of that id owned by the caller it fails and changes nothing; otherwise it removes the rows with that id, keeps all others and returns success |
| `TaskRouter.CreateThenList` | src/server/api/routers/task.ts:8-39 | creating "Buy milk" with defaults and listing gives one pending task with no priority, no due date and no tags |
| `TaskRouter.UpdateUnknownId` | src/server/api/routers/task.ts:40-67 | updating an id that no row has succeeds with no task |
| `Header.SplitJoinRoundTrip` | src/app/_components/Header.tsx:35 | splitting on spaces and joining with spaces gives the name back, and no part contains a space |
| `Header.FirstCharsAreWordStarts` | src/app/_components/Header.tsx:35-37 | the joined first characters of the parts are exactly the non-space characters at the start or after a space |
| `Header.InitialsSpec` | src/app/_components/Header.tsx:32-40 | a missing or empty name gives "?"; otherwise the result is the upper case of the first at most two word starts |
| `Header.InitialsAtMostTwo` | src/app/_components/Header.tsx:39 | the result never has more than two characters |
| `Header.OnlySpacesGiveEmpty` | src/app/_components/Header.tsx:35-36 | empty parts contribute nothing, so a name made only of spaces gives "" |
| `Header.OneWordGivesOneChar` | src/app/_components/Header.tsx:36-37 | a non-empty name without spaces gives exactly its upper-cased first character |
| `Header.LaterCharsIrrelevant` | src/app/_components/Header.tsx:36 | names with spaces in the same places and the same word starts give the same initials |

## Left out

- Rendering is not modelled: JSX, animation, dropdown, dialog, checkbox and badge styling in all three files.
- The query-cache plumbing is not modelled: `cancel()`, `invalidate()`, `getData()` and the order of async refetches. The snapshot `getData()` returns is a parameter of the `onMutate` handlers. The refetch after `onSettled` is not performed; `Reconcile` states what it returns.
- The `if (!tasks) return []` branch of `sortedTasks` is not modelled: the local tasks are always a sequence here.
- Authentication is not modelled. The caller id that `protectedProcedure` supplies is a parameter.
- Database internals are not modelled:
  - The id sequence is a counter starting at 1, since the schema is not part of this model.
  - Selects and `returning()` yield rows in table order.
- Date parsing is not modelled. `new Date(s)` on the create input is the parameter `parseDate`. Stored due dates are millisecond timestamps within the ECMAScript time range, and invalid dates (NaN time values) are not modelled.
- TaskOrder.LocaleCompare: locale rules (ECMA-402) are not modelled. Titles compare by character code.
- TaskOrder.ToLower: only ASCII letters are case-mapped.
- Header.ToUpper: only ASCII letters are case-mapped. Unicode mappings that change a string's length are not modelled.
- TaskOrder.PriorityRank: in the source, a stored priority whose lower case is `constructor` or `__proto__` finds an `Object.prototype` member in the lookup table and makes the comparison NaN. The model ranks it 0. The router only stores "low", "medium" or "high".
- TaskOrder.StatusRank: the same prototype-key case is ranked 0 here.
- TaskRouter.ValidateCreate: it reports which checks failed, not zod's messages.
- TaskRouter.ValidateCreate: `z.number()` ids are modelled as integers, so non-integer ids are not modelled.
- TaskRouter.ValidateCreate: a title's length is counted in characters of the model's strings, not UTF-16 code units.
- Header.CharAt0 and Header.Take: `charAt(0)` and `slice(0, 2)` work on UTF-16 code units in the source; the model works on whole characters. For a name whose first letter lies outside the Basic Multilingual Plane, the source yields a lone high surrogate where the model yields the whole character.
- TaskRouter.NewRow: an omitted description or priority is passed to the database as `undefined`, which writes the column's default. The schema is not part of this model; those columns are assumed to default to null, and `TaskRouter.CreateThenList` relies on that.
- Reconcile.OptimisticUpdateMatchesRefetch: the equality of sequences assumes an updated row keeps its place in the table order. A select without `ORDER BY` promises no order, and the database may return an updated row elsewhere, so the refetched list may order the same tasks differently; the stable sort can then order tied tasks differently on screen.
