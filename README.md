# Task board: a Dafny model

This project models the logic of a small task board. A React front end keeps
a list of tasks in a store hook. It derives a filtered and sorted view of that
list. It turns a drag between status columns into a status update. A Go
service keeps the same list in a JSON file. A task has an id, a title, an
optional description, a status (todo, in-progress, done), an optional
priority (low, medium, high) and two optional timestamps.

The modules follow the program:

- `Text` (`text.dfy`): the string operations the code relies on. These are lower-casing, `includes`, `trim`, title comparison and the decimal form of the clock used in placeholder ids.
- `TaskModel` (`task_model.dfy`): the `Task` record, the form's draft, lookup of the first task with an id, unique ids and subsequences.
- `BoardView` (`board_view.dfy`): the three-way filter and the four-key sort of the top-level component.
- `DragDrop` (`drag_drop.dfy`): the drag-end rule. It returns the task to update, or none.
- `TaskColumn` (`task_column.dfy`): one column's cards and their indices.
- `ClientStore` (`client_store.dfy`): the store hook as a class with the `tasks`, `isLoading` and `error` cells. The list transforms it applies are pure functions.
- `FileStorage` (`file_storage.dfy`): the service's storage as a class whose `file` field is the file. Its search loops are methods proved against specification functions.
- `TaskFormModel` and `TaskModalModel` (`task_form.dfy`, `task_modal.dfy`): the submit and edit state machines of the new-task form and the detail dialog.
- `Consistency` (`consistency.dfy`): how the front end's list and the service's file relate.

Remote calls, clocks and fresh ids are parameters. A store operation is given
how its remote call settled: `Resolved(value)` or `Rejected(thrown)`. A
storage operation is given the new uuid and the time.

The code is not consistent about a task with no priority. The model follows
the sort and the filter as written; the display is not modelled:

- The card and the dialog show a missing priority as low
  (`frontend/src/components/task/TaskCard.tsx:63`,
  `frontend/src/components/task/TaskModal.tsx:148`).
- The sort ranks a missing priority 3, after low (2)
  (`frontend/src/App.tsx:48`).
- The priority filter compares priorities exactly
  (`frontend/src/App.tsx:30`). Choosing "low" therefore hides a task with
  no priority, and such a task passes only "all".

A second inconsistency is also inside the code. The comments at
`frontend/src/App.tsx:57` and `:66` say a missing date means "now", but the
code uses 0. The model uses 0.

The status and priority selects also offer their placeholder option, whose
value is "". It equals neither "all" nor any task's status or priority, so
choosing it empties the board. The model has a variant for that value.

## Model

| member | source | states |
|---|---|---|
| `Text.ContainsSpec` | frontend/src/App.tsx:27-28 | `includes` holds exactly when the needle occurs at some position of the haystack; an empty needle always occurs |
| `Text.ToLowerIdempotent` | frontend/src/App.tsx:27-28 | lower-casing a lower-cased string changes nothing |
| `Text.TrimEmptyIffBlank` | frontend/src/components/task/TaskForm.tsx:39 | `trim()` gives "" exactly when every character is ECMAScript white space or a line terminator |
| `Text.LexCompareAntisymmetric` | frontend/src/App.tsx:64 | the title comparison of b with a is the negation of a with b |
| `Text.LexCompareZeroIffEqual` | frontend/src/App.tsx:64 | two titles compare equal exactly when they are the same string |
| `Text.LexCompareTransitive` | frontend/src/App.tsx:64 | the title order is transitive |
| `Text.DecimalDigits` | frontend/src/hooks/useTasks.tsx:39 | the clock's decimal form is a non-empty string of digits with no leading zero |
| `Text.DecimalRoundTrip` | frontend/src/hooks/useTasks.tsx:39 | reading the decimal form back gives the clock value |
| `TaskModel.IndexOfId` | frontend/src/App.tsx:92 | `find` by id: the result is the first position holding the id, or the length when no task has it |
| `BoardView.MatchesSearch` | frontend/src/App.tsx:27-28 | the search test; its meaning is stated by `BoardView.MatchesSearchSpec` and `BoardView.SearchIgnoresCase` |
| `BoardView.MatchesStatus` | frontend/src/App.tsx:29 | "all" passes every task, one status passes exactly the tasks of that status, the placeholder's "" passes none; stated by `BoardView.FilterKeepsExactly` and `BoardView.PlaceholderFilterShowsNothing` |
| `BoardView.MatchesPriority` | frontend/src/App.tsx:30 | the same for priority, a missing priority equalling no specific priority; stated by `BoardView.FilterEdgeCases` |
| `BoardView.Matches` | frontend/src/App.tsx:27-32 | the three tests ANDed; stated by `BoardView.FilterKeepsExactly` |
| `BoardView.FilterTasks` | frontend/src/App.tsx:26-33 | the filtered list is an order-preserving subsequence of the tasks, and every entry passes all three tests |
| `BoardView.MatchesSearchSpec` | frontend/src/App.tsx:27-28 | the search test holds iff the lower-cased term occurs in the lower-cased title or in the lower-cased description, where an absent description is "" |
| `BoardView.SearchIgnoresCase` | frontend/src/App.tsx:27-28 | an upper-case search term selects the same tasks as its lower-case form |
| `BoardView.PlaceholderFilterShowsNothing` | frontend/src/App.tsx:29-30 | with the status or the priority select on its placeholder value "", no task is shown |
| `BoardView.FilterEdgeCases` | frontend/src/App.tsx:27-30 | an empty term passes every task; a task with no priority fails every priority filter but "all" |
| `BoardView.FilterCounts` | frontend/src/App.tsx:26-33 | a passing task is kept as often as it occurs and a failing one is dropped |
| `BoardView.FilterKeepsExactly` | frontend/src/App.tsx:26-33 | a task is in the result iff it is in the list and the search, status and priority tests all hold |
| `BoardView.FilterIdempotent` | frontend/src/App.tsx:26 | filtering the filtered list again returns it unchanged |
| `BoardView.DefaultFilterKeepsAll` | frontend/src/App.tsx:18-20 | with the initial filter state ("", all, all) every task is shown, in order |
| `BoardView.Rank` | frontend/src/App.tsx:43-50 | the priority rank: 0 exactly for high, 3 exactly when absent, never above 3 |
| `BoardView.Compare` | frontend/src/App.tsx:40-73 | the comparator for each key: priority rank ascending, dates descending with absent as 0, titles ascending, 0 for any other key; its order is stated by `BoardView.CompareFlip` and `BoardView.CompareTransitive` |
| `BoardView.CompareFlip` | frontend/src/App.tsx:40-73 | for every key, a comparator result that puts b first puts b first when the arguments are swapped |
| `BoardView.CompareTransitive` | frontend/src/App.tsx:40-73 | for every key, the comparator's order is transitive |
| `BoardView.Insert` | frontend/src/App.tsx:39 | an insertion step adds exactly the one element and keeps the rest |
| `BoardView.SortTasks` | frontend/src/App.tsx:39 | the sorted list is a permutation of the filtered list, which is a value and is not reordered |
| `BoardView.InsertSorted` | frontend/src/App.tsx:39-74 | inserting into a list in comparator order keeps it in comparator order |
| `BoardView.SortTasksSorted` | frontend/src/App.tsx:39-74 | the comparator puts no adjacent pair of the output in the wrong order |
| `BoardView.SortTasksKeepsSorted` | frontend/src/App.tsx:39 | a list already in comparator order comes out exactly as it went in |
| `BoardView.SortIdempotent` | frontend/src/App.tsx:39 | sorting the sorted list again changes nothing |
| `BoardView.UnrecognizedKeepsOrder` | frontend/src/App.tsx:71-72 | with an unrecognised key the comparator is always 0 and the input order is kept |
| `BoardView.SortedPairwise` | frontend/src/App.tsx:39-74 | order on adjacent entries extends to every pair of entries |
| `BoardView.PrioritySortOrder` | frontend/src/App.tsx:41-55 | sorted by priority, the rank never decreases (high, medium, low, none) |
| `BoardView.CreatedAtSortOrder` | frontend/src/App.tsx:56-61 | sorted by creation date, times never increase; an absent date counts as 0, so no undated task precedes one created at a positive time |
| `BoardView.UpdatedAtSortOrder` | frontend/src/App.tsx:65-70 | the same for the update date |
| `BoardView.TitleSortOrder` | frontend/src/App.tsx:62-64 | sorted by title, titles never decrease under the title comparison |
| `BoardView.TwoTaskScenario` | frontend/src/App.tsx:41-64 | a low-priority task "B" followed by a high-priority task "A" comes out as "A", "B" under both the priority key and the title key |
| `BoardView.VisibleTasks` | frontend/src/App.tsx:26-39 | the list the board shows: the filtered list, sorted; stated by `BoardView.VisibleTasksSpec` |
| `BoardView.VisibleTasksSpec` | frontend/src/App.tsx:26-39 | the shown list is a permutation of the filtered list, in comparator order, and holds exactly the passing tasks |
| `DragDrop.HandleDragEnd` | frontend/src/App.tsx:79-103 | no update iff there is no destination, or the drop is at the same column and index, or no task has the dragged id; otherwise the update is the first task with that id, with only its status set to the destination column |
| `DragDrop.ReorderInColumnStillUpdates` | frontend/src/App.tsx:86-102 | a move to another index in the same column still yields an update, carrying the task unchanged |
| `TaskColumn.ColumnTasks` | frontend/src/components/task/TaskColumn.tsx:46-47 | a column shows a subsequence of its input, in input order, and every task shown has the column's status |
| `TaskColumn.Cards` | frontend/src/components/task/TaskColumn.tsx:46-56 | there is one card per shown task; card i gets index i, so the indices run from 0 with no gap |
| `TaskColumn.ColumnCounts` | frontend/src/components/task/TaskColumn.tsx:46-48 | every input task with the column's status is shown as often as it occurs, and no other is shown |
| `TaskColumn.CardsSpec` | frontend/src/components/task/TaskColumn.tsx:46-52 | the cards' tasks are in input order, and a task is on a card iff it is an input task of the column's status |
| `TaskColumn.ColumnsDisjoint` | frontend/src/components/task/TaskColumn.tsx:47 | two columns with different statuses never show the same task |
| `TaskColumn.ColumnsPartition` | frontend/src/components/task/TaskColumn.tsx:47 | the three columns together hold exactly as many cards as there are tasks |
| `TaskColumn.ColumnIsStatusFilter` | frontend/src/components/task/TaskColumn.tsx:47 | a column is the board filter with an empty term, that status and all priorities |
| `ClientStore.Placeholder` | frontend/src/hooks/useTasks.tsx:36-42 | the record `createTask` sends; stated by `ClientStore.PlaceholderSpec` |
| `ClientStore.Recorded` | frontend/src/hooks/useTasks.tsx:19 | the error a failed call records (the same expression recurs in every store operation): an `Error` as thrown, anything else as `Error("Unknown error")`; stated by the store methods' failure clauses |
| `ClientStore.PlaceholderSpec` | frontend/src/hooks/useTasks.tsx:36-42 | the record sent on create is the draft plus id "temp-" followed by the clock's digits, and createdAt = updatedAt = the clock |
| `ClientStore.ReplaceById` | frontend/src/hooks/useTasks.tsx:73-75 | the update keeps the length, puts the returned task at every position with its id, and leaves every other position alone |
| `ClientStore.ReplaceAbsentIsIdentity` | frontend/src/hooks/useTasks.tsx:73-75 | an update whose id is not in the list leaves the list unchanged, so nothing is resurrected |
| `ClientStore.ReplaceKeepsIds` | frontend/src/hooks/useTasks.tsx:73-75 | every position keeps its id, so unique ids stay unique |
| `ClientStore.RemoveById` | frontend/src/hooks/useTasks.tsx:102 | the delete keeps an order-preserving subsequence with no entry of that id |
| `ClientStore.RemoveCounts` | frontend/src/hooks/useTasks.tsx:102 | every entry with the id goes and every other entry stays as often as it occurred |
| `ClientStore.RemoveAbsentIsIdentity` | frontend/src/hooks/useTasks.tsx:102 | deleting an id not in the list leaves it unchanged |
| `ClientStore.TaskStore.constructor` | frontend/src/hooks/useTasks.tsx:7-9 | the store starts with no tasks, not loading, no error |
| `ClientStore.TaskStore.FetchTasks` | frontend/src/hooks/useTasks.tsx:12-30 | success replaces the list and clears the error; failure keeps the list and records the error (a non-Error becomes "Unknown error"); loading ends false |
| `ClientStore.TaskStore.CreateTask` | frontend/src/hooks/useTasks.tsx:32-67 | the placeholder is sent; success appends the server's task and never the placeholder; failure keeps the list, records the error and rethrows; loading ends false |
| `ClientStore.TaskStore.UpdateTask` | frontend/src/hooks/useTasks.tsx:69-96 | the task is sent as given; success replaces by the returned task's id; failure keeps the list, records the error and rethrows; loading ends false |
| `ClientStore.TaskStore.DeleteTask` | frontend/src/hooks/useTasks.tsx:98-123 | success removes every entry with the id; failure keeps the list, records the error and rethrows; loading ends false |
| `FileStorage.UpdatedRecord` | backend/storage/storage.go:59-61 | the stored record is the incoming task whole, with its own CreatedAt; UpdatedAt becomes the clock only when the id is found |
| `FileStorage.ReplaceFirstById` | backend/storage/storage.go:58-64 | only the first entry with the id is replaced; the length and every other position stay; an unknown id changes nothing |
| `FileStorage.RemoveFirstById` | backend/storage/storage.go:75-80 | the entry at the first position holding the id is spliced out: every entry before it stays where it was, every entry after it moves up one, and an unknown id changes nothing |
| `FileStorage.SpliceIsSubsequence` | backend/storage/storage.go:77 | `append(tasks[:i], tasks[i+1:]...)` keeps the other entries in order |
| `FileStorage.RemoveFirstCounts` | backend/storage/storage.go:75-80 | the splice removes one copy of the first matching task and nothing else |
| `FileStorage.ReplaceFirst` | backend/storage/storage.go:58-64 | the search loop with `break` writes the record that `UpdatedRecord` describes at the first match only |
| `FileStorage.RemoveFirst` | backend/storage/storage.go:75-80 | the search loop with `break` splices out the first match only |
| `FileStorage.TaskStorage.GetTasks` | backend/storage/storage.go:24-36 | a missing file reads as the empty list; a read or decode failure is an error |
| `FileStorage.TaskStorage.AddTask` | backend/storage/storage.go:38-50 | on a read failure nothing is written or changed; otherwise the id is overwritten with the fresh one, CreatedAt = UpdatedAt = the clock, and the task is appended after the unchanged earlier entries |
| `FileStorage.TaskStorage.UpdateTask` | backend/storage/storage.go:52-67 | with the path id written over the body's id (backend/main.go line 77): on a read failure nothing changes; otherwise the first match is replaced, and an unknown id rewrites the same list with no error |
| `FileStorage.TaskStorage.DeleteTask` | backend/storage/storage.go:69-83 | on a read failure nothing changes; otherwise the first match is spliced out, and an unknown id rewrites the same list with no error |
| `TaskFormModel.TaskForm.constructor` | frontend/src/components/task/TaskForm.tsx:31-35 | the fields start as "", "", todo, low, not submitting |
| `TaskFormModel.TaskForm.Open` | frontend/src/components/task/TaskForm.tsx:73 | the add button opens the dialog |
| `TaskFormModel.TaskForm.HandleSubmit` | frontend/src/components/task/TaskForm.tsx:37-59 | a title that trims to "" submits nothing and changes nothing; otherwise the draft is the untrimmed title, the description, status and priority, with no id; success resets the fields and closes the dialog; failure keeps every field and the dialog and is swallowed; submitting ends false |
| `TaskModalModel.ApplyEdit` | frontend/src/components/task/TaskModal.tsx:40-46 | one change event applied to the working copy; stated by `TaskModalModel.ApplyEditSpec` |
| `TaskModalModel.ApplyEditSpec` | frontend/src/components/task/TaskModal.tsx:40-46 | a change sets the named field to the new value and leaves every other field unchanged; a later change of the same field overrides it |
| `TaskModalModel.TaskModal.constructor` | frontend/src/components/task/TaskModal.tsx:36-38 | the edited copy starts equal to the given task, not editing, not submitting |
| `TaskModalModel.TaskModal.HandleChange` | frontend/src/components/task/TaskModal.tsx:40-46 | the edited copy becomes the edit applied to it |
| `TaskModalModel.TaskModal.StartEditing` | frontend/src/components/task/TaskModal.tsx:173-181 | edit mode can be entered only when an update callback exists; edit mode always implies one |
| `TaskModalModel.TaskModal.Cancel` | frontend/src/components/task/TaskModal.tsx:167 | cancel leaves edit mode and does not revert the edited copy |
| `TaskModalModel.TaskModal.HandleSubmit` | frontend/src/components/task/TaskModal.tsx:48-60 | without an update callback nothing happens; otherwise the edited copy is sent; success leaves edit mode, failure stays in it and is swallowed; submitting ends false |
| `Consistency.ReplaceAgreesWhenUnique` | backend/storage/storage.go:58-64 | with unique ids, the store's replace-every-match and the service's replace-first agree |
| `Consistency.RemoveAgreesWhenUnique` | backend/storage/storage.go:75-80 | with unique ids, the store's remove-every-match and the service's splice-first agree |
| `Consistency.ReplaceDiffersOnDuplicates` | frontend/src/hooks/useTasks.tsx:73-75 | with a duplicated id, the store also replaces the later copy and the service does not |
| `Consistency.AppendFreshKeepsUnique` | backend/storage/storage.go:44-47 | appending a task with an unused id keeps ids unique |
| `Consistency.StorageKeepsUniqueIds` | backend/storage/storage.go:38-83 | add with a fresh id, update and delete all keep the file's ids unique |
| `Consistency.StoreKeepsUniqueIds` | frontend/src/hooks/useTasks.tsx:73-102 | the store's update and delete keep the list's ids unique |
| `Consistency.DragRoundTrip` | frontend/src/App.tsx:79-103 | a drag that yields an update, applied by the service and echoed back, changes only the dragged task's status and update time in both lists |

## Left out

- Rendering, styling, icons, toasts and console tracing. They carry no state the model needs.
- The HTTP gateway and routing. Each remote call is an outcome passed to the store method, and JSON encoding is not modelled. Of the update handler only one fact is kept: the path id overrides the body's id.
- Asynchrony. Each store operation is one atomic step, so overlapping requests and last-response-wins races are not modelled. React's batching of state updates is not modelled either.
- Clocks and uuids are parameters. `createTask` reads the clock twice (`new Date()` and `Date.now()`) and `AddTask` calls `time.Now()` twice. Each pair is modelled as one reading, so the two timestamps are always equal.
- Dates are integers of milliseconds. Date parsing and invalid dates (NaN) are not modelled. On the service an absent timestamp is `None` where Go would hold the zero time.
- `Text.ToLower`: lower-cases ASCII letters only, not the full Unicode `toLowerCase`.
- `Text.LexCompare`: compares titles by code point, not by locale collation like `localeCompare`.
- `BoardView.SortTasks`: a stable insertion sort. The engine's `Array.prototype.sort` may visit pairs in another order. Any correct sort gives a permutation in comparator order, but stability comes from the engine.
- The type casts of the drag library are taken as given: a droppable id is always a status.
- The form's and dialog's input setters are plain field assignments, so they are not separate methods.
- The dialog keeps the working copy it was opened with, even when a different task is passed in later. React component identity is not modelled.
- `saveTasks` write failures: the write always succeeds. A failed `WriteFile` could leave a truncated file.
