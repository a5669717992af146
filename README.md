# NeonTasks kanban board, modelled in Dafny

NeonTasks is a single-page kanban board. Its state lives in one store: a
normalised board (a map from task id to task, one column per status with an
ordered list of task ids, and a fixed column order), a dark-mode flag, the
modal's open flag, the task being edited and the view filters. The store's
actions add, update, delete and move tasks and set the UI flags and filters.
The board view shows each column filtered by priority and by a
case-insensitive search, and turns a finished drag into a move. The task form
validates its two required fields, trims them and either updates the edited
task or adds a new one.

The model keeps that structure:

- `Types.dfy` — the entities: `Priority`, `TaskStatus`, `Task`, `Column`, the
  record `Columns` with one column per status (so a column lookup by status is
  total), `Board` and the filters.
- `JsArray.dfy` — the JavaScript array operations the store uses (`filter`,
  `indexOf` and `splice`, with JavaScript's clamping of the start index), on
  sequences, and the facts about them the board proofs need.
- `Text.dfy` — `trim` over JavaScript's white-space set, `toLowerCase` for the
  letters A to Z, and `includes`.
- `BoardOps.dfy` — the board each store action computes, as functions over
  every board, the board invariant `Valid` (every task is listed exactly once,
  in the column of its status; every listed id is a task; columns are keyed
  by their status) and the lemmas that each action keeps it and does what it
  promises.
- `Store.dfy` — the store as a class `TaskStore` whose fields are the
  application state; each action is a method whose new state is the one the
  `BoardOps` function computes, and which keeps the invariant. `moveTask`
  builds the new list by splicing a copy, as the store does. Also the
  `partialize` projection.
- `KanbanBoard.dfy` — `getFilteredTasks` and `handleDragEnd`.
- `TaskModal.dfy` — the form as a class `TaskModalForm` with its two pieces of
  component state (`formData`, `errors`): the reset effect, `validateForm`,
  `handleSubmit` (which calls the store) and `handleInputChange`.

Time is an integer number of milliseconds. The new id and the current time
that the store draws from `generateId` and `new Date()` are parameters of the
actions, and so are the two date conversions of the form (`toISOString`
followed by taking the day, and `new Date(text)`).

## Model

| member | source | states |
|---|---|---|
| Types.Columns.With | src/types/index.ts:23 | replacing the column of one status leaves the columns of the other statuses as they were |
| JsArray.Filter | src/components/board/KanbanBoard.tsx:28 | the result is no longer than the input and holds exactly the input elements the callback accepts |
| JsArray.Without | src/store/index.ts:150 | filtering out an id leaves no copy of it and keeps every other element |
| JsArray.IndexOf | src/store/index.ts:210 | `-1` exactly when the element is absent, otherwise the position of its first occurrence |
| JsArray.SpliceStart | src/store/index.ts:213 | the position `splice` acts at is within the array, and for a start that is not negative it is the smaller of the start and the length |
| JsArray.SpliceInsert | src/store/index.ts:213 | the array grows by one, the element sits at the clamped start and removing it gives the old array back |
| JsArray.SpliceRemoveOne | src/store/index.ts:211 | the element at the clamped start is dropped and the others keep their order; nothing happens past the end |
| JsArray.RemoveAtIndexOf | src/store/index.ts:208-211 | in a list without duplicates, deleting at the `indexOf` position is the same as filtering the id out |
| JsArray.InsertMultiset | src/store/index.ts:213 | inserting adds exactly one copy of the element |
| Text.TrimStart | src/components/modals/TaskModal.tsx:44 | only leading white space is removed, and the result does not start with white space |
| Text.TrimEnd | src/components/modals/TaskModal.tsx:44 | only trailing white space is removed, and the result does not end with white space |
| Text.Trim | src/components/modals/TaskModal.tsx:62-63 | the result is empty or starts and ends with a character that is not white space |
| Text.TrimIsInfix | src/components/modals/TaskModal.tsx:62-63 | the trimmed text is a part of the text with only white space around it |
| Text.TrimEmptyIff | src/components/modals/TaskModal.tsx:44-50 | trimming gives the empty string exactly when the text is white space only |
| Text.TrimIdempotent | src/components/modals/TaskModal.tsx:62-63 | trimming a trimmed text changes nothing |
| Text.MissingHeadExcludes | src/components/board/KanbanBoard.tsx:41-42 | a text lacking the first character of a non-empty pattern does not include the pattern |
| Text.ToLower | src/components/board/KanbanBoard.tsx:39-42 | same length, each character lower-cased, no capital letter A to Z left |
| BoardOps.ExactlyOneColumn | src/types/index.ts:21-25 | on a valid board a task is listed in the column of its status, exactly once, and in no other column |
| BoardOps.InitialNoDup | src/store/index.ts:61-77 | no seeded column lists an id twice |
| BoardOps.InitialListedAreTasks | src/store/index.ts:20-77 | every id a seeded column lists is a seeded task with that column's status |
| BoardOps.InitialTasksListed | src/store/index.ts:20-77 | every seeded task is stored under its own id and listed in the column of its status |
| BoardOps.InitialBoardValid | src/store/index.ts:20-85 | the seeded board is valid, holds tasks 1 to 4, and lists 1 and 3 in To Do, 2 in In Progress and 4 in Done |
| BoardOps.NewTask | src/store/index.ts:98-103 | the new task carries the given id, `createdAt = updatedAt = now` and the caller's title, description, priority, status and deadline |
| BoardOps.AddTask | src/store/index.ts:95-121 | the task is stored under its id, other tasks and the other columns are unchanged, the id is appended to the end of its status column, the column order is kept |
| BoardOps.AddTaskPreservesValid | src/store/index.ts:95-121 | adding under a fresh id keeps the board invariant |
| BoardOps.DeleteUndoesAdd | src/store/index.ts:95-193 | deleting a task just added under a fresh id gives back the board as it was |
| BoardOps.DeleteUndoesAppend | src/store/index.ts:95-193 | the same, for any board on which the id is neither a task nor listed in its status column |
| BoardOps.AddThenMoveByUpdate | src/store/index.ts:95-169 | on an empty board, adding a To Do task and updating its status to Done leaves it valid and alone in Done |
| BoardOps.Merge | src/store/index.ts:128-132 | every key present in the update overwrites the field, an absent key keeps it, a present `undefined` deadline clears it; `id`, `createdAt` and `updatedAt` are kept |
| BoardOps.UpdateTask | src/store/index.ts:123-170 | an unknown id changes nothing; otherwise the update is merged, `updatedAt = now`, and a changed status moves the id from the old list to the end of the new one, otherwise the columns are untouched; every column keeps its `id` and `title`; the column order is kept |
| BoardOps.UpdateTaskPreservesValid | src/store/index.ts:123-170 | updating keeps the board invariant, with or without a status change |
| BoardOps.DeleteTask | src/store/index.ts:172-193 | an unknown id changes nothing; otherwise the task's key goes, the id leaves its status column only, the other columns and tasks are unchanged |
| BoardOps.DeleteTaskPreservesValid | src/store/index.ts:172-193 | deleting keeps the board invariant and leaves the id listed nowhere |
| BoardOps.MoveTask | src/store/index.ts:195-239 | an unknown id changes nothing; otherwise the task gets the new status and `updatedAt = now`, other tasks and the column order are unchanged, and every column keeps its `id` and `title` |
| BoardOps.MoveAcrossColumns | src/store/index.ts:200-238 | a move to another column removes the id from the old list, puts it at `min(newIndex, length)` in the new list with the other elements in order, and leaves the third column alone |
| BoardOps.MoveWithinColumn | src/store/index.ts:208-236 | a move within a column gives a permutation of the old list of the same length with the id at the clamped index and the other ids in their old order |
| BoardOps.ReinsertFacts | src/store/index.ts:204-213 | taking an id out of a list without duplicates and splicing it back in keeps the multiset and the length |
| BoardOps.MoveTargetList | src/store/index.ts:207-235 | on a valid board the list a move writes is the target list without the id, with the id spliced in at `newIndex`, since the second write to the same column wins |
| BoardOps.MoveKeepsColumn | src/store/index.ts:200-236 | after a move on a valid board each column is still keyed by its status, lists no id twice and lists only tasks of its status |
| BoardOps.MoveKeepsTarget | src/store/index.ts:207-213 | the list a move writes to the target column lists no id twice and only tasks of the target status |
| BoardOps.MoveKeepsOthers | src/store/index.ts:200-231 | every other column keeps no duplicates and lists only tasks of its status |
| BoardOps.MoveKeepsListing | src/store/index.ts:215-236 | after a move on a valid board every task is still listed in the column of its status |
| BoardOps.MoveTaskPreservesValid | src/store/index.ts:195-239 | moving keeps the board invariant, for every index |
| Store.ApplySetting | src/store/index.ts:244-250 | setting one filter changes that filter only |
| Store.PartializeKeepsExactly | src/store/index.ts:261-265 | two states persist alike exactly when their board, dark-mode flag and filters agree |
| Store.TaskStore.constructor | src/store/index.ts:82-93 | the store starts with the seeded board, light mode, the modal closed, no edited task and the default filters, and is valid |
| Store.TaskStore.AddTask | src/store/index.ts:95-121 | only the board changes, to the board `addTask` computes; a valid store with a fresh id stays valid |
| Store.TaskStore.UpdateTask | src/store/index.ts:123-170 | only the board changes, to the board `updateTask` computes; validity is kept |
| Store.TaskStore.DeleteTask | src/store/index.ts:172-193 | only the board changes, to the board `deleteTask` computes; validity is kept |
| Store.TaskStore.MoveTask | src/store/index.ts:195-239 | the step-by-step splice writes the board `moveTask` computes and nothing else; validity is kept |
| Store.TaskStore.SetModalOpen | src/store/index.ts:241 | only the modal flag changes |
| Store.TaskStore.SetEditingTask | src/store/index.ts:242 | only the edited task changes |
| Store.TaskStore.ToggleDarkMode | src/store/index.ts:243 | only the dark-mode flag changes, to its negation |
| Store.TaskStore.SetFilter | src/store/index.ts:244-250 | only the filters change, by the one setting |
| Store.TaskStore.ResetFilters | src/store/index.ts:251-257 | only the filters change, back to the initial `{priority: 'all', search: ''}` |
| Store.ToggleDarkModeTwice | src/store/index.ts:243 | toggling dark mode twice leaves the whole store as it was |
| KanbanBoard.GetFilteredTasks | src/components/board/KanbanBoard.tsx:27-48 | no longer than the column, and an id is shown exactly when it is listed, has a task and that task passes the filters |
| KanbanBoard.FilteredIsSubsequence | src/components/board/KanbanBoard.tsx:27-28 | the shown ids are a subsequence of the column's ids |
| KanbanBoard.PriorityFilterExcludes | src/components/board/KanbanBoard.tsx:33-35 | under a priority filter a task of another priority is never shown |
| KanbanBoard.SearchDecides | src/components/board/KanbanBoard.tsx:38-44 | with a search, a listed task that passes the priority filter is shown exactly when the lower-cased search occurs in its lower-cased title or description |
| KanbanBoard.UnfilteredKeepsPresent | src/components/board/KanbanBoard.tsx:29-46 | with no filter the shown ids are exactly the listed ids that have a task, and all of them when every id has one |
| KanbanBoard.UnfilteredShowsWholeColumn | src/components/board/KanbanBoard.tsx:27-48 | with no filter a column of a valid board is shown whole and in order |
| KanbanBoard.ExampleHiddenByPriority | src/components/board/KanbanBoard.tsx:33-35 | a high-priority task titled "Design landing page" is hidden by a low-priority filter |
| KanbanBoard.ExampleFoundBySearch | src/components/board/KanbanBoard.tsx:38-44 | the same task is found by the search "landing" |
| KanbanBoard.ExampleMissedBySearch | src/components/board/KanbanBoard.tsx:38-44 | the same task is not found by the search "zzz" |
| KanbanBoard.HandleDragEnd | src/components/board/KanbanBoard.tsx:10-20 | no destination or the same place: no call; any other drop: exactly one `moveTask(draggableId, destination column, destination index)` |
| KanbanBoard.DragEndKeepsBoardValid | src/components/board/KanbanBoard.tsx:10-20 | whatever the drop, a valid board stays valid, and a cancelled drag changes nothing |
| TaskModal.Prefill | src/components/modals/TaskModal.tsx:20-37 | blank form with priority medium and status todo without an edited task; otherwise the task's title, description, priority and status, and its deadline's day or empty |
| TaskModal.CollectErrors | src/components/modals/TaskModal.tsx:41-53 | a message under `title` exactly when the trimmed title is empty, likewise for `description`, no other key; the result is true exactly when there is no message and exactly when the form is valid |
| TaskModal.BlankMeansWhitespace | src/components/modals/TaskModal.tsx:44-50 | the form is invalid exactly when the title or the description is white space only |
| TaskModal.SubmittedData | src/components/modals/TaskModal.tsx:61-67 | the submitted data carries the trimmed title and description, the priority and status, and no deadline exactly when the date field is empty |
| TaskModal.AsUpdate | src/components/modals/TaskModal.tsx:70 | the update passed to `updateTask` carries every field, the deadline even when it is `undefined` |
| TaskModal.UnchangedEditKeepsTask | src/components/modals/TaskModal.tsx:20-75 | submitting the prefilled form of a task with trimmed text and a day-exact deadline changes only its `updatedAt` |
| TaskModal.ApplyEdit | src/components/modals/TaskModal.tsx:83 | the named form field takes the value, every other field keeps its own |
| TaskModal.ClearError | src/components/modals/TaskModal.tsx:84-86 | the keys stay, other messages stay, and the edited field's message, if any, is blank |
| TaskModal.TaskModalForm.constructor | src/components/modals/TaskModal.tsx:10-18 | the form starts blank with no messages |
| TaskModal.TaskModalForm.Reset | src/components/modals/TaskModal.tsx:20-39 | the form becomes the prefill of the edited task, and the messages are cleared |
| TaskModal.TaskModalForm.ValidateForm | src/components/modals/TaskModal.tsx:41-54 | the stored messages are exactly those of the blank required fields, and the result is true exactly when the form is valid |
| TaskModal.TaskModalForm.HandleSubmit | src/components/modals/TaskModal.tsx:56-76 | an invalid form leaves the store as it was and the modal open; a valid one updates the edited task, or adds one when none is edited, and closes the modal; a valid store stays valid |
| TaskModal.TaskModalForm.HandleInputChange | src/components/modals/TaskModal.tsx:82-87 | the form changes only in the named field and that field's message, if any, is blanked |

## Left out

- Rendering, styling and the composition of the presentational components, and the wrapper around the class-name utilities: they hold no logic of the board.
- The persistence layer's writing to and reading from local storage (src/store/index.ts:79-80, 259-260), including the JSON round trip of dates: foreign library I/O. Only the `partialize` projection is modelled.
- `generateId` and `new Date()`: randomness and the clock. The id and the time are parameters; `addTask` keeps the board valid only when the id is fresh, which the random id does not guarantee.
- `toISOString().split('T')[0]` and `new Date(text)` in the form: date formatting and parsing are the parameters `dayText` and `parseDay`. Overdue checks and locale date formatting in src/utils/index.ts are not part of this model.
- Text.ToLower: lower-cases the letters A to Z only; JavaScript's `toLowerCase` also folds the rest of Unicode.
- Text.IsWhitespace: takes the white-space set that `trim` strips to be JavaScript's WhiteSpace and LineTerminator characters, as enumerated.
- Store.TaskStore.SetFilter: the typed `FilterSetting` pairs the key with a value of its own type; the loosely typed setter would also accept, say, a search string as the priority.
- TaskModal.TaskModalForm.HandleInputChange: only the five form fields, each with a value of its type, can be edited; the untyped handler would also accept another field name or a value outside the select options.
- KanbanBoard.HandleDragEnd: the destination column is a `TaskStatus`, which the source casts without checking.
- KanbanBoard.HandleDragEnd: the index a drag reports is a position in the filtered list, while `moveTask` inserts into the unfiltered column; the model takes the index as given and proves nothing about where the task then appears on screen.
- The update that `updateTask` receives cannot carry `id`, `createdAt` or `updatedAt`: the only caller sends form data, and `Partial<Task>` admitting these keys is not modelled.
- The drag-and-drop library's event machinery, the delete confirmation dialog and the document class list toggled for dark mode: foreign UI calls.
- React's scheduling of state updates and effects: each handler is taken to run to completion and the reset effect to run when the edited task or the modal's visibility changes.
