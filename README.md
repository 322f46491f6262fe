# Kanban board: board store and drag-reorder rules

This project models the state behind the `KanbanBoard` component of a
browser kanban board and proves properties of it in Dafny. The state has two
ordered lists, `columns` and `tasks`, where each task names its column
through `columnID`. It also has two "active entity" slots, `activeColumn`
and `activeTask`, which say what is being dragged. The handlers change this
state:

- the create, rename and delete handlers for columns and tasks (module
  `BoardStore`, pure functions on sequences built from append, filter and map);
- the drag handlers `onDragStart`, `onDragOver` and `onDragEnd` (module
  `DragAndDrop`). A drag event is a tagged union of a column payload and a
  task payload;
- the reorder primitive `arrayMove` of the drag-and-drop library, as
  `Sequences.Move`: remove the element at `from`, then insert it at `to`.
  `findIndex` is `Sequences.FirstIndex`: the first match, or -1.

The class `KanbanBoard.Board` holds the four pieces of state. It has one
method per handler, and each method states its whole new state through the
functions above. `OnDragOver` works the way the source does: it looks up
the indices, overwrites the dragged task's column in place, then moves.

`Id` is an abstract type with equality only. Nothing makes ids unique, so
filter and map act on every match and index lookups take the first one. New
ids come from a random generator in the source, so here they are parameters
(`freshId`).

## Source quirks the model keeps

- Drag start with a task payload stores the payload's `column` key into
  `activeTask` (`src/components/KanbanBoard.tsx:106`). A task payload has no
  such key; its keys are `type` and `task` (`src/components/TaskCard.tsx:26-29`).
  So `activeTask` always ends up empty. `DragAndDrop.DragStart` does
  exactly this. `DragAndDrop.ActiveTaskStaysEmpty` proves that over any
  series of drag events `activeTask` is never filled.
- Drag start sets one slot and never clears the other
  (`src/components/KanbanBoard.tsx:99-109`).
- Drag end reorders the columns by id, whatever was dragged: it never looks
  at the payload's kind (`src/components/KanbanBoard.tsx:111-137`).
  `DragAndDrop.DragEndIgnoresPayload` states this. In the source the common
  case is the ordinary drop of a task on a column: the task's id is no
  column's id, so `findIndex` gives -1 and the library's negative-index rule
  moves the last column to the target's place (see "Left out"). The model
  keeps the columns there. What the model does capture is the id-collision
  case: `KanbanBoard.TaskDropMovesColumns` shows a dropped task swapping
  two columns when its id equals a column's id.
- Nothing in the code makes ids unique, so the model does not assume it.

## Model

| member | source | states |
|---|---|---|
| `Sequences.Filter` | src/components/KanbanBoard.tsx:47-51 | an element is in the result exactly when it is in the input and passes the test; each passing element keeps its multiplicity and each failing one has none; the result is a subsequence of the input (order kept) |
| `Sequences.FilterIdempotent` | src/components/KanbanBoard.tsx:78 | filtering a second time with the same test removes nothing more |
| `Sequences.FirstIndex` | src/components/KanbanBoard.tsx:127-133 | the result is -1 exactly when the key is absent; otherwise the key is at that index and at no earlier one |
| `Sequences.Move` | src/components/KanbanBoard.tsx:135 | same length, same multiset; the moved element lands at `to`; every position takes its element from `MovedFrom(from, to, i)`, an independent index map |
| `Sequences.MoveInPlace` | src/components/KanbanBoard.tsx:180 | a move from an index to itself is the identity |
| `BoardStore.Decimal` | src/components/KanbanBoard.tsx:32 | the rendering of a count is a non-empty string of decimal digits whose value, read back digit by digit, is the count |
| `BoardStore.ColumnTitleInjective` | src/components/KanbanBoard.tsx:32 | two different column counts never give the same default title |
| `BoardStore.TaskContentInjective` | src/components/KanbanBoard.tsx:72 | two different task counts never give the same default content |
| `BoardStore.AppendColumn` | src/components/KanbanBoard.tsx:29-36 | exactly one column is added, at the end; the earlier columns are unchanged; the new one has the fresh id and the title `Column n`, where n is the new count |
| `BoardStore.RemoveColumn` | src/components/KanbanBoard.tsx:46-49 | no column with the id remains; every other column remains with its multiplicity, in its original relative order |
| `BoardStore.RemoveColumnTasks` | src/components/KanbanBoard.tsx:51-52 | no task of the deleted column remains; every other task remains with its multiplicity, in its original relative order |
| `BoardStore.RetitleColumn` | src/components/KanbanBoard.tsx:55-65 | the length and every id are kept; matching columns get the new title; all others are identical; an absent id changes nothing |
| `BoardStore.RetitleColumnIdempotent` | src/components/KanbanBoard.tsx:55-65 | renaming twice with the same title equals renaming once |
| `BoardStore.AppendTask` | src/components/KanbanBoard.tsx:67-75 | exactly one task is added, at the end, in the given column; the earlier tasks are unchanged; its content is `New Task #n`, where n is the new count |
| `BoardStore.RemoveTask` | src/components/KanbanBoard.tsx:77-81 | exactly the tasks with the id are removed; the rest remain with their multiplicity, in order |
| `BoardStore.EditTask` | src/components/KanbanBoard.tsx:83-93 | the length, ids and columns are kept; matching tasks get the new content; all others are identical; an absent id changes nothing |
| `BoardStore.EditTaskIdempotent` | src/components/KanbanBoard.tsx:83-93 | editing twice with the same content equals editing once |
| `BoardStore.DeleteIdempotent` | src/components/KanbanBoard.tsx:46-81 | deleting a column, its tasks or a task a second time changes nothing |
| `BoardStore.AppendColumnsCount` | src/components/KanbanBoard.tsx:29-36 | after k column creations there are k more columns; the old ones are untouched; the j-th new one has the j-th id and title `Column (old count + j + 1)` |
| `BoardStore.AppendTasksCount` | src/components/KanbanBoard.tsx:67-75 | after k task creations there are k more tasks; the old ones are untouched; the j-th new one is the j-th request's task, with content numbered by its position |
| `BoardStore.DeleteColumnKeepsReferences` | src/components/KanbanBoard.tsx:46-53 | if every task's column exists, that still holds after deleting a column together with its cascade |
| `BoardStore.DeleteWithoutCascadeBreaksReferences` | src/components/KanbanBoard.tsx:51-52 | without the cascade on tasks, a task can be left pointing at a deleted column |
| `BoardStore.StoreOperationsKeepReferences` | src/components/KanbanBoard.tsx:29-93 | adding or renaming a column and deleting or editing a task keep every task's column existing; adding a task does too when its column exists |
| `DragAndDrop.TaskIndex` | src/components/KanbanBoard.tsx:156-157 | -1 exactly when no task has the id; otherwise the first task with it |
| `DragAndDrop.ColumnIndex` | src/components/KanbanBoard.tsx:127-133 | -1 exactly when no column has the id; otherwise the first column with it |
| `DragAndDrop.DragStart` | src/components/KanbanBoard.tsx:99-109 | a column payload fills `activeColumn`; a task payload leaves `activeTask` empty, because it stores the missing `column` key; the other slot is untouched; no payload means no change |
| `DragAndDrop.DragEndSession` | src/components/KanbanBoard.tsx:112-113 | drag end always clears both slots |
| `DragAndDrop.TaskOntoTask` | src/components/KanbanBoard.tsx:153-165 | when both tasks are found, the dragged task, with the hovered task's column, ends at the hovered task's index; the result is a permutation of the input with that one column changed; the ids are the same multiset; every other position holds an unchanged task; a missing id changes nothing |
| `DragAndDrop.TaskOntoColumn` | src/components/KanbanBoard.tsx:168-181 | only the dragged task's column changes, to the column's id; the ids, the order and every other task are unchanged; a missing id changes nothing |
| `DragAndDrop.DragOverTasks` | src/components/KanbanBoard.tsx:139-151 | no target, the same id, a non-task dragged entity or a target of neither kind leaves the tasks unchanged |
| `DragAndDrop.DragEndColumns` | src/components/KanbanBoard.tsx:115-136 | the columns stay the same multiset; no target, the same id or a missing id leaves them unchanged; otherwise the dragged column ends at the target column's index and the others shift by the index map |
| `KanbanBoard.DragOverKeepsReferences` | src/components/KanbanBoard.tsx:139-183 | if every task's column exists and a hovered column is one of the board's, every task's column still exists after a drag over |
| `KanbanBoard.TaskOntoTaskKeepsReferences` | src/components/KanbanBoard.tsx:153-165 | a task over a task takes a column some task already has, so the references stay valid |
| `KanbanBoard.TaskOntoColumnKeepsReferences` | src/components/KanbanBoard.tsx:168-181 | a task over a column of the board keeps the references valid |
| `KanbanBoard.DragEndKeepsReferences` | src/components/KanbanBoard.tsx:111-137 | drag end only reorders the columns, so every task's column still exists |
| `DragAndDrop.DragEndIgnoresPayload` | src/components/KanbanBoard.tsx:119-136 | the column reorder depends on the ids alone, not on the payload's kind |
| `DragAndDrop.ActiveTaskStaysEmpty` | src/components/KanbanBoard.tsx:105-107 | starting with `activeTask` empty, it stays empty over any series of drag events |
| `DragAndDrop.AtMostOneActive` | src/components/KanbanBoard.tsx:99-113 | starting with `activeTask` empty, the two slots are never both filled |
| `KanbanBoard.Board.constructor` | src/components/KanbanBoard.tsx:19-27 | a new board has no columns, no tasks and no active entity |
| `KanbanBoard.Board.CreateNewColumn` | src/components/KanbanBoard.tsx:29-36 | the new columns are `AppendColumn` of the old; nothing else changes |
| `KanbanBoard.Board.DeleteColumn` | src/components/KanbanBoard.tsx:46-53 | the columns and tasks are replaced by the two filters of the delete; the slots are unchanged |
| `KanbanBoard.Board.UpdateColumn` | src/components/KanbanBoard.tsx:55-65 | the new columns are `RetitleColumn` of the old; nothing else changes |
| `KanbanBoard.Board.CreateTask` | src/components/KanbanBoard.tsx:67-75 | the new tasks are `AppendTask` of the old; nothing else changes |
| `KanbanBoard.Board.DeleteTask` | src/components/KanbanBoard.tsx:77-81 | the new tasks are `RemoveTask` of the old; nothing else changes |
| `KanbanBoard.Board.UpdateTask` | src/components/KanbanBoard.tsx:83-93 | the new tasks are `EditTask` of the old; nothing else changes |
| `KanbanBoard.Board.OnDragStart` | src/components/KanbanBoard.tsx:99-109 | the slots become `DragStart` of the old slots; columns and tasks are unchanged |
| `KanbanBoard.Board.OnDragEnd` | src/components/KanbanBoard.tsx:111-137 | both slots are cleared and the columns become `DragEndColumns` of the old; the tasks are unchanged |
| `KanbanBoard.Board.OnDragOver` | src/components/KanbanBoard.tsx:139-183 | the in-place column overwrite followed by the move yields `DragOverTasks` of the old tasks; nothing else changes |
| `KanbanBoard.DragTaskOverTask` | src/components/KanbanBoard.tsx:153-165 | for a task over a different, found task, the dragged task gets the hovered task's column and former index, and the result is a permutation of the input with the same ids |
| `KanbanBoard.DragTaskOverColumn` | src/components/KanbanBoard.tsx:168-181 | for a task over a column, the dragged task gets the column's id and keeps its index; every other task is unchanged |
| `KanbanBoard.ScenarioTaskOverColumn` | src/components/KanbanBoard.tsx:168-181 | on a fresh board with columns C1, C2 and a task T1 created in C1, dragging T1 over C2 leaves exactly T1, now in C2, with content `New Task #1` |
| `KanbanBoard.ScenarioColumnReorder` | src/components/KanbanBoard.tsx:126-136 | with columns [C1, C2, C3] and distinct ids, dropping C1 on C3 gives [C2, C3, C1] |
| `KanbanBoard.ScenarioColumnOntoItself` | src/components/KanbanBoard.tsx:122-124 | dropping an item on itself leaves the columns unchanged |
| `KanbanBoard.TaskDropMovesColumns` | src/components/KanbanBoard.tsx:119-136 | a dropped task whose id equals column C1's id, dropped on C2, swaps C1 and C2 |

## Left out

- Id generation (`src/components/KanbanBoard.tsx:95-97`) uses `Math.random`. Fresh ids are parameters instead, and ids are neither numbers nor strings here; the only operation on them is equality.
- `Sequences.Move` requires both indices to be in range. The drag-and-drop library's `arrayMove` is not part of this model; its handling of a -1 index is described on the next line.
- `DragAndDrop.DragEndColumns`: when either `findIndex` returns -1, the source passes -1 to `arrayMove`, and the model leaves the columns unchanged instead. The library's `arrayMove` computes a negative target as the length plus the index before it removes anything, and removes at a negative source index from the end (the `splice` rule). So in the source: with both indices -1 the order is unchanged; with only the source index -1 (a task, whose id no column has, dropped on a column) the last column moves to the target's index, so [C1, C2, C3] with the task over C1 becomes [C3, C1, C2]; with only the target index -1 (a column dropped on a task) the dragged column moves to the end; on an empty list an `undefined` entry is inserted.
- `DragAndDrop.TaskOntoTask` and `DragAndDrop.TaskOntoColumn`: when `findIndex` returns -1, the source reads `tasks[-1].columnID`, which throws a TypeError. The model leaves the tasks unchanged in that case.
- `KanbanBoard.Board.OnDragOver` overwrites `columnID` on the task object itself. That object is shared with the previous state's array. The model replaces the element in the sequence, so the sharing is not modelled; the resulting state is the same.
- React machinery is not modelled: `useState` setters and their scheduling, `useMemo`, JSX rendering, the drag overlay portal, the pointer sensor's activation distance, and the per-column task filter used only for display.
- The column component that supplies the `{type: "Column", column}` payload is not part of this model. The payload shape is taken as the handlers read it.
- `src/components/TaskCard.tsx` is view state: hover, edit mode and the text area. Only its drag payload shape (lines 24-30) is used.
