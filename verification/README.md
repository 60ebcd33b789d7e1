# Canvas Kanban board — a Dafny model

This project models the core of a small React Kanban board that draws
everything on one HTML canvas (`src/App.js`). The board shows three
fixed columns: Incompleted, Ongoing and Completed. Each task is drawn as
a card in the column named by its status. A card can be dragged with the
pointer and dropped over another column, and the drop rewrites that
task's status.

The model has five parts:

- **Geometry** (`geometry.dfy`): the fixed 900 × 600 logical canvas, the
  card constants and the column under a horizontal position
  (`Math.floor(x / 300)`).
- **Tasks** (`tasks.dfy`): the task list and the three columns. It holds
  the operations the board performs on them:
  - the per-column filter;
  - the status rewrite on drop;
  - `find` by id.
- **Render** (`render.dfy`): the rectangle list that each render pass
  publishes for hit-testing. This list is the only output of `draw` that
  the rest of the program reads.
- **HitTesting** (`hittesting.dfy`): `hitTask`, the first published
  rectangle that strictly contains the pointer.
- **DragDrop** (`dragdrop.dfy`): the board state and the three pointer
  handlers (press, move, release). Each handler is a pure function of the
  board and a pointer position. The module also defines the card drawn on
  top during a drag, and `Run`, which folds the handlers over a sequence
  of events.

`scenarios.dfy` checks a few concrete interactions on the seed tasks.

Coordinates are `real`s. Task statuses are free strings, as in the
source. "Every status names a column" is therefore an invariant that the
handlers are proved to keep, not a fact of the types.

## Model

| member | source | states |
|---|---|---|
| Geometry.ColumnAt | src/App.js:162 | The column index under `x` is the unique integer `c` with `300c <= x < 300(c+1)`. This is floor division, including for negative `x`. |
| Geometry.ColumnAtMonotonic | src/App.js:162 | Moving the pointer right never yields a column further left. |
| Geometry.ColumnAtInRange | src/App.js:162-164 | The column index names one of the three columns exactly when `0 <= x < 900`. |
| Geometry.CardInsideBand | src/App.js:66-75 | A card of column `c` lies strictly inside the band of column `c`. Every interior x of the card maps back to `c`. |
| Tasks.ColumnIndex | src/App.js:9-13 | Gives the position of the column whose key is `key`, or -1 exactly when no column has that key. |
| Tasks.ColumnKeysDistinct | src/App.js:9-13 | The three column keys are pairwise distinct. |
| Tasks.InColumn | src/App.js:60 | The per-column filter never grows the list. Every task it keeps has the column's key as status. |
| Tasks.InColumnMembers | src/App.js:60 | A task is in the filtered list exactly when it is in the task list and its status equals the key. |
| Tasks.InColumnConcat | src/App.js:60 | The per-column filter distributes over concatenation, which is why it keeps list order. |
| Tasks.ColumnsPartition | src/App.js:45-60 | When every status is a column key, the three column filters together hold every task exactly as often as the list does. |
| Tasks.SetStatus | src/App.js:165-171 | Length and order are kept. Tasks with another id are unchanged. Tasks with the dropped id get the new status and keep their id and title. |
| Tasks.SetStatusKeepsInvariants | src/App.js:165-171 | Writing a column key keeps every status a column key. It also keeps ids unique and leaves every id and title in place. |
| Tasks.SetStatusUnchanged | src/App.js:165-171 | If every task carrying the id already has the new status, the list is unchanged. This includes the case where no task carries the id. |
| Tasks.FindTask | src/App.js:95 | Returns nothing exactly when no task has the id. Otherwise it returns a task with that id that no earlier task shares. With unique ids it is the only such task. |
| Render.ColumnRects | src/App.js:62-89 | One column's rectangles are at most one per task, each of card size at that column's x. None is the dragged task. Each later rectangle is at least one row pitch below an earlier one. |
| Render.ColumnLayoutWellPlaced | src/App.js:60-89 | Every rectangle of column `c` is a card of `c` whose task is in the list, has status `c`'s key and is not dragged. |
| Render.Layout | src/App.js:43-91 | Every published rectangle has width 268 and height 60, x = 300c + 16 and y >= 50. Its colKey is a column key equal to its task's status, and its task is a non-dragged task of the list. |
| Render.LayoutCardsInBands | src/App.js:66-67 | Every published card lies strictly inside the band [300c, 300c + 300) of its column `c`, and no higher than y = 50. |
| Render.RectTasks | src/App.js:85-89 | Each published rectangle carries its task's fields, in order. |
| Render.Resting | src/App.js:64 | The tasks drawn in place never include the dragged one, and the list never grows. |
| Render.RestingMembers | src/App.js:64 | A task is drawn in place exactly when it is in the list and is not the dragged one. |
| Render.ColumnRectsSound | src/App.js:62-67 | Every rectangle of a column is the card of a non-dragged task at that task's own row index. |
| Render.ColumnRectsComplete | src/App.js:62-67 | Every non-dragged task of a column gets its card at its own row index. The dragged task's row is left empty rather than closed up. |
| Render.ColumnLayoutSound | src/App.js:60-67 | Every rectangle of column `c` sits at x = 300c + 16 and y = 50 + 76·row, where `row` is the task's index among `c`'s tasks. |
| Render.LayoutSound | src/App.js:45-67 | Every published rectangle is the card of the row-th task of some column, at that slot, where that task is not dragged. |
| Render.ColumnLayoutComplete | src/App.js:60-67 | The row-th task of column `c`, if not dragged, has its card published in `c`. |
| Render.LayoutComplete | src/App.js:45-67 | Every slot card of a non-dragged task is published. With LayoutSound, the layout is exactly the set of slot cards. |
| Render.DragRemovesOnlyDraggedCard | src/App.js:64 | During a drag, the published cards are exactly the resting cards minus those of the dragged id. No other card moves. |
| Render.ColumnLayoutStacked | src/App.js:66-75 | Within one column no two cards overlap, and a later card lies strictly lower. |
| Render.StackedConcat | src/App.js:45-66 | Two non-overlapping stacks in different columns, one left of the other, join into one non-overlapping stack. |
| Render.LayoutCardsDisjoint | src/App.js:45-89 | No two published cards overlap. Within a column, a later card lies strictly below an earlier one. |
| Render.ColumnRectsTasks | src/App.js:62-89 | A column's rectangles carry its non-dragged tasks, in list order. |
| Render.LayoutTaskOrder | src/App.js:45-64 | The published cards list column 0, then 1, then 2. Within each column they follow task-list order, minus the dragged task. |
| Render.RestingInColumn | src/App.js:60-64 | Filtering by column and skipping the dragged task commute. |
| Render.LayoutOneCardPerTask | src/App.js:43-89 | When statuses are valid, the layout holds exactly one card per non-dragged task, as a multiset and by count. |
| HitTesting.HitTest | src/App.js:136-141 | Returns nothing exactly when no rectangle strictly contains the point. Otherwise it returns the first rectangle that contains it. |
| HitTesting.EdgeNeverHits | src/App.js:138-139 | A point on any of the four edges never selects that rectangle. |
| HitTesting.DisjointShareNoPoint | src/App.js:138-139 | Two non-overlapping cards never both contain a point. |
| HitTesting.StackedHitIsUnique | src/App.js:136-141 | Among rectangles that do not overlap, the hit-test returns the one that contains the pointer, wherever it sits in the list. |
| HitTesting.LayoutHitIsCardUnderPointer | src/App.js:136-141 | On a published layout, the hit is exactly the card under the pointer, whatever its position in the list. |
| HitTesting.LayoutHitAny | src/App.js:136-141 | The same fact by membership: any published card that contains the pointer is the hit. |
| HitTesting.HitColumn | src/App.js:162 | A hit card lies in the column under the pointer, and the pointer lies horizontally within the canvas (0 <= x < 900). Its vertical position is not bounded: a card in row 8 or later lies below y = 600 and can still be hit. |
| DragDrop.DraggedCard | src/App.js:93-107 | A card floats exactly when a drag is active and some task has the dragged id. It is a task with that id, and the only one when ids are unique. |
| DragDrop.MouseDown | src/App.js:144-156 | Tasks are unchanged, and a press on no card changes nothing. A press on a card drags that card's task with the pointer at the press point, and the floating card starts at the card's top-left corner. This overrides any drag already active. |
| DragDrop.MouseMove | src/App.js:177-186 | Without a drag nothing changes. During a drag only the pointer position changes; the id and the grab offset stay. |
| DragDrop.MouseUp | src/App.js:158-175 | The drag always ends, and without a drag nothing changes. A release off the three column bands changes no task. Otherwise only tasks with the dragged id change, and they get the status of the column under the pointer. |
| DragDrop.StepKeepsInvariants | src/App.js:144-186 | No handler adds, removes, reorders or renames a task. None breaks "statuses are column keys" or "ids are unique". |
| DragDrop.RunKeepsInvariants | src/App.js:144-186 | The same holds after any sequence of pointer events. |
| DragDrop.RunSnoc | src/App.js:144-186 | Handling one more event is one more step on the previous board. |
| DragDrop.ReleaseEndsDrag | src/App.js:173 | After any event sequence that ends in a release, no drag is active. |
| DragDrop.DropIntoOwnColumn | src/App.js:162-171 | With unique ids, dropping a task into the column it already belongs to leaves the task list identical and ends the drag. |
| DragDrop.DropOfMissingTask | src/App.js:164-173 | Releasing a drag whose id no task carries ends the drag and changes nothing else. |
| DragDrop.ClickChangesNothing | src/App.js:144-175 | From an idle board with unique ids, a press and a release at the same point, with no move in between, restore the board exactly. |
| DragDrop.DropShowsCardInColumn | src/App.js:158-173 | After a drop over column `c`, the next render publishes the dragged task's card in column `c`. |
| DragDrop.DraggedCardStartsAtGrabbedCard | src/App.js:148-154 | Right after a press on a card, the floating card is drawn exactly where the grabbed card was. With unique ids it shows that card's task. |
| DragDrop.DraggedCardFollowsPointer | src/App.js:177-186 | While dragging, the floating card moves by exactly the pointer's displacement. |
| DragDrop.PressOnEmptySpace | src/App.js:144-186 | From an idle board, a press on no card, then any move and any release, changes nothing. |
| Scenarios.InitialTasksAreSeed | src/App.js:15-22 | The seed list holds the four seed tasks. Their statuses are column keys and their ids are distinct. |
| Scenarios.SeedColumns | src/App.js:60 | On the seed list, column 0 holds "Do dishes" then "Learn React", column 1 holds "Read book" and column 2 holds "Buy milk". |
| Scenarios.SeedCards | src/App.js:60-67 | The seed board draws the four cards in their slots, with "Learn React" below "Do dishes". |
| Scenarios.PressOnDishes | src/App.js:144-156 | A press at (100, 80) on the seed board grabs task 1. |
| Scenarios.DishesOngoing | src/App.js:165-171 | Rewriting task 1 to "ongoing" changes only that entry. |
| Scenarios.DragDishesToOngoing | src/App.js:144-186 | Press at (100, 80), move to (400, 80) and release there: "Do dishes" becomes ongoing and the drag ends. |
| Scenarios.DropLeftOfBoard | src/App.js:158-175 | The same drag released at x = -10 changes no task, since column -1 does not exist. |
| Scenarios.GapHitsNothing | src/App.js:66-67 | The point (100, 118), in the gap between rows 0 and 1 of the first column, is inside no card of any layout. |
| Scenarios.PressBetweenCards | src/App.js:144-175 | A press in that gap starts no drag, so the following move and release change nothing. |

## Left out

- Canvas painting: colours, fonts, shadows, column backgrounds, headings
  and the text of each card (src/App.js:41, 46-57, 69-82, 97-121). Only the
  rectangle list that `draw` publishes, and where the dragged card goes,
  are modelled.
- `getMousePos` (src/App.js:127-133) depends on the DOM bounding box. Every
  handler takes a pointer position already in logical canvas coordinates.
- React machinery: `useState`, `useRef` and the effect that redraws after
  each change (src/App.js:24-36). Handlers are modelled as running one at
  a time, each on the layout of the state it sees.
- The effect that disables text selection during a drag
  (src/App.js:189-192), and the JSX page shell, are presentation only.
- Floating-point rounding: coordinates are exact reals. The source's
  numbers (multiples of 16, 50, 60, 76 and 300) are exact in doubles, but
  pointer coordinates after scaling may not be.
- Clipping: rows from 8 on lie below y = 600. The source still publishes
  their rectangles without clipping, and so does the model. Pointer events
  on the canvas have y < 600 and cannot reach these cards. The model accepts
  any pointer position, so a point below y = 600 can hit one.
- Unknown column keys: SetStatus writes whatever key it is given. The
  code's only guard is the range check on the column index
  (src/App.js:163-164), and every key a handler passes is a column key.
