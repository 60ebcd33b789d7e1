/** The drag-and-drop controller: the board state, the three pointer
    handlers and the position of the card being dragged
    (src/App.js:26-28, 93-107, 143-186).  Handlers run one at a time to
    completion, and the published rectangles always come from the render
    pass of the current state, so each handler is a pure function of the
    board and a pointer position that is already in logical coordinates. */
module DragDrop {
  import opened Wrappers
  import opened Geometry
  import opened Tasks
  import opened Render
  import opened HitTesting

  /** An active drag: the dragged task's id, the pointer's offset from the
      card's top-left corner at grab time, and the current pointer. */
  datatype Drag = Drag(taskId: int, offsetX: real, offsetY: real, x: real, y: real)

  /** Everything the handlers read and write: the tasks and the drag, if any. */
  datatype Board = Board(tasks: seq<Task>, drag: Option<Drag>)

  datatype Event = Down(p: Point) | Move(p: Point) | Up(p: Point)

  function DraggedId(drag: Option<Drag>): Option<int>
  {
    if drag.Some? then Some(drag.value.taskId) else None
  }

  /** The rectangles the last render pass published for this board. */
  function Rects(b: Board): seq<Rect>
  {
    Layout(b.tasks, DraggedId(b.drag))
  }

  function Pointer(d: Drag): Point
  {
    Point(d.x, d.y)
  }

  /** Top-left corner of the dragged card: the pointer minus the grab offset. */
  function CardOrigin(d: Drag): Point
  {
    Point(d.x - d.offsetX, d.y - d.offsetY)
  }

  /** The card drawn on top during a drag: the first task with the dragged
      id, at the card origin. */
  datatype Floating = Floating(task: Task, at: Point)

  function DraggedCard(b: Board): (f: Option<Floating>)
    ensures f.Some? <==> b.drag.Some? && exists i :: 0 <= i < |b.tasks| && b.tasks[i].id == b.drag.value.taskId
    ensures f.Some? ==> f.value.task in b.tasks && f.value.task.id == b.drag.value.taskId
    ensures f.Some? && UniqueIds(b.tasks) ==> forall t :: t in b.tasks && t.id == b.drag.value.taskId ==> f.value.task == t
  {
    if b.drag.None? then None
    else match FindTask(b.tasks, b.drag.value.taskId)
      case None => None
      case Some(t) => Some(Floating(t, CardOrigin(b.drag.value)))
  }

  /** Pointer pressed.  A card under the pointer starts a drag of its task,
      replacing any drag already active; elsewhere nothing happens. */
  function MouseDown(b: Board, p: Point): (b': Board)
    ensures b'.tasks == b.tasks
    ensures (forall r :: r in Rects(b) ==> !Contains(r, p)) ==> b' == b
    ensures forall r :: r in Rects(b) && Contains(r, p) ==>
      && b'.drag.Some?
      && b'.drag.value.taskId == r.task.id
      && CardOrigin(b'.drag.value) == Point(r.x, r.y)
      && Pointer(b'.drag.value) == p
    ensures b.drag.Some? && b'.drag.Some? && b'.drag.value.taskId == b.drag.value.taskId ==> b' == b
  {
    LayoutHitAny(b.tasks, DraggedId(b.drag), p);
    match HitTest(Rects(b), p)
    case None => b
    case Some(hit) => Board(b.tasks, Some(Drag(hit.task.id, p.x - hit.x, p.y - hit.y, p.x, p.y)))
  }

  /** Pointer moved.  During a drag only the pointer position changes. */
  function MouseMove(b: Board, p: Point): (b': Board)
    ensures b'.tasks == b.tasks
    ensures b.drag.None? ==> b' == b
    ensures b.drag.Some? ==>
      && b'.drag.Some?
      && b'.drag.value.taskId == b.drag.value.taskId
      && b'.drag.value.offsetX == b.drag.value.offsetX
      && b'.drag.value.offsetY == b.drag.value.offsetY
      && Pointer(b'.drag.value) == p
  {
    match b.drag
    case None => b
    case Some(d) => Board(b.tasks, Some(d.(x := p.x, y := p.y)))
  }

  /** Pointer released.  During a drag, a release over one of the three
      column bands moves the dragged task into that column; the drag ends in
      every case. */
  function MouseUp(b: Board, p: Point): (b': Board)
    ensures b'.drag.None?
    ensures b.drag.None? ==> b' == b
    ensures b.drag.Some? && !(0.0 <= p.x < CanvasWidth) ==> b'.tasks == b.tasks
    ensures b.drag.Some? && 0.0 <= p.x < CanvasWidth ==>
      && 0 <= ColumnAt(p.x) < |Columns|
      && |b'.tasks| == |b.tasks|
      && (forall i :: 0 <= i < |b.tasks| && b.tasks[i].id != b.drag.value.taskId ==> b'.tasks[i] == b.tasks[i])
      && (forall i :: 0 <= i < |b.tasks| && b.tasks[i].id == b.drag.value.taskId ==>
            b'.tasks[i] == b.tasks[i].(status := Columns[ColumnAt(p.x)].key))
  {
    match b.drag
    case None => b
    case Some(d) =>
      var col := ColumnAt(p.x);
      ColumnAtInRange(p.x);
      if 0 <= col < |Columns| then Board(SetStatus(b.tasks, d.taskId, Columns[col].key), None)
      else Board(b.tasks, None)
  }

  function Step(b: Board, e: Event): Board
  {
    match e
    case Down(p) => MouseDown(b, p)
    case Move(p) => MouseMove(b, p)
    case Up(p) => MouseUp(b, p)
  }

  /** The board after a sequence of pointer events, handled in order. */
  function Run(b: Board, es: seq<Event>): Board
    decreases |es|
  {
    if es == [] then b else Run(Step(b, es[0]), es[1..])
  }

  // ---------------------------------------------------------------------
  // Invariants of every transition

  /** No handler adds, removes, reorders or renames a task, and none breaks
      "every status is a column key" or "ids are unique". */
  lemma StepKeepsInvariants(b: Board, e: Event)
    ensures SameCards(b.tasks, Step(b, e).tasks)
    ensures StatusesValid(b.tasks) ==> StatusesValid(Step(b, e).tasks)
    ensures UniqueIds(b.tasks) ==> UniqueIds(Step(b, e).tasks)
  {
    if e.Up? && b.drag.Some? && 0.0 <= e.p.x < CanvasWidth {
      var key := Columns[ColumnAt(e.p.x)].key;
      assert IsColumnKey(key);
      SetStatusKeepsInvariants(b.tasks, b.drag.value.taskId, key);
    }
  }

  lemma SameCardsTransitive(a: seq<Task>, b: seq<Task>, c: seq<Task>)
    requires SameCards(a, b) && SameCards(b, c)
    ensures SameCards(a, c)
  {
  }

  /** The invariants hold after any sequence of pointer events. */
  lemma {:induction false} RunKeepsInvariants(b: Board, es: seq<Event>)
    ensures SameCards(b.tasks, Run(b, es).tasks)
    ensures StatusesValid(b.tasks) ==> StatusesValid(Run(b, es).tasks)
    ensures UniqueIds(b.tasks) ==> UniqueIds(Run(b, es).tasks)
    decreases |es|
  {
    if es != [] {
      var next := Step(b, es[0]);
      StepKeepsInvariants(b, es[0]);
      RunKeepsInvariants(next, es[1..]);
      SameCardsTransitive(b.tasks, next.tasks, Run(next, es[1..]).tasks);
    }
  }

  /** Every release ends the drag, whatever came before it. */
  lemma ReleaseEndsDrag(b: Board, es: seq<Event>, p: Point)
    ensures Run(b, es + [Up(p)]).drag.None?
  {
    RunSnoc(b, es, Up(p));
  }

  lemma {:induction false} RunSnoc(b: Board, es: seq<Event>, e: Event)
    ensures Run(b, es + [e]) == Step(Run(b, es), e)
    decreases |es|
  {
    if es == [] {
      assert es + [e] == [e];
    } else {
      assert (es + [e])[1..] == es[1..] + [e];
      RunSnoc(Step(b, es[0]), es[1..], e);
    }
  }

  // ---------------------------------------------------------------------
  // Round trips

  /** Dropping the dragged task into the column it already belongs to leaves
      the task list exactly as it was. */
  lemma DropIntoOwnColumn(b: Board, p: Point)
    requires b.drag.Some? && UniqueIds(b.tasks)
    requires exists i :: 0 <= i < |b.tasks| && b.tasks[i].id == b.drag.value.taskId
                         && ColumnAt(p.x) == ColumnIndex(b.tasks[i].status) >= 0
    ensures MouseUp(b, p) == Board(b.tasks, None)
  {
    var i :| 0 <= i < |b.tasks| && b.tasks[i].id == b.drag.value.taskId
             && ColumnAt(p.x) == ColumnIndex(b.tasks[i].status) >= 0;
    ColumnAtInRange(p.x);
    SetStatusUnchanged(b.tasks, b.drag.value.taskId, Columns[ColumnAt(p.x)].key);
  }

  /** Releasing a drag whose task is no longer in the list ends the drag and
      changes no task, wherever the pointer is. */
  lemma DropOfMissingTask(b: Board, p: Point)
    requires b.drag.Some?
    requires forall i :: 0 <= i < |b.tasks| ==> b.tasks[i].id != b.drag.value.taskId
    ensures MouseUp(b, p) == Board(b.tasks, None)
  {
    if 0 <= ColumnAt(p.x) < |Columns| {
      SetStatusUnchanged(b.tasks, b.drag.value.taskId, Columns[ColumnAt(p.x)].key);
    }
  }

  /** Pressing and releasing at one point without moving changes nothing. */
  lemma ClickChangesNothing(b: Board, p: Point)
    requires b.drag.None? && UniqueIds(b.tasks)
    ensures MouseUp(MouseDown(b, p), p) == b
  {
    Measures();
    var hit := HitTest(Rects(b), p);
    var b1 := MouseDown(b, p);
    if hit.Some? {
      var r := hit.value;
      assert r in Rects(b) && WellPlaced(b.tasks, None, r);
      HitColumn(b.tasks, None, p);
      assert b1 == Board(b.tasks, Some(Drag(r.task.id, p.x - r.x, p.y - r.y, p.x, p.y)));
      var i :| 0 <= i < |b.tasks| && b.tasks[i] == r.task;
      assert b1.tasks[i].id == b1.drag.value.taskId && ColumnAt(p.x) == ColumnIndex(b1.tasks[i].status) >= 0;
      DropIntoOwnColumn(b1, p);
    } else {
      assert b1 == b;
    }
  }

  /** After a drop over column `c`, the dragged task's card is published in
      column `c` of the next layout. */
  lemma DropShowsCardInColumn(b: Board, p: Point, i: int)
    requires b.drag.Some? && 0.0 <= p.x < CanvasWidth
    requires 0 <= i < |b.tasks| && b.tasks[i].id == b.drag.value.taskId
    ensures exists r :: r in Rects(MouseUp(b, p)) && r.task.id == b.drag.value.taskId
                        && r.colKey == Columns[ColumnAt(p.x)].key
  {
    var b' := MouseUp(b, p);
    var c := ColumnAt(p.x);
    var t := b'.tasks[i];
    var col := InColumn(b'.tasks, Columns[c].key);
    InColumnMembers(b'.tasks, Columns[c].key);
    assert t in col;
    var row :| 0 <= row < |col| && col[row] == t;
    assert IsSlotCard(b'.tasks, None, CardRect(c, row, t), c, row);
    LayoutComplete(b'.tasks, None);
    assert CardRect(c, row, t) in Rects(b');
  }

  // ---------------------------------------------------------------------
  // The dragged card on screen

  /** A drag starts with the floating card exactly where the grabbed card
      was drawn. */
  lemma DraggedCardStartsAtGrabbedCard(b: Board, p: Point, r: Rect)
    requires r in Rects(b) && Contains(r, p)
    ensures DraggedCard(MouseDown(b, p)).Some?
    ensures DraggedCard(MouseDown(b, p)).value.at == Point(r.x, r.y)
    ensures UniqueIds(b.tasks) ==> DraggedCard(MouseDown(b, p)).value.task == r.task
  {
    var i :| 0 <= i < |b.tasks| && b.tasks[i] == r.task;
  }

  /** While dragging, the floating card moves rigidly with the pointer. */
  lemma DraggedCardFollowsPointer(b: Board, p: Point)
    requires DraggedCard(b).Some?
    ensures DraggedCard(MouseMove(b, p)).Some?
    ensures DraggedCard(MouseMove(b, p)).value.task == DraggedCard(b).value.task
    ensures DraggedCard(MouseMove(b, p)).value.at ==
      Point(DraggedCard(b).value.at.x + (p.x - b.drag.value.x), DraggedCard(b).value.at.y + (p.y - b.drag.value.y))
  {
  }

  /** From an idle board, a press away from every card starts nothing, and
      the move and release that follow it change nothing. */
  lemma PressOnEmptySpace(b: Board, p: Point, q: Point, s: Point)
    requires b.drag.None?
    requires forall r :: r in Rects(b) ==> !Contains(r, p)
    ensures Run(b, [Down(p), Move(q), Up(s)]) == b
  {
    assert MouseDown(b, p) == b;
    assert [Down(p), Move(q), Up(s)][1..] == [Move(q), Up(s)];
    assert [Move(q), Up(s)][1..] == [Up(s)];
    assert [Up(s)][1..] == [];
    calc {
      Run(b, [Down(p), Move(q), Up(s)]);
      Run(Step(b, Down(p)), [Move(q), Up(s)]);
      Run(b, [Move(q), Up(s)]);
      Run(Step(b, Move(q)), [Up(s)]);
      Run(b, [Up(s)]);
      Run(Step(b, Up(s)), []);
    }
  }
}
