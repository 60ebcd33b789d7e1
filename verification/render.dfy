/** The rectangles the render pass publishes for hit-testing
    (src/App.js:43-45, 59-67, 75, 84-89).  The source rebuilds them on every
    redraw and redraws after every change of the tasks or the drag, so the
    layout is modelled as a pure function of the two, recomputed on demand. */
module Render {
  import opened Wrappers
  import opened Geometry
  import opened Tasks

  /** A published rectangle: the task's own fields, the card's geometry and
      the key of the column it was drawn in. */
  datatype Rect = Rect(task: Task, x: real, y: real, w: real, h: real, colKey: string)

  /** The card for task `t` in row `row` of column `col`. */
  function CardRect(col: int, row: int, t: Task): Rect
    requires 0 <= col < |Columns|
  {
    Rect(t, CardLeft(col), CardTop(row), CardWidth, RowHeight, Columns[col].key)
  }

  /** The render pass skips every task whose id is the dragged id. */
  predicate IsDragged(dragged: Option<int>, t: Task)
  {
    dragged.Some? && dragged.value == t.id
  }

  /** `r` has the size and horizontal position of a card of column `col`. */
  predicate PlacedIn(r: Rect, col: int)
    requires 0 <= col < |Columns|
  {
    r.colKey == Columns[col].key && r.x == CardLeft(col) && r.w == CardWidth && r.h == RowHeight
  }

  /** The rectangles of one column, whose task list is `ts`, starting at row
      `row`.  Every task takes a row, the dragged one included; the dragged
      one publishes no rectangle, so its row is left empty. */
  function ColumnRects(col: int, ts: seq<Task>, dragged: Option<int>, row: nat): (rs: seq<Rect>)
    requires 0 <= col < |Columns|
    ensures |rs| <= |ts|
    ensures forall i :: 0 <= i < |rs| ==>
      PlacedIn(rs[i], col) && rs[i].y >= CardTop(row) && rs[i].task in ts && !IsDragged(dragged, rs[i].task)
    ensures forall i, j :: 0 <= i < j < |rs| ==> rs[i].y + RowPitch <= rs[j].y
    decreases |ts|
  {
    if ts == [] then []
    else
      var rest := ColumnRects(col, ts[1..], dragged, row + 1);
      if IsDragged(dragged, ts[0]) then rest
      else [CardRect(col, row, ts[0])] + rest
  }

  /** The rectangles of column `col`: its filtered tasks from row 0. */
  function ColumnLayout(tasks: seq<Task>, dragged: Option<int>, col: int): seq<Rect>
    requires 0 <= col < |Columns|
  {
    ColumnRects(col, InColumn(tasks, Columns[col].key), dragged, 0)
  }

  /** What every published rectangle satisfies: it is a card of the column
      named by its key, at or below the first row, for a task of the list
      whose status is that key, and not for the dragged task. */
  predicate WellPlaced(tasks: seq<Task>, dragged: Option<int>, r: Rect)
  {
    && 0 <= ColumnIndex(r.colKey)
    && PlacedIn(r, ColumnIndex(r.colKey))
    && r.y >= FirstRowTop
    && r.task in tasks
    && r.task.status == r.colKey
    && !IsDragged(dragged, r.task)
  }

  lemma ColumnLayoutWellPlaced(tasks: seq<Task>, dragged: Option<int>, col: int)
    requires 0 <= col < |Columns|
    ensures forall r :: r in ColumnLayout(tasks, dragged, col) ==> WellPlaced(tasks, dragged, r)
  {
    InColumnMembers(tasks, Columns[col].key);
    var rs := ColumnLayout(tasks, dragged, col);
    forall r | r in rs ensures WellPlaced(tasks, dragged, r) {
      var i :| 0 <= i < |rs| && rs[i] == r;
      ColumnKeysDistinct(col, ColumnIndex(r.colKey));
    }
  }

  /** All published rectangles: the three columns in display order. */
  function Layout(tasks: seq<Task>, dragged: Option<int>): (rs: seq<Rect>)
    ensures forall r :: r in rs ==> WellPlaced(tasks, dragged, r)
  {
    ColumnLayoutWellPlaced(tasks, dragged, 0);
    ColumnLayoutWellPlaced(tasks, dragged, 1);
    ColumnLayoutWellPlaced(tasks, dragged, 2);
    ColumnLayout(tasks, dragged, 0) + ColumnLayout(tasks, dragged, 1) + ColumnLayout(tasks, dragged, 2)
  }

  /** Every published card lies strictly inside the band of the column it
      was drawn in, and at or below the first row. */
  lemma LayoutCardsInBands(tasks: seq<Task>, dragged: Option<int>)
    ensures forall r :: r in Layout(tasks, dragged) ==>
      && ColumnIndex(r.colKey) as real * ColumnWidth < r.x
      && r.x + r.w < (ColumnIndex(r.colKey) + 1) as real * ColumnWidth
      && FirstRowTop <= r.y
  {
    Measures();
  }

  /** The tasks of a rectangle list, in order. */
  function RectTasks(rs: seq<Rect>): (ts: seq<Task>)
    ensures |ts| == |rs|
    ensures forall i :: 0 <= i < |rs| ==> ts[i] == rs[i].task
  {
    if rs == [] then [] else [rs[0].task] + RectTasks(rs[1..])
  }

  /** The tasks that are drawn in place: all but the dragged one. */
  function Resting(ts: seq<Task>, dragged: Option<int>): (r: seq<Task>)
    ensures |r| <= |ts|
    ensures forall i :: 0 <= i < |r| ==> !IsDragged(dragged, r[i])
  {
    if ts == [] then []
    else (if IsDragged(dragged, ts[0]) then [] else [ts[0]]) + Resting(ts[1..], dragged)
  }

  /** Leaving out the dragged task keeps exactly the other tasks. */
  lemma {:induction false} RestingMembers(ts: seq<Task>, dragged: Option<int>)
    ensures forall t :: t in Resting(ts, dragged) <==> t in ts && !IsDragged(dragged, t)
  {
    if ts != [] {
      RestingMembers(ts[1..], dragged);
      assert ts == [ts[0]] + ts[1..];
    }
  }

  // ---------------------------------------------------------------------
  // Which rectangles are published

  /** Every rectangle of a column is the card of one of its tasks, in that
      task's own row. */
  lemma {:induction false} ColumnRectsSound(col: int, ts: seq<Task>, dragged: Option<int>, row: nat)
    requires 0 <= col < |Columns|
    ensures forall r :: r in ColumnRects(col, ts, dragged, row) ==>
      exists k :: 0 <= k < |ts| && !IsDragged(dragged, ts[k]) && r == CardRect(col, row + k, ts[k])
    decreases |ts|
  {
    if ts != [] {
      ColumnRectsSound(col, ts[1..], dragged, row + 1);
      forall r | r in ColumnRects(col, ts, dragged, row)
        ensures exists k :: 0 <= k < |ts| && !IsDragged(dragged, ts[k]) && r == CardRect(col, row + k, ts[k])
      {
        if r in ColumnRects(col, ts[1..], dragged, row + 1) {
          var k :| 0 <= k < |ts[1..]| && !IsDragged(dragged, ts[1..][k]) && r == CardRect(col, row + 1 + k, ts[1..][k]);
          assert ts[k + 1] == ts[1..][k];
        } else {
          assert r == CardRect(col, row + 0, ts[0]);
        }
      }
    }
  }

  /** Every task of a column that is not dragged has its card published. */
  lemma {:induction false} ColumnRectsComplete(col: int, ts: seq<Task>, dragged: Option<int>, row: nat, k: int)
    requires 0 <= col < |Columns|
    requires 0 <= k < |ts| && !IsDragged(dragged, ts[k])
    ensures CardRect(col, row + k, ts[k]) in ColumnRects(col, ts, dragged, row)
    decreases |ts|
  {
    var rest := ColumnRects(col, ts[1..], dragged, row + 1);
    if k == 0 {
      assert ColumnRects(col, ts, dragged, row) == [CardRect(col, row, ts[0])] + rest;
    } else {
      ColumnRectsComplete(col, ts[1..], dragged, row + 1, k - 1);
      assert ts[1..][k - 1] == ts[k];
      assert CardRect(col, row + k, ts[k]) in rest;
      if IsDragged(dragged, ts[0]) {
        assert ColumnRects(col, ts, dragged, row) == rest;
      } else {
        assert ColumnRects(col, ts, dragged, row) == [CardRect(col, row, ts[0])] + rest;
      }
    }
  }

  /** The `row`-th task of column `col`, if it is not dragged, is drawn
      as the card in that column and row. */
  predicate IsSlotCard(tasks: seq<Task>, dragged: Option<int>, r: Rect, col: int, row: int)
  {
    && 0 <= col < |Columns|
    && 0 <= row < |InColumn(tasks, Columns[col].key)|
    && !IsDragged(dragged, InColumn(tasks, Columns[col].key)[row])
    && r == CardRect(col, row, InColumn(tasks, Columns[col].key)[row])
  }

  lemma ColumnLayoutSound(tasks: seq<Task>, dragged: Option<int>, col: int, r: Rect)
    requires 0 <= col < |Columns| && r in ColumnLayout(tasks, dragged, col)
    ensures exists row :: IsSlotCard(tasks, dragged, r, col, row)
  {
    var ts := InColumn(tasks, Columns[col].key);
    ColumnRectsSound(col, ts, dragged, 0);
    var k :| 0 <= k < |ts| && !IsDragged(dragged, ts[k]) && r == CardRect(col, 0 + k, ts[k]);
    assert IsSlotCard(tasks, dragged, r, col, k);
  }

  /** Every published rectangle is the card of a non-dragged task, in the
      column of its status and the row of its place in that column. */
  lemma LayoutSound(tasks: seq<Task>, dragged: Option<int>)
    ensures forall r :: r in Layout(tasks, dragged) ==>
              exists col, row :: IsSlotCard(tasks, dragged, r, col, row)
  {
    forall r | r in Layout(tasks, dragged)
      ensures exists col, row :: IsSlotCard(tasks, dragged, r, col, row)
    {
      if r in ColumnLayout(tasks, dragged, 0) {
        ColumnLayoutSound(tasks, dragged, 0, r);
      } else if r in ColumnLayout(tasks, dragged, 1) {
        ColumnLayoutSound(tasks, dragged, 1, r);
      } else {
        ColumnLayoutSound(tasks, dragged, 2, r);
      }
    }
  }

  lemma ColumnLayoutComplete(tasks: seq<Task>, dragged: Option<int>, col: int, row: int)
    requires 0 <= col < |Columns| && 0 <= row < |InColumn(tasks, Columns[col].key)|
    requires !IsDragged(dragged, InColumn(tasks, Columns[col].key)[row])
    ensures CardRect(col, row, InColumn(tasks, Columns[col].key)[row]) in ColumnLayout(tasks, dragged, col)
  {
    var ts := InColumn(tasks, Columns[col].key);
    ColumnRectsComplete(col, ts, dragged, 0, row);
    assert 0 + row == row;
  }

  /** Every non-dragged task of every column has its card published. */
  lemma LayoutComplete(tasks: seq<Task>, dragged: Option<int>)
    ensures forall r, col, row :: IsSlotCard(tasks, dragged, r, col, row) ==> r in Layout(tasks, dragged)
  {
    forall r, col, row | IsSlotCard(tasks, dragged, r, col, row)
      ensures r in Layout(tasks, dragged)
    {
      ColumnLayoutComplete(tasks, dragged, col, row);
      var a, b, c := ColumnLayout(tasks, dragged, 0), ColumnLayout(tasks, dragged, 1), ColumnLayout(tasks, dragged, 2);
      assert Layout(tasks, dragged) == a + b + c;
      assert r in ColumnLayout(tasks, dragged, col);
    }
  }

  /** Starting a drag removes the dragged task's card and moves no other card. */
  lemma DragRemovesOnlyDraggedCard(tasks: seq<Task>, id: int)
    ensures forall r :: r in Layout(tasks, Some(id)) <==> r in Layout(tasks, None) && r.task.id != id
  {
    LayoutSound(tasks, Some(id));
    LayoutSound(tasks, None);
    LayoutComplete(tasks, Some(id));
    LayoutComplete(tasks, None);
    forall r | r in Layout(tasks, Some(id))
      ensures r in Layout(tasks, None)
    {
      var col, row :| IsSlotCard(tasks, Some(id), r, col, row);
      assert IsSlotCard(tasks, None, r, col, row);
    }
    forall r | r in Layout(tasks, None) && r.task.id != id
      ensures r in Layout(tasks, Some(id))
    {
      var col, row :| IsSlotCard(tasks, None, r, col, row);
      assert IsSlotCard(tasks, Some(id), r, col, row);
    }
  }

  // ---------------------------------------------------------------------
  // Cards never overlap

  /** The interiors of two rectangles do not intersect. */
  predicate Disjoint(a: Rect, b: Rect)
  {
    a.x + a.w <= b.x || b.x + b.w <= a.x || a.y + a.h <= b.y || b.y + b.h <= a.y
  }

  /** Rectangles that pairwise do not overlap, where a later rectangle of the
      same column lies strictly below an earlier one. */
  predicate Stacked(rs: seq<Rect>)
  {
    forall i, j :: 0 <= i < j < |rs| ==>
      Disjoint(rs[i], rs[j]) && (rs[i].colKey == rs[j].colKey ==> rs[i].y + rs[i].h < rs[j].y)
  }

  lemma ColumnLayoutStacked(tasks: seq<Task>, dragged: Option<int>, col: int)
    requires 0 <= col < |Columns|
    ensures Stacked(ColumnLayout(tasks, dragged, col))
  {
  }

  /** Joining two stacks that are apart horizontally and lie in different
      columns gives a stack. */
  lemma StackedConcat(a: seq<Rect>, b: seq<Rect>)
    requires Stacked(a) && Stacked(b)
    requires forall r, s :: r in a && s in b ==> r.x + r.w <= s.x && r.colKey != s.colKey
    ensures Stacked(a + b)
  {
    forall i, j | 0 <= i < j < |a + b|
      ensures Disjoint((a + b)[i], (a + b)[j])
      ensures (a + b)[i].colKey == (a + b)[j].colKey ==> (a + b)[i].y + (a + b)[i].h < (a + b)[j].y
    {
      if j < |a| {
        assert (a + b)[i] == a[i] && (a + b)[j] == a[j];
      } else if i >= |a| {
        assert (a + b)[i] == b[i - |a|] && (a + b)[j] == b[j - |a|];
      } else {
        assert (a + b)[i] == a[i] && (a + b)[j] == b[j - |a|];
        assert a[i] in a && b[j - |a|] in b;
      }
    }
  }

  /** No two published rectangles overlap; in one column, a later one lies
      strictly below an earlier one (the row pitch exceeds the card height). */
  lemma LayoutCardsDisjoint(tasks: seq<Task>, dragged: Option<int>)
    ensures Stacked(Layout(tasks, dragged))
  {
    var a, b, c := ColumnLayout(tasks, dragged, 0), ColumnLayout(tasks, dragged, 1), ColumnLayout(tasks, dragged, 2);
    ColumnLayoutStacked(tasks, dragged, 0);
    ColumnLayoutStacked(tasks, dragged, 1);
    ColumnLayoutStacked(tasks, dragged, 2);
    ColumnKeysDistinct(0, 1);
    ColumnKeysDistinct(0, 2);
    ColumnKeysDistinct(1, 2);
    StackedConcat(a, b);
    StackedConcat(a + b, c);
  }

  // ---------------------------------------------------------------------
  // Order and multiplicity of the published cards

  lemma {:induction false} RectTasksConcat(a: seq<Rect>, b: seq<Rect>)
    ensures RectTasks(a + b) == RectTasks(a) + RectTasks(b)
  {
    assert forall i :: 0 <= i < |a + b| ==> RectTasks(a + b)[i] == (RectTasks(a) + RectTasks(b))[i];
  }

  /** The cards of a column are its non-dragged tasks, in list order. */
  lemma {:induction false} ColumnRectsTasks(col: int, ts: seq<Task>, dragged: Option<int>, row: nat)
    requires 0 <= col < |Columns|
    ensures RectTasks(ColumnRects(col, ts, dragged, row)) == Resting(ts, dragged)
    decreases |ts|
  {
    if ts != [] {
      ColumnRectsTasks(col, ts[1..], dragged, row + 1);
      if !IsDragged(dragged, ts[0]) {
        RectTasksConcat([CardRect(col, row, ts[0])], ColumnRects(col, ts[1..], dragged, row + 1));
      }
    }
  }

  /** The layout lists the cards column by column, each column's cards in
      task-list order, with the dragged task left out. */
  lemma LayoutTaskOrder(tasks: seq<Task>, dragged: Option<int>)
    ensures RectTasks(Layout(tasks, dragged)) ==
      Resting(InColumn(tasks, Columns[0].key), dragged)
      + Resting(InColumn(tasks, Columns[1].key), dragged)
      + Resting(InColumn(tasks, Columns[2].key), dragged)
  {
    var a, b, c := ColumnLayout(tasks, dragged, 0), ColumnLayout(tasks, dragged, 1), ColumnLayout(tasks, dragged, 2);
    ColumnRectsTasks(0, InColumn(tasks, Columns[0].key), dragged, 0);
    ColumnRectsTasks(1, InColumn(tasks, Columns[1].key), dragged, 0);
    ColumnRectsTasks(2, InColumn(tasks, Columns[2].key), dragged, 0);
    RectTasksConcat(a, b);
    RectTasksConcat(a + b, c);
  }

  /** Filtering by column and leaving out the dragged task commute. */
  lemma {:induction false} RestingInColumn(ts: seq<Task>, key: string, dragged: Option<int>)
    ensures Resting(InColumn(ts, key), dragged) == InColumn(Resting(ts, dragged), key)
  {
    if ts != [] {
      var t := ts[0];
      RestingInColumn(ts[1..], key, dragged);
      var head := if t.status == key then [t] else [];
      assert InColumn(ts, key) == head + InColumn(ts[1..], key);
      RestingConcat(head, InColumn(ts[1..], key), dragged);
      var kept := if IsDragged(dragged, t) then [] else [t];
      assert Resting(ts, dragged) == kept + Resting(ts[1..], dragged);
      InColumnConcat(kept, Resting(ts[1..], dragged), key);
      assert Resting(head, dragged) == InColumn(kept, key);
    }
  }

  lemma {:induction false} RestingConcat(a: seq<Task>, b: seq<Task>, dragged: Option<int>)
    ensures Resting(a + b, dragged) == Resting(a, dragged) + Resting(b, dragged)
  {
    if a != [] {
      var head := if IsDragged(dragged, a[0]) then [] else [a[0]];
      assert (a + b)[0] == a[0] && (a + b)[1..] == a[1..] + b;
      assert Resting(a + b, dragged) == head + Resting(a[1..] + b, dragged);
      RestingConcat(a[1..], b, dragged);
      assert Resting(a, dragged) == head + Resting(a[1..], dragged);
      assert head + (Resting(a[1..], dragged) + Resting(b, dragged))
          == (head + Resting(a[1..], dragged)) + Resting(b, dragged);
    } else {
      assert a + b == b;
    }
  }

  lemma RestingKeepsValid(ts: seq<Task>, dragged: Option<int>)
    requires StatusesValid(ts)
    ensures StatusesValid(Resting(ts, dragged))
  {
    var r := Resting(ts, dragged);
    RestingMembers(ts, dragged);
    forall i | 0 <= i < |r| ensures IsColumnKey(r[i].status) {
      assert r[i] in ts;
    }
  }

  /** With valid statuses the layout holds exactly one card per occurrence
      of each non-dragged task, and none for the dragged task. */
  lemma LayoutOneCardPerTask(tasks: seq<Task>, dragged: Option<int>)
    requires StatusesValid(tasks)
    ensures multiset(RectTasks(Layout(tasks, dragged))) == multiset(Resting(tasks, dragged))
    ensures |Layout(tasks, dragged)| == |Resting(tasks, dragged)|
  {
    LayoutTaskOrder(tasks, dragged);
    var rest := Resting(tasks, dragged);
    RestingInColumn(tasks, Columns[0].key, dragged);
    RestingInColumn(tasks, Columns[1].key, dragged);
    RestingInColumn(tasks, Columns[2].key, dragged);
    RestingKeepsValid(tasks, dragged);
    ColumnsPartition(rest);
    assert multiset(RectTasks(Layout(tasks, dragged))) == multiset(rest);
    assert |multiset(RectTasks(Layout(tasks, dragged)))| == |multiset(rest)|;
  }
}
