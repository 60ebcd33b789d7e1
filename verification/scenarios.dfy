/** Concrete runs on the board's seed tasks (src/App.js:15-22). */
module Scenarios {
  import opened Wrappers
  import opened Geometry
  import opened Tasks
  import opened Render
  import opened HitTesting
  import opened DragDrop

  function InitialTasks(): seq<Task>
  {
    [ Task(1, "Do dishes", "incompleted"),
      Task(2, "Read book", "ongoing"),
      Task(3, "Buy milk", "completed"),
      Task(4, "Learn React", "incompleted") ]
  }

  /** `ts` holds the seed tasks, stated element by element. */
  predicate IsSeed(ts: seq<Task>)
  {
    && |ts| == 4
    && ts[0] == Task(1, "Do dishes", "incompleted")
    && ts[1] == Task(2, "Read book", "ongoing")
    && ts[2] == Task(3, "Buy milk", "completed")
    && ts[3] == Task(4, "Learn React", "incompleted")
  }

  lemma InitialTasksAreSeed()
    ensures IsSeed(InitialTasks())
    ensures StatusesValid(InitialTasks()) && UniqueIds(InitialTasks())
  {
    assert IsColumnKey(Columns[0].key) && IsColumnKey(Columns[1].key) && IsColumnKey(Columns[2].key);
  }

  /** The column filter of a four-task list, one task at a time. */
  lemma InColumnOfFour(ts: seq<Task>, key: string)
    requires |ts| == 4
    ensures InColumn(ts, key) ==
      InColumn([ts[0]], key) + InColumn([ts[1]], key) + InColumn([ts[2]], key) + InColumn([ts[3]], key)
  {
    var t1, t2, t3, t4 := ts[0], ts[1], ts[2], ts[3];
    assert ts == [t1] + [t2] + [t3] + [t4];
    InColumnConcat([t1] + [t2] + [t3], [t4], key);
    InColumnConcat([t1] + [t2], [t3], key);
    InColumnConcat([t1], [t2], key);
  }

  lemma InColumnSingle(t: Task, key: string)
    ensures InColumn([t], key) == if t.status == key then [t] else []
  {
    assert [t][1..] == [];
  }

  /** The filter of one column of the seed tasks, given which tasks it keeps. */
  lemma SeedColumn(ts: seq<Task>, key: string, keep: seq<bool>)
    requires |ts| == 4 && |keep| == 4
    requires forall i :: 0 <= i < 4 ==> (ts[i].status == key) == keep[i]
    ensures InColumn(ts, key) ==
      (if keep[0] then [ts[0]] else []) + (if keep[1] then [ts[1]] else [])
      + (if keep[2] then [ts[2]] else []) + (if keep[3] then [ts[3]] else [])
  {
    InColumnOfFour(ts, key);
    InColumnSingle(ts[0], key);
    InColumnSingle(ts[1], key);
    InColumnSingle(ts[2], key);
    InColumnSingle(ts[3], key);
  }

  lemma SeedColumns(ts: seq<Task>)
    requires IsSeed(ts)
    ensures InColumn(ts, Columns[0].key) == [ts[0], ts[3]]
    ensures InColumn(ts, Columns[1].key) == [ts[1]]
    ensures InColumn(ts, Columns[2].key) == [ts[2]]
  {
    assert InColumn(ts, Columns[0].key) == [ts[0], ts[3]] by {
      SeedColumn(ts, Columns[0].key, [true, false, false, true]);
      assert [ts[0]] + [] + [] + [ts[3]] == [ts[0], ts[3]];
    }
    assert InColumn(ts, Columns[1].key) == [ts[1]] by {
      SeedColumn(ts, Columns[1].key, [false, true, false, false]);
      assert [] + [ts[1]] + [] + [] == [ts[1]];
    }
    assert InColumn(ts, Columns[2].key) == [ts[2]] by {
      SeedColumn(ts, Columns[2].key, [false, false, true, false]);
      assert [] + [] + [ts[2]] + [] == [ts[2]];
    }
  }

  /** The seed board draws "Do dishes" and "Learn React" in rows 0 and 1
      of the first column, the second strictly below the first, and one
      card in each of the other columns. */
  lemma SeedCards(ts: seq<Task>)
    requires IsSeed(ts)
    ensures CardRect(0, 0, ts[0]) in Layout(ts, None)
    ensures CardRect(0, 1, ts[3]) in Layout(ts, None)
    ensures CardRect(1, 0, ts[1]) in Layout(ts, None)
    ensures CardRect(2, 0, ts[2]) in Layout(ts, None)
    ensures CardRect(0, 0, ts[0]).y + RowHeight < CardRect(0, 1, ts[3]).y
  {
    SeedColumns(ts);
    LayoutComplete(ts, None);
    assert IsSlotCard(ts, None, CardRect(0, 0, ts[0]), 0, 0);
    assert IsSlotCard(ts, None, CardRect(0, 1, ts[3]), 0, 1);
    assert IsSlotCard(ts, None, CardRect(1, 0, ts[1]), 1, 0);
    assert IsSlotCard(ts, None, CardRect(2, 0, ts[2]), 2, 0);
  }

  /** A press, a move and a release, handled in order. */
  lemma RunThree(b: Board, e1: Event, e2: Event, e3: Event)
    ensures Run(b, [e1, e2, e3]) == Step(Step(Step(b, e1), e2), e3)
  {
    assert [e1, e2, e3][1..] == [e2, e3];
    assert [e2, e3][1..] == [e3];
    assert [e3][1..] == [];
    var b1 := Step(b, e1);
    var b2 := Step(b1, e2);
    calc {
      Run(b, [e1, e2, e3]);
      Run(b1, [e2, e3]);
      Run(b2, [e3]);
      Run(Step(b2, e3), []);
    }
  }

  /** Pressing at (100, 80) on the seed board grabs "Do dishes" (task 1). */
  lemma PressOnDishes(ts: seq<Task>)
    requires IsSeed(ts)
    ensures MouseDown(Board(ts, None), Point(100.0, 80.0)).drag.Some?
    ensures MouseDown(Board(ts, None), Point(100.0, 80.0)).drag.value.taskId == 1
    ensures MouseDown(Board(ts, None), Point(100.0, 80.0)).tasks == ts
  {
    SeedCards(ts);
    var card := CardRect(0, 0, ts[0]);
    assert Contains(card, Point(100.0, 80.0));
  }

  /** Rewriting task 1's status to "ongoing" in the seed list. */
  lemma DishesOngoing(ts: seq<Task>)
    requires IsSeed(ts)
    ensures SetStatus(ts, 1, Columns[1].key) == [Task(1, "Do dishes", "ongoing")] + ts[1..]
  {
    var r := SetStatus(ts, 1, Columns[1].key);
    var expected := [Task(1, "Do dishes", "ongoing")] + ts[1..];
    forall i | 0 <= i < |ts| ensures r[i] == expected[i] {
      if i > 0 {
        assert ts[i].id != 1;
      }
    }
  }

  /** Dragging "Do dishes" from its card into the second column makes it
      "ongoing"; nothing else changes and the drag ends. */
  lemma DragDishesToOngoing(ts: seq<Task>)
    requires IsSeed(ts)
    ensures Run(Board(ts, None), [Down(Point(100.0, 80.0)), Move(Point(400.0, 80.0)), Up(Point(400.0, 80.0))])
         == Board([Task(1, "Do dishes", "ongoing")] + ts[1..], None)
  {
    Measures();
    var p, q := Point(100.0, 80.0), Point(400.0, 80.0);
    RunThree(Board(ts, None), Down(p), Move(q), Up(q));
    PressOnDishes(ts);
    var b1 := MouseDown(Board(ts, None), p);
    var b2 := MouseMove(b1, q);
    assert b1.tasks == ts && b1.drag.Some? && b1.drag.value.taskId == 1;
    assert b2.tasks == ts && b2.drag.Some?;
    assert b2.drag.value.taskId == b1.drag.value.taskId;
    assert ColumnAt(q.x) == 1;
    var b3 := MouseUp(b2, q);
    assert b3.drag.None?;
    DishesOngoing(ts);
    assert b3.tasks == SetStatus(ts, 1, Columns[1].key);
    assert Step(Step(Step(Board(ts, None), Down(p)), Move(q)), Up(q)) == b3;
  }

  /** Releasing left of every column ends the drag without changing a task. */
  lemma DropLeftOfBoard(ts: seq<Task>)
    requires IsSeed(ts)
    ensures Run(Board(ts, None), [Down(Point(100.0, 80.0)), Move(Point(-10.0, 80.0)), Up(Point(-10.0, 80.0))])
         == Board(ts, None)
    ensures ColumnAt(-10.0) == -1
  {
    Measures();
    var p, q := Point(100.0, 80.0), Point(-10.0, 80.0);
    RunThree(Board(ts, None), Down(p), Move(q), Up(q));
    PressOnDishes(ts);
    var b1 := MouseDown(Board(ts, None), p);
    var b2 := MouseMove(b1, q);
    assert b2.tasks == ts && b2.drag.Some?;
    assert MouseUp(b2, q) == Board(ts, None);
    assert Step(Step(Step(Board(ts, None), Down(p)), Move(q)), Up(q)) == MouseUp(b2, q);
  }

  /** No card of any layout contains a point in the gap between rows 0 and
      1 of the first column. */
  lemma GapHitsNothing(tasks: seq<Task>, dragged: Option<int>)
    ensures forall r :: r in Layout(tasks, dragged) ==> !Contains(r, Point(100.0, 118.0))
  {
    Measures();
    LayoutSound(tasks, dragged);
    forall r | r in Layout(tasks, dragged) ensures !Contains(r, Point(100.0, 118.0)) {
      var col, row :| IsSlotCard(tasks, dragged, r, col, row);
      if col == 0 {
        if row <= 0 {
          assert r.y + r.h <= 110.0;
        } else {
          assert r.y >= 126.0;
        }
      } else {
        assert r.x >= 316.0;
      }
    }
  }

  /** A press in the gap between the two cards of the first column hits
      nothing, so the following move and release do nothing either. */
  lemma PressBetweenCards(ts: seq<Task>)
    requires IsSeed(ts)
    ensures Run(Board(ts, None), [Down(Point(100.0, 118.0)), Move(Point(400.0, 80.0)), Up(Point(400.0, 80.0))])
         == Board(ts, None)
  {
    GapHitsNothing(ts, None);
    PressOnEmptySpace(Board(ts, None), Point(100.0, 118.0), Point(400.0, 80.0), Point(400.0, 80.0));
  }
}
