/** The kanban board component: its four pieces of state and the handlers
    that replace them, one method per handler. */
module KanbanBoard {
  import opened Types
  import opened Sequences
  import opened BoardStore
  import opened DragAndDrop

  class Board {
    var columns: seq<Column>
    var tasks: seq<Task>
    var activeColumn: Option<Column>
    var activeTask: Option<Task>

    /** The state a fresh board starts in: no columns, no tasks, no drag. */
    constructor ()
      ensures columns == [] && tasks == [] && activeColumn.None? && activeTask.None?
    {
      columns, tasks := [], [];
      activeColumn, activeTask := None, None;
    }

    /** The active slots as one value. */
    function Slots(): Session
      reads this
    {
      Session(activeColumn, activeTask)
    }

    method CreateNewColumn(freshId: Id)
      modifies this
      ensures columns == AppendColumn(old(columns), freshId)
      ensures tasks == old(tasks) && Slots() == old(Slots())
    {
      columns := AppendColumn(columns, freshId);
    }

    method DeleteColumn(id: Id)
      modifies this
      ensures columns == RemoveColumn(old(columns), id)
      ensures tasks == RemoveColumnTasks(old(tasks), id)
      ensures Slots() == old(Slots())
    {
      columns := RemoveColumn(columns, id);
      tasks := RemoveColumnTasks(tasks, id);
    }

    method UpdateColumn(id: Id, title: string)
      modifies this
      ensures columns == RetitleColumn(old(columns), id, title)
      ensures tasks == old(tasks) && Slots() == old(Slots())
    {
      columns := RetitleColumn(columns, id, title);
    }

    method CreateTask(columnId: Id, freshId: Id)
      modifies this
      ensures tasks == AppendTask(old(tasks), columnId, freshId)
      ensures columns == old(columns) && Slots() == old(Slots())
    {
      tasks := AppendTask(tasks, columnId, freshId);
    }

    method DeleteTask(id: Id)
      modifies this
      ensures tasks == RemoveTask(old(tasks), id)
      ensures columns == old(columns) && Slots() == old(Slots())
    {
      tasks := RemoveTask(tasks, id);
    }

    method UpdateTask(id: Id, content: string)
      modifies this
      ensures tasks == EditTask(old(tasks), id, content)
      ensures columns == old(columns) && Slots() == old(Slots())
    {
      tasks := EditTask(tasks, id, content);
    }

    method OnDragStart(active: Draggable)
      modifies this
      ensures Slots() == DragStart(old(Slots()), active)
      ensures columns == old(columns) && tasks == old(tasks)
    {
      if IsColumn(active) {
        activeColumn := Some(active.data.value.column);
        return;
      }
      if IsTask(active) {
        // the payload's `column` key, absent from a task payload
        activeTask := None;
        return;
      }
    }

    method OnDragEnd(e: DragEvent)
      modifies this
      ensures Slots() == DragEndSession(old(Slots()), e)
      ensures columns == DragEndColumns(old(columns), e)
      ensures tasks == old(tasks)
    {
      activeColumn := None;
      activeTask := None;
      if e.over.None? {
        return;
      }
      var over := e.over.value;
      if e.active.id == over.id {
        return;
      }
      var activeColumnIndex := ColumnIndex(columns, e.active.id);
      var overColumnIndex := ColumnIndex(columns, over.id);
      if 0 <= activeColumnIndex && 0 <= overColumnIndex {
        columns := Move(columns, activeColumnIndex, overColumnIndex);
      }
    }

    method OnDragOver(e: DragEvent)
      modifies this
      ensures tasks == DragOverTasks(old(tasks), e)
      ensures columns == old(columns) && Slots() == old(Slots())
    {
      if e.over.None? {
        return;
      }
      var over := e.over.value;
      if e.active.id == over.id {
        return;
      }
      var isActiveATask := IsTask(e.active);
      var isOverATask := IsTask(over);
      if !isActiveATask {
        return;
      }
      if isActiveATask && isOverATask {
        var activeIndex := TaskIndex(tasks, e.active.id);
        var overIndex := TaskIndex(tasks, over.id);
        if 0 <= activeIndex && 0 <= overIndex {
          tasks := tasks[activeIndex := tasks[activeIndex].(columnID := tasks[overIndex].columnID)];
          tasks := Move(tasks, activeIndex, overIndex);
        }
      }
      var isOverAColumn := IsColumn(over);
      if isActiveATask && isOverAColumn {
        var activeIndex := TaskIndex(tasks, e.active.id);
        if 0 <= activeIndex {
          tasks := tasks[activeIndex := tasks[activeIndex].(columnID := over.id)];
          tasks := Move(tasks, activeIndex, activeIndex);
        }
      }
    }
  }

  // ----- drag properties at the level of events -----

  /** Dragging a task over another task: the dragged task takes the hovered
      task's column and ends at the hovered task's former index; the tasks
      are a permutation of the old ones with only that column changed. */
  lemma DragTaskOverTask(tasks: seq<Task>, e: DragEvent)
    requires IsTask(e.active) && e.over.Some? && IsTask(e.over.value)
    requires e.active.id != e.over.value.id
    requires 0 <= TaskIndex(tasks, e.active.id) && 0 <= TaskIndex(tasks, e.over.value.id)
    ensures
      var a, o := TaskIndex(tasks, e.active.id), TaskIndex(tasks, e.over.value.id);
      var moved := tasks[a].(columnID := tasks[o].columnID);
      var r := DragOverTasks(tasks, e);
      && a != o
      && r[o] == moved
      && multiset(r) == multiset(tasks[a := moved])
      && multiset(TaskIds(r)) == multiset(TaskIds(tasks))
  {
  }

  /** Dragging a task over a column: the dragged task moves to that column
      and keeps its index; every other task is unchanged. */
  lemma DragTaskOverColumn(tasks: seq<Task>, e: DragEvent)
    requires IsTask(e.active) && e.over.Some? && IsColumn(e.over.value)
    requires e.active.id != e.over.value.id
    requires 0 <= TaskIndex(tasks, e.active.id)
    ensures
      var a := TaskIndex(tasks, e.active.id);
      var r := DragOverTasks(tasks, e);
      && |r| == |tasks|
      && r[a] == tasks[a].(columnID := e.over.value.id)
      && forall i :: 0 <= i < |tasks| && i != a ==> r[i] == tasks[i]
  {
  }

  // ----- references from tasks to columns -----

  /** A drag over keeps every task attached to an existing column, provided
      a hovered column is one of the board's columns. */
  lemma DragOverKeepsReferences(cols: seq<Column>, tasks: seq<Task>, e: DragEvent)
    requires TasksReferenceColumns(cols, tasks)
    requires e.over.Some? && IsColumn(e.over.value) ==> e.over.value.id in ColumnIds(cols)
    ensures TasksReferenceColumns(cols, DragOverTasks(tasks, e))
  {
    if e.over.Some? && e.active.id != e.over.value.id && IsTask(e.active) {
      if IsTask(e.over.value) {
        TaskOntoTaskKeepsReferences(cols, tasks, e.active.id, e.over.value.id);
      } else if IsColumn(e.over.value) {
        TaskOntoColumnKeepsReferences(cols, tasks, e.active.id, e.over.value.id);
      }
    }
  }

  /** A task over a task: the dragged task takes a column some task already
      has, and every other task is one of the old tasks. */
  lemma TaskOntoTaskKeepsReferences(cols: seq<Column>, tasks: seq<Task>, activeId: Id, overId: Id)
    requires TasksReferenceColumns(cols, tasks)
    ensures TasksReferenceColumns(cols, TaskOntoTask(tasks, activeId, overId))
  {
    var r := TaskOntoTask(tasks, activeId, overId);
    var a, o := TaskIndex(tasks, activeId), TaskIndex(tasks, overId);
    if 0 <= a && 0 <= o {
      var updated := tasks[a := tasks[a].(columnID := tasks[o].columnID)];
      forall t | t in r
        ensures t.columnID in ColumnIds(cols)
      {
        assert t in multiset(updated);
        var k :| 0 <= k < |updated| && updated[k] == t;
        if k != a {
          assert tasks[k] == t;
        } else {
          assert tasks[o] in tasks;
        }
      }
    }
  }

  /** A task over a column of the board: the dragged task takes that column,
      and every other task is unchanged. */
  lemma TaskOntoColumnKeepsReferences(cols: seq<Column>, tasks: seq<Task>, activeId: Id, columnId: Id)
    requires TasksReferenceColumns(cols, tasks)
    requires columnId in ColumnIds(cols)
    ensures TasksReferenceColumns(cols, TaskOntoColumn(tasks, activeId, columnId))
  {
    var r := TaskOntoColumn(tasks, activeId, columnId);
    var a := TaskIndex(tasks, activeId);
    forall t | t in r
      ensures t.columnID in ColumnIds(cols)
    {
      var k :| 0 <= k < |r| && r[k] == t;
      if k != a {
        assert tasks[k] == t;
      }
    }
  }

  /** A drag end only reorders the columns, so every task stays attached to
      an existing column. */
  lemma DragEndKeepsReferences(cols: seq<Column>, tasks: seq<Task>, e: DragEvent)
    requires TasksReferenceColumns(cols, tasks)
    ensures TasksReferenceColumns(DragEndColumns(cols, e), tasks)
  {
    var r := DragEndColumns(cols, e);
    forall t | t in tasks
      ensures t.columnID in ColumnIds(r)
    {
      var j :| 0 <= j < |cols| && ColumnIds(cols)[j] == t.columnID;
      assert cols[j] in multiset(r);
      var i :| 0 <= i < |r| && r[i] == cols[j];
      assert ColumnIds(r)[i] == t.columnID;
    }
  }

  // ----- worked examples -----

  /** On a fresh board, add columns C1 and C2 and a task T1 in C1; dragging
      T1 over C2 leaves one task, T1, now in C2, with its id and its
      numbered content unchanged. */
  method ScenarioTaskOverColumn(c1: Id, c2: Id, t1: Id) returns (tasks: seq<Task>)
    requires t1 != c2
    ensures tasks == [Task(t1, c2, TaskContent(1))]
  {
    var board := new Board();
    board.CreateNewColumn(c1);
    board.CreateNewColumn(c2);
    board.CreateTask(c1, t1);
    assert board.tasks == [Task(t1, c1, TaskContent(1))];
    var task := board.tasks[0];
    var column := board.columns[1];
    assert column.id == c2;
    board.OnDragOver(DragEvent(Draggable(t1, Some(TaskData(task))), Some(Draggable(c2, Some(ColumnData(column))))));
    tasks := board.tasks;
  }

  /** Columns [C1, C2, C3] with distinct ids; dropping C1 on C3 gives
      [C2, C3, C1]. */
  lemma ScenarioColumnReorder(c1: Column, c2: Column, c3: Column)
    requires c1.id != c2.id && c1.id != c3.id && c2.id != c3.id
    ensures DragEndColumns([c1, c2, c3], DragEvent(Draggable(c1.id, Some(ColumnData(c1))), Some(Draggable(c3.id, Some(ColumnData(c3))))))
            == [c2, c3, c1]
  {
    var cols := [c1, c2, c3];
    assert ColumnIndex(cols, c1.id) == 0;
    assert cols[2].id == c3.id;
    assert ColumnIndex(cols, c3.id) == 2;
    var r := Move(cols, 0, 2);
    assert r[0] == cols[MovedFrom(0, 2, 0)] == c2;
    assert r[1] == cols[MovedFrom(0, 2, 1)] == c3;
    assert r == [c2, c3, c1];
  }

  /** Dropping a column on itself leaves the order unchanged. */
  lemma ScenarioColumnOntoItself(cols: seq<Column>, x: Draggable)
    ensures DragEndColumns(cols, DragEvent(x, Some(x))) == cols
  {
  }

  /** Drag end never checks that a column is being dragged: dropping a task
      on column C2 when the task's id happens to be C1's id swaps C1 and C2
      (ids are random and not unique across kinds). */
  lemma TaskDropMovesColumns(c1: Column, c2: Column, t: Task)
    requires t.id == c1.id && c1.id != c2.id
    ensures DragEndColumns([c1, c2], DragEvent(Draggable(t.id, Some(TaskData(t))), Some(Draggable(c2.id, Some(ColumnData(c2))))))
            == [c2, c1]
  {
    var cols := [c1, c2];
    assert ColumnIndex(cols, c1.id) == 0;
    assert cols[1].id == c2.id;
    assert ColumnIndex(cols, c2.id) == 1;
    var r := Move(cols, 0, 1);
    assert r[0] == cols[MovedFrom(0, 1, 0)] == c2;
    assert r == [c2, c1];
  }
}
