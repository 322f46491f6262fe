/** The drag session of the kanban board: drag events with their tagged
    payloads, and what drag start, drag over and drag end do to the active
    entity slots, the task order and the column order. */
module DragAndDrop {
  import opened Types
  import opened Sequences

  /** The payload a sortable item carries: `{type: "Column", column}` or
      `{type: "Task", task}`. */
  datatype DragData = ColumnData(column: Column) | TaskData(task: Task)

  /** A dragged or hovered item: its sortable id and its payload, which may
      be missing. */
  datatype Draggable = Draggable(id: Id, data: Option<DragData>)

  /** A drag-over or drag-end event: the dragged item and the item under the
      pointer, if any. */
  datatype DragEvent = DragEvent(active: Draggable, over: Option<Draggable>)

  /** The two "active entity" slots that feed the drag overlay. */
  datatype Session = Session(activeColumn: Option<Column>, activeTask: Option<Task>)

  /** `data.current?.type === "Task"`. */
  predicate IsTask(d: Draggable)
  {
    d.data.Some? && d.data.value.TaskData?
  }

  /** `data.current?.type === "Column"`. */
  predicate IsColumn(d: Draggable)
  {
    d.data.Some? && d.data.value.ColumnData?
  }

  /** The first position of the task with that id, or -1. */
  function TaskIndex(tasks: seq<Task>, id: Id): (r: int)
    ensures -1 <= r < |tasks|
    ensures r == -1 <==> forall i :: 0 <= i < |tasks| ==> tasks[i].id != id
    ensures 0 <= r ==> tasks[r].id == id && forall j :: 0 <= j < r ==> tasks[j].id != id
  {
    var r := FirstIndex(TaskIds(tasks), id);
    assert r == -1 ==> forall i :: 0 <= i < |tasks| ==> TaskIds(tasks)[i] != id;
    r
  }

  /** The first position of the column with that id, or -1. */
  function ColumnIndex(cols: seq<Column>, id: Id): (r: int)
    ensures -1 <= r < |cols|
    ensures r == -1 <==> forall i :: 0 <= i < |cols| ==> cols[i].id != id
    ensures 0 <= r ==> cols[r].id == id && forall j :: 0 <= j < r ==> cols[j].id != id
  {
    var r := FirstIndex(ColumnIds(cols), id);
    assert r == -1 ==> forall i :: 0 <= i < |cols| ==> ColumnIds(cols)[i] != id;
    r
  }

  // ----- drag start -----

  /** `onDragStart` as written. A column payload fills `activeColumn`. A task
      payload fills `activeTask` with the payload's `column` key, which a
      task payload does not have, so `activeTask` ends up empty. Neither
      branch clears the other slot; a missing payload changes nothing. */
  function DragStart(s: Session, active: Draggable): (r: Session)
    ensures IsColumn(active) ==> r == s.(activeColumn := Some(active.data.value.column))
    ensures IsTask(active) ==> r == s.(activeTask := None)
    ensures !IsColumn(active) && !IsTask(active) ==> r == s
  {
    match active.data
    case Some(ColumnData(c)) => s.(activeColumn := Some(c))
    case Some(TaskData(_)) => s.(activeTask := None)
    case None => s
  }

  /** `onDragEnd` on the slots: both are cleared, whatever the event. */
  function DragEndSession(s: Session, e: DragEvent): (r: Session)
    ensures r.activeColumn.None? && r.activeTask.None?
  {
    Session(None, None)
  }

  // ----- drag over -----

  /** Scenario 1 of `onDragOver`, a task over a task: the dragged task takes
      the hovered task's column, then moves to the hovered task's index. The
      result is a permutation of the tasks with that one column changed.
      When either id is missing the tasks are left as they are. */
  function TaskOntoTask(tasks: seq<Task>, activeId: Id, overId: Id): (r: seq<Task>)
    ensures |r| == |tasks|
    ensures TaskIndex(tasks, activeId) < 0 || TaskIndex(tasks, overId) < 0 ==> r == tasks
    ensures 0 <= TaskIndex(tasks, activeId) && 0 <= TaskIndex(tasks, overId) ==>
      var a, o := TaskIndex(tasks, activeId), TaskIndex(tasks, overId);
      var moved := tasks[a].(columnID := tasks[o].columnID);
      && r[o] == moved
      && multiset(r) == multiset(tasks[a := moved])
      && multiset(TaskIds(r)) == multiset(TaskIds(tasks))
      && (forall i :: 0 <= i < |tasks| && i != o ==>
            MovedFrom(a, o, i) != a && r[i] == tasks[MovedFrom(a, o, i)])
  {
    var a := TaskIndex(tasks, activeId);
    var o := TaskIndex(tasks, overId);
    if a < 0 || o < 0 then tasks
    else
      var updated := tasks[a := tasks[a].(columnID := tasks[o].columnID)];
      TaskOntoTaskFacts(tasks, a, o, updated);
      Move(updated, a, o)
  }

  /** The facts `TaskOntoTask` promises, once both indices are found. */
  lemma TaskOntoTaskFacts(tasks: seq<Task>, a: nat, o: nat, updated: seq<Task>)
    requires a < |tasks| && o < |tasks|
    requires updated == tasks[a := tasks[a].(columnID := tasks[o].columnID)]
    ensures multiset(TaskIds(Move(updated, a, o))) == multiset(TaskIds(tasks))
    ensures forall i :: 0 <= i < |tasks| && i != o ==>
      MovedFrom(a, o, i) != a && Move(updated, a, o)[i] == tasks[MovedFrom(a, o, i)]
  {
    var r := Move(updated, a, o);
    forall i | 0 <= i < |tasks| && i != o
      ensures MovedFrom(a, o, i) != a && r[i] == tasks[MovedFrom(a, o, i)]
    {
      MoveOthers(updated, a, o, i);
    }
    assert TaskIds(updated) == TaskIds(tasks);
    var ids := Move(TaskIds(updated), a, o);
    assert TaskIds(r) == ids;
  }

  /** Scenario 2 of `onDragOver`, a task over a column: only the dragged
      task's column changes, to the hovered column's id; the task order is
      kept, since the move is from an index to itself. When the dragged id
      is missing the tasks are left as they are. */
  function TaskOntoColumn(tasks: seq<Task>, activeId: Id, columnId: Id): (r: seq<Task>)
    ensures |r| == |tasks| && TaskIds(r) == TaskIds(tasks)
    ensures TaskIndex(tasks, activeId) < 0 ==> r == tasks
    ensures 0 <= TaskIndex(tasks, activeId) ==>
      var a := TaskIndex(tasks, activeId);
      && r[a].columnID == columnId && r[a].content == tasks[a].content
      && (forall i :: 0 <= i < |tasks| && i != a ==> r[i] == tasks[i])
  {
    var a := TaskIndex(tasks, activeId);
    if a < 0 then tasks
    else
      var updated := tasks[a := tasks[a].(columnID := columnId)];
      MoveInPlace(updated, a);
      Move(updated, a, a)
  }

  /** `onDragOver`: only a dragged task over a different item does anything;
      a task over a task is scenario 1, a task over a column scenario 2. */
  function DragOverTasks(tasks: seq<Task>, e: DragEvent): (r: seq<Task>)
    ensures |r| == |tasks|
    ensures e.over.None? || e.active.id == e.over.value.id || !IsTask(e.active) ==> r == tasks
    ensures e.over.Some? && !IsTask(e.over.value) && !IsColumn(e.over.value) ==> r == tasks
  {
    match e.over
    case None => tasks
    case Some(over) =>
      if e.active.id == over.id then tasks
      else if !IsTask(e.active) then tasks
      else if IsTask(over) then TaskOntoTask(tasks, e.active.id, over.id)
      else if IsColumn(over) then TaskOntoColumn(tasks, e.active.id, over.id)
      else tasks
  }

  // ----- drag end -----

  /** `onDragEnd` on the columns: with a target of another id, the column
      with the dragged id moves to the index of the column with the target
      id, keeping the same columns; with no target, the same id, or an id
      no column has, the columns stay. The payload's kind is never looked
      at. */
  function DragEndColumns(cols: seq<Column>, e: DragEvent): (r: seq<Column>)
    ensures |r| == |cols| && multiset(r) == multiset(cols)
    ensures e.over.None? || e.active.id == e.over.value.id ==> r == cols
    ensures e.over.Some? && (ColumnIndex(cols, e.active.id) < 0 || ColumnIndex(cols, e.over.value.id) < 0) ==> r == cols
    ensures e.over.Some? && e.active.id != e.over.value.id
            && 0 <= ColumnIndex(cols, e.active.id) && 0 <= ColumnIndex(cols, e.over.value.id) ==>
      var a, o := ColumnIndex(cols, e.active.id), ColumnIndex(cols, e.over.value.id);
      && r[o] == cols[a]
      && forall i :: 0 <= i < |cols| && i != o ==> MovedFrom(a, o, i) != a && r[i] == cols[MovedFrom(a, o, i)]
  {
    match e.over
    case None => cols
    case Some(over) =>
      if e.active.id == over.id then cols
      else
        var a := ColumnIndex(cols, e.active.id);
        var o := ColumnIndex(cols, over.id);
        if a < 0 || o < 0 then cols
        else
          var r := Move(cols, a, o);
          forall i | 0 <= i < |cols| && i != o
            ensures MovedFrom(a, o, i) != a && r[i] == cols[MovedFrom(a, o, i)]
          {
            MoveOthers(cols, a, o, i);
          }
          r
  }

  /** Drag end reorders columns by ids alone: dropping a dragged task whose
      id some column also has moves that column exactly as dragging the
      column would. */
  lemma DragEndIgnoresPayload(cols: seq<Column>, active: Draggable, over: Option<Draggable>, data: Option<DragData>)
    ensures DragEndColumns(cols, DragEvent(active, over)) == DragEndColumns(cols, DragEvent(active.(data := data), over))
  {
  }

  // ----- the drag session over time -----

  /** One event of a drag session. */
  datatype DragStep = Start(active: Draggable) | Over(event: DragEvent) | End(event: DragEvent)

  /** The active slots after a series of drag events. */
  function ReplaySession(s: Session, steps: seq<DragStep>): Session
    decreases |steps|
  {
    if steps == [] then s
    else
      var next := match steps[0]
        case Start(active) => DragStart(s, active)
        case Over(_) => s
        case End(e) => DragEndSession(s, e);
      ReplaySession(next, steps[1..])
  }

  /** Because drag start stores a task payload's missing `column` key,
      `activeTask` is never filled: from an empty slot it stays empty over
      any series of drag events, so no task is ever shown in the overlay. */
  lemma {:induction false} ActiveTaskStaysEmpty(s: Session, steps: seq<DragStep>)
    requires s.activeTask.None?
    ensures ReplaySession(s, steps).activeTask.None?
    decreases |steps|
  {
    if steps != [] {
      var next := match steps[0]
        case Start(active) => DragStart(s, active)
        case Over(_) => s
        case End(e) => DragEndSession(s, e);
      ActiveTaskStaysEmpty(next, steps[1..]);
    }
  }

  /** From a cleared session, at most one slot is ever filled. */
  lemma {:induction false} AtMostOneActive(s: Session, steps: seq<DragStep>)
    requires s.activeTask.None?
    ensures !(ReplaySession(s, steps).activeColumn.Some? && ReplaySession(s, steps).activeTask.Some?)
  {
    ActiveTaskStaysEmpty(s, steps);
  }
}
