/** The board store: the create, update and delete handlers of the kanban
    board, each a transform of the column list or the task list built from
    append, filter and map. */
module BoardStore {
  import opened Types
  import opened Sequences

  /** The digit character for `d`. */
  function Digit(d: nat): char
    requires d < 10
  {
    ('0' as int + d) as char
  }

  /** The number a string of decimal digits denotes, read most significant
      digit first; an independent reading of what `Decimal` writes. */
  function DecimalValue(s: string): nat
  {
    if s == [] then 0
    else
      var c := s[|s| - 1];
      DecimalValue(s[..|s| - 1]) * 10 + (if '0' <= c <= '9' then c as int - '0' as int else 0)
  }

  /** The decimal digits of `n`, most significant first (a template
      literal's rendering of a non-negative integer). */
  function Decimal(n: nat): (r: string)
    ensures |r| >= 1
    ensures forall c :: c in r ==> '0' <= c <= '9'
    ensures DecimalValue(r) == n
  {
    if n < 10 then [Digit(n)]
    else
      var high := Decimal(n / 10);
      var r := high + [Digit(n % 10)];
      assert r[..|r| - 1] == high;
      r
  }

  /** The default title of the `n`-th column: `Column n`. */
  function ColumnTitle(n: nat): string
  {
    "Column " + Decimal(n)
  }

  /** The default content of the `n`-th task: `New Task #n`. */
  function TaskContent(n: nat): string
  {
    "New Task #" + Decimal(n)
  }

  /** Different counts give different default titles. */
  lemma ColumnTitleInjective(m: nat, n: nat)
    requires ColumnTitle(m) == ColumnTitle(n)
    ensures m == n
  {
    var p := "Column ";
    assert Decimal(m) == ColumnTitle(m)[|p|..];
    assert Decimal(n) == ColumnTitle(n)[|p|..];
  }

  /** Different counts give different default task contents. */
  lemma TaskContentInjective(m: nat, n: nat)
    requires TaskContent(m) == TaskContent(n)
    ensures m == n
  {
    var p := "New Task #";
    assert Decimal(m) == TaskContent(m)[|p|..];
    assert Decimal(n) == TaskContent(n)[|p|..];
  }

  // ----- columns -----

  /** `createNewColumn`: one column appended at the end, with the fresh id
      and the title numbered by the new column count. */
  function AppendColumn(cols: seq<Column>, freshId: Id): (r: seq<Column>)
    ensures |r| == |cols| + 1
    ensures r[..|cols|] == cols
    ensures r[|cols|].id == freshId && r[|cols|].title == ColumnTitle(|r|)
  {
    cols + [Column(freshId, ColumnTitle(|cols| + 1))]
  }

  /** The column half of `deleteColumn`: every column with that id goes,
      every other one stays, in order. */
  function RemoveColumn(cols: seq<Column>, id: Id): (r: seq<Column>)
    ensures forall c :: c in r ==> c.id != id
    ensures forall c :: c in cols && c.id != id ==> c in r
    ensures forall c :: multiset(r)[c] == if c.id == id then 0 else multiset(cols)[c]
    ensures Subsequence(r, cols)
  {
    Filter(cols, (c: Column) => c.id != id)
  }

  /** The cascade half of `deleteColumn`: every task of that column goes,
      every other task stays, in order. */
  function RemoveColumnTasks(tasks: seq<Task>, id: Id): (r: seq<Task>)
    ensures forall t :: t in r ==> t.columnID != id
    ensures forall t :: t in tasks && t.columnID != id ==> t in r
    ensures forall t :: multiset(r)[t] == if t.columnID == id then 0 else multiset(tasks)[t]
    ensures Subsequence(r, tasks)
  {
    Filter(tasks, (t: Task) => t.columnID != id)
  }

  /** `updateColumn`: every column with that id gets the new title; every
      other column, and every id, is left as it was. */
  function RetitleColumn(cols: seq<Column>, id: Id, title: string): (r: seq<Column>)
    ensures |r| == |cols| && ColumnIds(r) == ColumnIds(cols)
    ensures forall i :: 0 <= i < |cols| && cols[i].id == id ==> r[i].title == title
    ensures forall i :: 0 <= i < |cols| && cols[i].id != id ==> r[i] == cols[i]
    ensures id !in ColumnIds(cols) ==> r == cols
  {
    seq(|cols|, i requires 0 <= i < |cols| =>
      if cols[i].id != id then cols[i] else cols[i].(title := title))
  }

  /** Renaming twice with the same title is renaming once. */
  lemma RetitleColumnIdempotent(cols: seq<Column>, id: Id, title: string)
    ensures RetitleColumn(RetitleColumn(cols, id, title), id, title) == RetitleColumn(cols, id, title)
  {
  }

  // ----- tasks -----

  /** `createTask`: one task appended at the end, in the given column, with
      the fresh id and the content numbered by the new task count. */
  function AppendTask(tasks: seq<Task>, columnId: Id, freshId: Id): (r: seq<Task>)
    ensures |r| == |tasks| + 1
    ensures r[..|tasks|] == tasks
    ensures r[|tasks|].id == freshId && r[|tasks|].columnID == columnId
    ensures r[|tasks|].content == TaskContent(|r|)
  {
    tasks + [Task(freshId, columnId, TaskContent(|tasks| + 1))]
  }

  /** `deleteTask`: every task with that id goes, every other one stays,
      in order. */
  function RemoveTask(tasks: seq<Task>, id: Id): (r: seq<Task>)
    ensures forall t :: t in r ==> t.id != id
    ensures forall t :: t in tasks && t.id != id ==> t in r
    ensures forall t :: multiset(r)[t] == if t.id == id then 0 else multiset(tasks)[t]
    ensures Subsequence(r, tasks)
  {
    Filter(tasks, (t: Task) => t.id != id)
  }

  /** `updateTask`: every task with that id gets the new content; ids,
      columns and every other task are left as they were. */
  function EditTask(tasks: seq<Task>, id: Id, content: string): (r: seq<Task>)
    ensures |r| == |tasks| && TaskIds(r) == TaskIds(tasks)
    ensures forall i :: 0 <= i < |tasks| ==> r[i].columnID == tasks[i].columnID
    ensures forall i :: 0 <= i < |tasks| && tasks[i].id == id ==> r[i].content == content
    ensures forall i :: 0 <= i < |tasks| && tasks[i].id != id ==> r[i] == tasks[i]
    ensures id !in TaskIds(tasks) ==> r == tasks
  {
    seq(|tasks|, i requires 0 <= i < |tasks| =>
      if tasks[i].id != id then tasks[i] else tasks[i].(content := content))
  }

  /** Editing twice with the same content is editing once. */
  lemma EditTaskIdempotent(tasks: seq<Task>, id: Id, content: string)
    ensures EditTask(EditTask(tasks, id, content), id, content) == EditTask(tasks, id, content)
  {
  }

  /** Deleting a column, its tasks or a task a second time changes nothing. */
  lemma DeleteIdempotent(cols: seq<Column>, tasks: seq<Task>, id: Id)
    ensures RemoveColumn(RemoveColumn(cols, id), id) == RemoveColumn(cols, id)
    ensures RemoveColumnTasks(RemoveColumnTasks(tasks, id), id) == RemoveColumnTasks(tasks, id)
    ensures RemoveTask(RemoveTask(tasks, id), id) == RemoveTask(tasks, id)
  {
    FilterIdempotent(cols, (c: Column) => c.id != id);
    FilterIdempotent(tasks, (t: Task) => t.columnID != id);
    FilterIdempotent(tasks, (t: Task) => t.id != id);
  }

  // ----- repeated creation -----

  /** Clicking "Add Column" once per fresh id, in order. */
  function AppendColumns(cols: seq<Column>, freshIds: seq<Id>): seq<Column>
    decreases |freshIds|
  {
    if freshIds == [] then cols
    else AppendColumns(AppendColumn(cols, freshIds[0]), freshIds[1..])
  }

  /** After `k` column creations there are `k` more columns; the old ones are
      untouched and the `j`-th new one carries the `j`-th id and the title
      numbered by its position. */
  lemma {:induction false} AppendColumnsCount(cols: seq<Column>, freshIds: seq<Id>)
    ensures |AppendColumns(cols, freshIds)| == |cols| + |freshIds|
    ensures AppendColumns(cols, freshIds)[..|cols|] == cols
    ensures forall j :: 0 <= j < |freshIds| ==>
      AppendColumns(cols, freshIds)[|cols| + j] == Column(freshIds[j], ColumnTitle(|cols| + j + 1))
    decreases |freshIds|
  {
    if freshIds != [] {
      var next := AppendColumn(cols, freshIds[0]);
      AppendColumnsCount(next, freshIds[1..]);
      var r := AppendColumns(cols, freshIds);
      assert r[..|cols|] == next[..|next|][..|cols|];
      forall j | 0 <= j < |freshIds|
        ensures r[|cols| + j] == Column(freshIds[j], ColumnTitle(|cols| + j + 1))
      {
        if j == 0 {
          assert r[|cols|] == r[..|next|][|cols|] == next[|cols|];
        } else {
          assert r[|next| + (j - 1)] == Column(freshIds[1..][j - 1], ColumnTitle(|next| + (j - 1) + 1));
        }
      }
    }
  }

  /** A request to add a task: the column it goes to and its fresh id. */
  datatype TaskRequest = TaskRequest(columnId: Id, freshId: Id)

  /** Clicking "Add task" once per request, in order. */
  function AppendTasks(tasks: seq<Task>, requests: seq<TaskRequest>): seq<Task>
    decreases |requests|
  {
    if requests == [] then tasks
    else AppendTasks(AppendTask(tasks, requests[0].columnId, requests[0].freshId), requests[1..])
  }

  /** After `k` task creations there are `k` more tasks; the old ones are
      untouched and the `j`-th new one is the `j`-th request's task with the
      content numbered by its position. */
  lemma {:induction false} AppendTasksCount(tasks: seq<Task>, requests: seq<TaskRequest>)
    ensures |AppendTasks(tasks, requests)| == |tasks| + |requests|
    ensures AppendTasks(tasks, requests)[..|tasks|] == tasks
    ensures forall j :: 0 <= j < |requests| ==>
      AppendTasks(tasks, requests)[|tasks| + j]
        == Task(requests[j].freshId, requests[j].columnId, TaskContent(|tasks| + j + 1))
    decreases |requests|
  {
    if requests != [] {
      var next := AppendTask(tasks, requests[0].columnId, requests[0].freshId);
      AppendTasksCount(next, requests[1..]);
      var r := AppendTasks(tasks, requests);
      assert r[..|tasks|] == next[..|next|][..|tasks|];
      forall j | 0 <= j < |requests|
        ensures r[|tasks| + j] == Task(requests[j].freshId, requests[j].columnId, TaskContent(|tasks| + j + 1))
      {
        if j == 0 {
          assert r[|tasks|] == r[..|next|][|tasks|] == next[|tasks|];
        } else {
          assert r[|next| + (j - 1)]
            == Task(requests[1..][j - 1].freshId, requests[1..][j - 1].columnId, TaskContent(|next| + (j - 1) + 1));
        }
      }
    }
  }

  // ----- referential integrity -----

  /** Every task's column exists. The board keeps this only through the
      cascade in `deleteColumn`; nothing else checks it. */
  ghost predicate TasksReferenceColumns(cols: seq<Column>, tasks: seq<Task>)
  {
    forall t :: t in tasks ==> t.columnID in ColumnIds(cols)
  }

  /** Deleting a column, with its cascade, keeps every task attached to an
      existing column. */
  lemma DeleteColumnKeepsReferences(cols: seq<Column>, tasks: seq<Task>, id: Id)
    requires TasksReferenceColumns(cols, tasks)
    ensures TasksReferenceColumns(RemoveColumn(cols, id), RemoveColumnTasks(tasks, id))
  {
  }

  /** Deleting only the column, without the cascade, can leave a task
      pointing at a column that no longer exists. */
  lemma DeleteWithoutCascadeBreaksReferences(c: Column, t: Task)
    requires t.columnID == c.id
    ensures TasksReferenceColumns([c], [t])
    ensures !TasksReferenceColumns(RemoveColumn([c], c.id), [t])
  {
    assert ColumnIds([c])[0] == t.columnID;
    assert RemoveColumn([c], c.id) == [];
  }

  /** Adding or renaming a column, and deleting or editing a task, keep
      every task attached to an existing column; adding a task does when
      its column exists. */
  lemma StoreOperationsKeepReferences(cols: seq<Column>, tasks: seq<Task>, id: Id, freshId: Id, text: string)
    requires TasksReferenceColumns(cols, tasks)
    ensures TasksReferenceColumns(AppendColumn(cols, freshId), tasks)
    ensures TasksReferenceColumns(RetitleColumn(cols, id, text), tasks)
    ensures TasksReferenceColumns(cols, RemoveTask(tasks, id))
    ensures TasksReferenceColumns(cols, EditTask(tasks, id, text))
    ensures id in ColumnIds(cols) ==> TasksReferenceColumns(cols, AppendTask(tasks, id, freshId))
  {
  }
}
