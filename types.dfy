/** The board's entities: identifiers, columns and tasks. */
module Types {

  /** An identifier of a column or a task. Identifiers are compared for
      equality and never interpreted; nothing makes them unique. */
  type Id(==, !new)

  datatype Option<+T> = None | Some(value: T)

  /** A column: a named bucket of tasks, shown in board order. */
  datatype Column = Column(id: Id, title: string)

  /** A task, attached to a column through `columnID`. */
  datatype Task = Task(id: Id, columnID: Id, content: string)

  /** The ids of the columns, in board order (the `columnsId` list). */
  function ColumnIds(cols: seq<Column>): (ids: seq<Id>)
    ensures |ids| == |cols|
    ensures forall i :: 0 <= i < |cols| ==> ids[i] == cols[i].id
  {
    seq(|cols|, i requires 0 <= i < |cols| => cols[i].id)
  }

  /** The ids of the tasks, in task order. */
  function TaskIds(tasks: seq<Task>): (ids: seq<Id>)
    ensures |ids| == |tasks|
    ensures forall i :: 0 <= i < |tasks| ==> ids[i] == tasks[i].id
  {
    seq(|tasks|, i requires 0 <= i < |tasks| => tasks[i].id)
  }
}
