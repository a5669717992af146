/** The shared entities of the board: tasks, columns, the board itself and the view filters. */
module Types {

  datatype Option<+T> = None | Some(value: T)

  /** Returns the value held in `o`, or `default` when there is none. */
  function GetOr<T>(o: Option<T>, default: T): T
  {
    match o
    case Some(v) => v
    case None => default
  }

  datatype Priority = High | Medium | Low

  /** The three fixed pipeline stages; each one names exactly one column. */
  datatype TaskStatus = Todo | InProgress | Done

  type TaskId = string

  /** A point in time in milliseconds since the epoch; the model compares dates only for equality. */
  type Date = int

  /** `deadline` is the only optional field of a task. */
  datatype Task = Task(
    id: TaskId,
    title: string,
    description: string,
    priority: Priority,
    status: TaskStatus,
    deadline: Option<Date>,
    createdAt: Date,
    updatedAt: Date)

  datatype Column = Column(id: TaskStatus, title: string, taskIds: seq<TaskId>)

  /** The columns of a board, one per status, so that looking up the column of a status never fails. */
  datatype Columns = Columns(todo: Column, inProgress: Column, done: Column)
  {
    function Get(s: TaskStatus): Column
    {
      match s
      case Todo => todo
      case InProgress => inProgress
      case Done => done
    }

    /** The record with the column of `s` replaced by `c` (`{...columns, [s]: c}`). */
    function With(s: TaskStatus, c: Column): (r: Columns)
      ensures r.Get(s) == c
      ensures forall t :: t != s ==> r.Get(t) == Get(t)
    {
      match s
      case Todo => this.(todo := c)
      case InProgress => this.(inProgress := c)
      case Done => this.(done := c)
    }
  }

  datatype Board = Board(tasks: map<TaskId, Task>, columns: Columns, columnOrder: seq<TaskStatus>)

  /** The priority filter is a priority or `'all'`. */
  datatype PriorityFilter = All | Only(priority: Priority)

  datatype Filters = Filters(priority: PriorityFilter, search: string)
}
