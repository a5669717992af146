/**
 * The board transitions of the task store: each function computes the board
 * that the corresponding store action writes back, for every board (the
 * invariant is not assumed), and the lemmas show that every action keeps the
 * board invariant and does what the store promises.
 */
module BoardOps {
  import opened Types
  import opened JsArray

  /** The data of a new task, without the fields the store fills in (`Omit<Task, 'id' | 'createdAt' | 'updatedAt'>`). */
  datatype TaskData = TaskData(
    title: string,
    description: string,
    priority: Priority,
    status: TaskStatus,
    deadline: Option<Date>)

  /**
   * The keys a partial update may carry. `None` is an absent key; for the
   * deadline, `Some(None)` is a key that is present with value `undefined`,
   * which clears the deadline.
   */
  datatype TaskUpdate = TaskUpdate(
    title: Option<string>,
    description: Option<string>,
    priority: Option<Priority>,
    status: Option<TaskStatus>,
    deadline: Option<Option<Date>>)

  /** The ids listed in the column of status `s`. */
  function Ids(b: Board, s: TaskStatus): seq<TaskId>
  {
    b.columns.Get(s).taskIds
  }

  /**
   * The board invariant: each column is keyed by its own status and lists no
   * id twice; every listed id is a task whose status is that column's; every
   * task is stored under its own id and listed in the column of its status.
   */
  ghost predicate Valid(b: Board)
  {
    && (forall s: TaskStatus :: b.columns.Get(s).id == s)
    && (forall s: TaskStatus :: NoDup(b.columns.Get(s).taskIds))
    && (forall s: TaskStatus, id :: id in b.columns.Get(s).taskIds ==> id in b.tasks && b.tasks[id].status == s)
    && (forall id :: id in b.tasks ==> b.tasks[id].id == id && id in b.columns.Get(b.tasks[id].status).taskIds)
  }

  /** On a valid board a task is listed in exactly one column, that of its status, and there exactly once. */
  lemma ExactlyOneColumn(b: Board, id: TaskId, s: TaskStatus)
    requires Valid(b) && id in b.tasks
    ensures id in Ids(b, s) <==> s == b.tasks[id].status
    ensures multiset(Ids(b, b.tasks[id].status))[id] == 1
  {
    var ids := Ids(b, b.tasks[id].status);
    var p := IndexOf(ids, id);
    assert ids == ids[..p] + [id] + ids[p + 1..];
    NoDupAfter(ids, p);
    assert multiset(ids)[id] == multiset(ids[..p])[id] + multiset([id])[id] + multiset(ids[p + 1..])[id];
  }

  // ---------------------------------------------------------------- the initial board

  const DayMs := 86_400_000
  const Jan1st2024 := 1_704_067_200_000

  function InitialTasks(): map<TaskId, Task>
  {
    map[
      "1" := Task("1", "Design new landing page",
                  "Create a modern and responsive landing page for the product",
                  High, Todo, Some(Jan1st2024 + 14 * DayMs), Jan1st2024, Jan1st2024),
      "2" := Task("2", "Implement user authentication",
                  "Add login and signup functionality with JWT tokens",
                  High, InProgress, Some(Jan1st2024 + 19 * DayMs), Jan1st2024 + DayMs, Jan1st2024 + DayMs),
      "3" := Task("3", "Write unit tests",
                  "Add comprehensive test coverage for all components",
                  Medium, Todo, None, Jan1st2024 + 2 * DayMs, Jan1st2024 + 2 * DayMs),
      "4" := Task("4", "Setup CI/CD pipeline",
                  "Configure automated testing and deployment",
                  Low, Done, None, Jan1st2024 - 4 * DayMs, Jan1st2024)
    ]
  }

  function InitialColumns(): Columns
  {
    Columns(
      Column(Todo, "To Do", ["1", "3"]),
      Column(InProgress, "In Progress", ["2"]),
      Column(Done, "Done", ["4"]))
  }

  const StatusOrder: seq<TaskStatus> := [Todo, InProgress, Done]

  function InitialBoard(): Board
  {
    Board(InitialTasks(), InitialColumns(), StatusOrder)
  }

  /** Every id the seeded columns list is a seeded task of that column's status. */
  lemma InitialListedAreTasks(s: TaskStatus, id: TaskId)
    requires id in InitialColumns().Get(s).taskIds
    ensures id in InitialTasks() && InitialTasks()[id].status == s
  {
  }

  /** Every seeded task is stored under its id and listed in the column of its status. */
  lemma InitialTasksListed(id: TaskId)
    requires id in InitialTasks()
    ensures InitialTasks()[id].id == id
    ensures id in InitialColumns().Get(InitialTasks()[id].status).taskIds
  {
  }

  /** No seeded column lists an id twice. */
  lemma InitialNoDup()
    ensures forall s: TaskStatus :: NoDup(InitialColumns().Get(s).taskIds)
  {
  }

  /** The seeded board satisfies the invariant: tasks 1 and 3 wait in To Do, 2 is in progress, 4 is done. */
  lemma InitialBoardValid()
    ensures Valid(InitialBoard())
    ensures var b := InitialBoard();
      && b.tasks.Keys == {"1", "2", "3", "4"}
      && Ids(b, Todo) == ["1", "3"] && Ids(b, InProgress) == ["2"] && Ids(b, Done) == ["4"]
  {
    var b := InitialBoard();
    InitialNoDup();
    forall s: TaskStatus, id | id in b.columns.Get(s).taskIds
      ensures id in b.tasks && b.tasks[id].status == s
    {
      InitialListedAreTasks(s, id);
    }
    forall id | id in b.tasks
      ensures b.tasks[id].id == id && id in b.columns.Get(b.tasks[id].status).taskIds
    {
      InitialTasksListed(id);
    }
  }

  // ---------------------------------------------------------------- addTask

  /** The task `addTask` builds from the caller's data, the new id and the current time. */
  function NewTask(data: TaskData, id: TaskId, now: Date): (t: Task)
    ensures t.id == id && t.createdAt == now && t.updatedAt == now
    ensures t.title == data.title && t.description == data.description && t.priority == data.priority
    ensures t.status == data.status && t.deadline == data.deadline
  {
    Task(id, data.title, data.description, data.priority, data.status, data.deadline, now, now)
  }

  /** `addTask`: store the new task and append its id to the end of the column of its status. */
  function AddTask(b: Board, data: TaskData, id: TaskId, now: Date): (r: Board)
    ensures r.tasks.Keys == b.tasks.Keys + {id}
    ensures r.tasks[id] == NewTask(data, id, now)
    ensures forall k :: k in b.tasks && k != id ==> r.tasks[k] == b.tasks[k]
    ensures Ids(r, data.status) == Ids(b, data.status) + [id]
    ensures r.columns.Get(data.status).id == b.columns.Get(data.status).id
    ensures r.columns.Get(data.status).title == b.columns.Get(data.status).title
    ensures forall s :: s != data.status ==> r.columns.Get(s) == b.columns.Get(s)
    ensures r.columnOrder == b.columnOrder
  {
    var task := NewTask(data, id, now);
    var column := b.columns.Get(task.status);
    b.(tasks := b.tasks[id := task],
       columns := b.columns.With(task.status, column.(taskIds := column.taskIds + [id])))
  }

  /** Adding a task under a fresh id keeps the board valid. */
  lemma AddTaskPreservesValid(b: Board, data: TaskData, id: TaskId, now: Date)
    requires Valid(b) && id !in b.tasks
    ensures Valid(AddTask(b, data, id, now))
  {
    var r := AddTask(b, data, id, now);
    assert id !in Ids(b, data.status);
    AppendNoDup(Ids(b, data.status), id);
    forall s: TaskStatus ensures NoDup(r.columns.Get(s).taskIds) {
      if s != data.status {
        assert r.columns.Get(s) == b.columns.Get(s);
      }
    }
  }

  /** Deleting a task just added under a fresh id gives back the board as it was. */
  lemma DeleteUndoesAdd(b: Board, data: TaskData, id: TaskId, now: Date)
    requires Valid(b) && id !in b.tasks
    ensures DeleteTask(AddTask(b, data, id, now), id) == b
  {
    assert id !in Ids(b, data.status);
    DeleteUndoesAppend(b, data, id, now);
  }

  /** The step of `DeleteUndoesAdd` that needs only the id to be absent from the board and from its column. */
  lemma DeleteUndoesAppend(b: Board, data: TaskData, id: TaskId, now: Date)
    requires id !in b.tasks && id !in Ids(b, data.status)
    ensures DeleteTask(AddTask(b, data, id, now), id) == b
  {
    var d := DeleteTask(AddTask(b, data, id, now), id);
    WithoutAppended(Ids(b, data.status), id);
    assert d.tasks == b.tasks;
    forall s: TaskStatus ensures d.columns.Get(s) == b.columns.Get(s) {
    }
    SameColumns(d.columns, b.columns);
  }

  /** Two column records that agree on every status are equal. */
  lemma SameColumns(c: Columns, e: Columns)
    requires forall s: TaskStatus :: c.Get(s) == e.Get(s)
    ensures c == e
  {
    assert c.Get(Todo) == e.Get(Todo) && c.Get(InProgress) == e.Get(InProgress) && c.Get(Done) == e.Get(Done);
  }

  /** A board with its three columns and no tasks. */
  function EmptyBoard(): Board
  {
    Board(map[],
          Columns(Column(Todo, "To Do", []), Column(InProgress, "In Progress", []), Column(Done, "Done", [])),
          StatusOrder)
  }

  /** From an empty board, adding a To Do task and then updating its status to Done leaves it alone in Done. */
  lemma AddThenMoveByUpdate(id: TaskId, data: TaskData, t0: Date, t1: Date)
    requires data.status == Todo
    ensures var b := UpdateTask(AddTask(EmptyBoard(), data, id, t0), id, TaskUpdate(None, None, None, Some(Done), None), t1);
      && Valid(b) && b.tasks.Keys == {id} && b.tasks[id].status == Done
      && Ids(b, Todo) == [] && Ids(b, InProgress) == [] && Ids(b, Done) == [id]
  {
  }

  // ---------------------------------------------------------------- updateTask

  /** `{...task, ...updates}`: every key present in the update overwrites the task's field; the others stay. */
  function Merge(t: Task, u: TaskUpdate): (m: Task)
    ensures m.id == t.id && m.createdAt == t.createdAt && m.updatedAt == t.updatedAt
    ensures u.title.None? ==> m.title == t.title
    ensures u.title.Some? ==> m.title == u.title.value
    ensures u.description.None? ==> m.description == t.description
    ensures u.description.Some? ==> m.description == u.description.value
    ensures u.priority.None? ==> m.priority == t.priority
    ensures u.priority.Some? ==> m.priority == u.priority.value
    ensures u.status.None? ==> m.status == t.status
    ensures u.status.Some? ==> m.status == u.status.value
    ensures u.deadline.None? ==> m.deadline == t.deadline
    ensures u.deadline.Some? ==> m.deadline == u.deadline.value
  {
    t.(title := GetOr(u.title, t.title),
       description := GetOr(u.description, t.description),
       priority := GetOr(u.priority, t.priority),
       status := GetOr(u.status, t.status),
       deadline := GetOr(u.deadline, t.deadline))
  }

  /** Whether `updateTask(id, u)` moves the task to another column. */
  predicate ChangesStatus(b: Board, id: TaskId, u: TaskUpdate)
  {
    id in b.tasks && u.status.Some? && u.status.value != b.tasks[id].status
  }

  /**
   * `updateTask`: nothing happens for an unknown id; otherwise the update is
   * merged into the task, `updatedAt` becomes `now`, and a changed status
   * removes the id from the old column's list and appends it to the new one.
   */
  function UpdateTask(b: Board, id: TaskId, u: TaskUpdate, now: Date): (r: Board)
    ensures id !in b.tasks ==> r == b
    ensures r.tasks.Keys == b.tasks.Keys
    ensures id in b.tasks ==> r.tasks[id] == Merge(b.tasks[id], u).(updatedAt := now)
    ensures forall k :: k in b.tasks && k != id ==> r.tasks[k] == b.tasks[k]
    ensures !ChangesStatus(b, id, u) ==> r.columns == b.columns
    ensures ChangesStatus(b, id, u) ==>
      var from, to := b.tasks[id].status, u.status.value;
      && Ids(r, from) == Without(Ids(b, from), id)
      && Ids(r, to) == Ids(b, to) + [id]
      && r.columns.Get(from).id == b.columns.Get(from).id
      && r.columns.Get(to).id == b.columns.Get(to).id
      && (forall s :: s != from && s != to ==> r.columns.Get(s) == b.columns.Get(s))
    ensures forall s :: r.columns.Get(s).id == b.columns.Get(s).id && r.columns.Get(s).title == b.columns.Get(s).title
    ensures r.columnOrder == b.columnOrder
  {
    if id !in b.tasks then b
    else
      var current := b.tasks[id];
      var updated := Merge(current, u).(updatedAt := now);
      if u.status.Some? && u.status.value != current.status then
        var oldColumn := b.columns.Get(current.status);
        var newColumn := b.columns.Get(u.status.value);
        b.(tasks := b.tasks[id := updated],
           columns := b.columns
             .With(current.status, oldColumn.(taskIds := Without(oldColumn.taskIds, id)))
             .With(u.status.value, newColumn.(taskIds := newColumn.taskIds + [id])))
      else
        b.(tasks := b.tasks[id := updated])
  }

  /** Updating keeps the board valid, whether or not the status changes. */
  lemma UpdateTaskPreservesValid(b: Board, id: TaskId, u: TaskUpdate, now: Date)
    requires Valid(b)
    ensures Valid(UpdateTask(b, id, u, now))
  {
    if ChangesStatus(b, id, u) {
      var r := UpdateTask(b, id, u, now);
      var from, to := b.tasks[id].status, u.status.value;
      assert id !in Ids(b, to);
      WithoutNoDup(Ids(b, from), id);
      AppendNoDup(Ids(b, to), id);
      forall s: TaskStatus ensures NoDup(r.columns.Get(s).taskIds) {
        if s != from && s != to {
          assert r.columns.Get(s) == b.columns.Get(s);
        }
      }
    }
  }

  // ---------------------------------------------------------------- deleteTask

  /** `deleteTask`: nothing happens for an unknown id; otherwise the task and its id in its own column go. */
  function DeleteTask(b: Board, id: TaskId): (r: Board)
    ensures id !in b.tasks ==> r == b
    ensures r.tasks.Keys == b.tasks.Keys - {id}
    ensures forall k :: k in r.tasks ==> r.tasks[k] == b.tasks[k]
    ensures id in b.tasks ==>
      var s := b.tasks[id].status;
      && Ids(r, s) == Without(Ids(b, s), id)
      && r.columns.Get(s).id == b.columns.Get(s).id
      && r.columns.Get(s).title == b.columns.Get(s).title
      && (forall t :: t != s ==> r.columns.Get(t) == b.columns.Get(t))
    ensures r.columnOrder == b.columnOrder
  {
    if id !in b.tasks then b
    else
      var task := b.tasks[id];
      var column := b.columns.Get(task.status);
      b.(tasks := b.tasks - {id},
         columns := b.columns.With(task.status, column.(taskIds := Without(column.taskIds, id))))
  }

  /** Deleting keeps the board valid, and the id is then listed nowhere. */
  lemma DeleteTaskPreservesValid(b: Board, id: TaskId)
    requires Valid(b)
    ensures Valid(DeleteTask(b, id))
    ensures forall s :: id !in Ids(DeleteTask(b, id), s)
  {
    if id in b.tasks {
      var r := DeleteTask(b, id);
      var s := b.tasks[id].status;
      WithoutNoDup(Ids(b, s), id);
      forall t: TaskStatus ensures NoDup(r.columns.Get(t).taskIds) && id !in r.columns.Get(t).taskIds {
        if t != s {
          assert r.columns.Get(t) == b.columns.Get(t);
        }
      }
    }
  }

  // ---------------------------------------------------------------- moveTask

  /**
   * `moveTask`, step by step as the store does it: filter the id out of its
   * old column; copy the new column, and when it is the same column delete the
   * id at its `indexOf` position; `splice` the id in at `newIndex`; write the
   * old column first and the new one second, so that within one column the
   * second write is the one that stays.
   */
  function MoveTask(b: Board, taskId: TaskId, newStatus: TaskStatus, newIndex: int, now: Date): (r: Board)
    ensures taskId !in b.tasks ==> r == b
    ensures r.tasks.Keys == b.tasks.Keys
    ensures taskId in b.tasks ==> r.tasks[taskId] == b.tasks[taskId].(status := newStatus, updatedAt := now)
    ensures forall k :: k in b.tasks && k != taskId ==> r.tasks[k] == b.tasks[k]
    ensures forall s :: r.columns.Get(s).id == b.columns.Get(s).id && r.columns.Get(s).title == b.columns.Get(s).title
    ensures r.columnOrder == b.columnOrder
  {
    if taskId !in b.tasks then b
    else
      var task := b.tasks[taskId];
      var oldColumn := b.columns.Get(task.status);
      var newColumn := b.columns.Get(newStatus);
      var oldTaskIds := Without(oldColumn.taskIds, taskId);
      var copied :=
        if newStatus == task.status then SpliceRemoveOne(newColumn.taskIds, IndexOf(newColumn.taskIds, taskId))
        else newColumn.taskIds;
      var newTaskIds := SpliceInsert(copied, newIndex, taskId);
      b.(tasks := b.tasks[taskId := task.(status := newStatus, updatedAt := now)],
         columns := b.columns
           .With(task.status, oldColumn.(taskIds := oldTaskIds))
           .With(newStatus, newColumn.(taskIds := newTaskIds)))
  }

  /**
   * A move to another column: the id leaves the old list (the rest of which
   * keeps its order) and sits at the clamped `newIndex` in the new list, whose
   * other elements keep their order; the third column is untouched.
   */
  lemma MoveAcrossColumns(b: Board, id: TaskId, newStatus: TaskStatus, newIndex: int, now: Date)
    requires id in b.tasks && newStatus != b.tasks[id].status
    ensures var r, from := MoveTask(b, id, newStatus, newIndex, now), b.tasks[id].status;
      var k := SpliceStart(|Ids(b, newStatus)|, newIndex);
      && id !in Ids(r, from)
      && Ids(r, from) == Without(Ids(b, from), id)
      && |Ids(r, newStatus)| == |Ids(b, newStatus)| + 1
      && Ids(r, newStatus)[k] == id
      && Ids(r, newStatus)[..k] + Ids(r, newStatus)[k + 1..] == Ids(b, newStatus)
      && (0 <= newIndex ==> k == Min(newIndex, |Ids(b, newStatus)|))
      && (forall s :: s != from && s != newStatus ==> r.columns.Get(s) == b.columns.Get(s))
      && r.tasks[id].status == newStatus && r.tasks[id].updatedAt == now
  {
  }

  /**
   * A move within one column of a valid board reorders it: the same ids, the
   * same length, the moved id at the clamped `newIndex` and the other ids in
   * their old order; the task keeps its status and `updatedAt` becomes `now`.
   */
  lemma MoveWithinColumn(b: Board, id: TaskId, newIndex: int, now: Date)
    requires Valid(b) && id in b.tasks
    ensures var s := b.tasks[id].status;
      var r := MoveTask(b, id, s, newIndex, now);
      var k := SpliceStart(|Ids(b, s)| - 1, newIndex);
      && multiset(Ids(r, s)) == multiset(Ids(b, s))
      && |Ids(r, s)| == |Ids(b, s)|
      && k < |Ids(r, s)| && Ids(r, s)[k] == id
      && Ids(r, s)[..k] + Ids(r, s)[k + 1..] == Without(Ids(b, s), id)
      && (0 <= newIndex ==> k == Min(newIndex, |Ids(b, s)| - 1))
      && (forall t :: t != s ==> r.columns.Get(t) == b.columns.Get(t))
      && r.tasks[id].status == s && r.tasks[id].updatedAt == now
  {
    var s := b.tasks[id].status;
    MoveTargetList(b, id, s, newIndex, now);
    ReinsertFacts(Ids(b, s), id, newIndex);
  }

  /** Taking an id out of a list without duplicates and splicing it back in reorders the list. */
  lemma ReinsertFacts(ids: seq<TaskId>, id: TaskId, newIndex: int)
    requires NoDup(ids) && id in ids
    ensures var rest := Without(ids, id);
      var t := SpliceInsert(rest, newIndex, id);
      && |rest| == |ids| - 1
      && multiset(t) == multiset(ids)
      && |t| == |ids|
  {
    var p := IndexOf(ids, id);
    RemoveAtIndexOf(ids, id);
    var rest := SpliceRemoveOne(ids, p);
    InsertMultiset(rest, newIndex, id);
    assert multiset(ids) == multiset(rest) + multiset{id};
  }

  /** On a valid board, the list a move writes is the target list without the id, with the id spliced in. */
  lemma MoveTargetList(b: Board, id: TaskId, newStatus: TaskStatus, newIndex: int, now: Date)
    requires Valid(b) && id in b.tasks
    ensures Ids(MoveTask(b, id, newStatus, newIndex, now), newStatus)
      == SpliceInsert(Without(Ids(b, newStatus), id), newIndex, id)
  {
    if newStatus == b.tasks[id].status {
      RemoveAtIndexOf(Ids(b, newStatus), id);
    } else {
      assert id !in Ids(b, newStatus);
      WithoutAbsent(Ids(b, newStatus), id);
    }
  }

  /** After a move, each column of a valid board is still keyed by its status, free of duplicates and lists only tasks of its status. */
  lemma MoveKeepsColumn(b: Board, id: TaskId, newStatus: TaskStatus, newIndex: int, now: Date, s: TaskStatus)
    requires Valid(b) && id in b.tasks
    ensures var r := MoveTask(b, id, newStatus, newIndex, now);
      && r.columns.Get(s).id == s
      && NoDup(Ids(r, s))
      && forall x :: x in Ids(r, s) ==> x in r.tasks && r.tasks[x].status == s
  {
    if s == newStatus {
      MoveKeepsTarget(b, id, newStatus, newIndex, now);
    } else {
      MoveKeepsOthers(b, id, newStatus, newIndex, now, s);
    }
  }

  /** The column a move writes last lists no id twice and only tasks that have its status. */
  lemma MoveKeepsTarget(b: Board, id: TaskId, newStatus: TaskStatus, newIndex: int, now: Date)
    requires Valid(b) && id in b.tasks
    ensures var r := MoveTask(b, id, newStatus, newIndex, now);
      && NoDup(Ids(r, newStatus))
      && forall x :: x in Ids(r, newStatus) ==> x in r.tasks && r.tasks[x].status == newStatus
  {
    var r := MoveTask(b, id, newStatus, newIndex, now);
    var target := Without(Ids(b, newStatus), id);
    MoveTargetList(b, id, newStatus, newIndex, now);
    WithoutNoDup(Ids(b, newStatus), id);
    InsertNoDup(target, newIndex, id);
    InsertMultiset(target, newIndex, id);
    forall x | x in Ids(r, newStatus) ensures x in r.tasks && r.tasks[x].status == newStatus {
      assert x in multiset(target) + multiset{id};
    }
  }

  /** A column other than the target of a move keeps, on a valid board, no duplicates and only tasks of its status. */
  lemma MoveKeepsOthers(b: Board, id: TaskId, newStatus: TaskStatus, newIndex: int, now: Date, s: TaskStatus)
    requires Valid(b) && id in b.tasks && s != newStatus
    ensures var r := MoveTask(b, id, newStatus, newIndex, now);
      && NoDup(Ids(r, s))
      && forall x :: x in Ids(r, s) ==> x in r.tasks && r.tasks[x].status == s
  {
    var r := MoveTask(b, id, newStatus, newIndex, now);
    var from := b.tasks[id].status;
    if s == from {
      assert Ids(r, s) == Without(Ids(b, from), id);
      WithoutNoDup(Ids(b, from), id);
    } else {
      assert r.columns.Get(s) == b.columns.Get(s);
    }
  }

  /** After a move on a valid board, every task is still listed in the column of its status. */
  lemma MoveKeepsListing(b: Board, id: TaskId, newStatus: TaskStatus, newIndex: int, now: Date, x: TaskId)
    requires Valid(b) && id in b.tasks && x in b.tasks
    ensures var r := MoveTask(b, id, newStatus, newIndex, now);
      r.tasks[x].id == x && x in Ids(r, r.tasks[x].status)
  {
    var r := MoveTask(b, id, newStatus, newIndex, now);
    var from := b.tasks[id].status;
    var target := Without(Ids(b, newStatus), id);
    var s := b.tasks[x].status;
    MoveTargetList(b, id, newStatus, newIndex, now);
    InsertMultiset(target, newIndex, id);
    if x == id {
      assert id in multiset(Ids(r, newStatus));
    } else if s == newStatus {
      assert x in target;
      assert x in multiset(Ids(r, newStatus));
    } else if s == from {
      assert Ids(r, s) == Without(Ids(b, from), id);
    } else {
      assert r.columns.Get(s) == b.columns.Get(s);
    }
  }

  /** Moving keeps the board valid. */
  lemma MoveTaskPreservesValid(b: Board, id: TaskId, newStatus: TaskStatus, newIndex: int, now: Date)
    requires Valid(b)
    ensures Valid(MoveTask(b, id, newStatus, newIndex, now))
  {
    if id in b.tasks {
      var r := MoveTask(b, id, newStatus, newIndex, now);
      forall s: TaskStatus
        ensures r.columns.Get(s).id == s
        ensures NoDup(r.columns.Get(s).taskIds)
        ensures forall x :: x in r.columns.Get(s).taskIds ==> x in r.tasks && r.tasks[x].status == s
      {
        MoveKeepsColumn(b, id, newStatus, newIndex, now, s);
      }
      forall x | x in r.tasks
        ensures r.tasks[x].id == x && x in r.columns.Get(r.tasks[x].status).taskIds
      {
        MoveKeepsListing(b, id, newStatus, newIndex, now, x);
      }
    }
  }
}
