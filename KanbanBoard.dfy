/**
 * The two pieces of logic of the board view: which tasks a column shows under
 * the current filters, and how the end of a drag is turned into a move.
 */
module KanbanBoard {
  import opened Types
  import opened JsArray
  import opened Text
  import BoardOps

  /**
   * The filter callback for a task that exists: a priority filter other than
   * `'all'` excludes other priorities; then a non-empty search keeps the task
   * exactly when it occurs, ignoring case, in the title or the description.
   */
  predicate Matches(task: Task, filters: Filters)
  {
    if filters.priority.Only? && task.priority != filters.priority.priority then false
    else if filters.search != "" then
      var searchLower := ToLower(filters.search);
      Includes(ToLower(task.title), searchLower) || Includes(ToLower(task.description), searchLower)
    else true
  }

  /** The callback `taskId => …` of `getFilteredTasks`: ids without a task are dropped. */
  function Shown(tasks: map<TaskId, Task>, filters: Filters): TaskId -> bool
  {
    taskId => taskId in tasks && Matches(tasks[taskId], filters)
  }

  /** `getFilteredTasks`: the ids of a column that the view shows. */
  function GetFilteredTasks(taskIds: seq<TaskId>, tasks: map<TaskId, Task>, filters: Filters): (r: seq<TaskId>)
    ensures |r| <= |taskIds|
    ensures forall id :: id in r <==> id in taskIds && id in tasks && Matches(tasks[id], filters)
  {
    Filter(taskIds, Shown(tasks, filters))
  }

  /** The shown ids are the column's ids with some left out and the rest in their order. */
  lemma FilteredIsSubsequence(taskIds: seq<TaskId>, tasks: map<TaskId, Task>, filters: Filters)
    ensures IsSubseq(GetFilteredTasks(taskIds, tasks, filters), taskIds)
  {
    FilterIsSubseq(taskIds, Shown(tasks, filters));
  }

  /** Under a priority filter, every task of another priority is hidden. */
  lemma PriorityFilterExcludes(taskIds: seq<TaskId>, tasks: map<TaskId, Task>, filters: Filters, id: TaskId)
    requires filters.priority.Only? && id in tasks && tasks[id].priority != filters.priority.priority
    ensures id !in GetFilteredTasks(taskIds, tasks, filters)
  {
  }

  /** With a search, a listed task that passes the priority filter is shown exactly when the search matches. */
  lemma SearchDecides(taskIds: seq<TaskId>, tasks: map<TaskId, Task>, filters: Filters, id: TaskId)
    requires filters.search != [] && id in taskIds && id in tasks
    requires filters.priority.All? || tasks[id].priority == filters.priority.priority
    ensures id in GetFilteredTasks(taskIds, tasks, filters) <==>
      Includes(ToLower(tasks[id].title), ToLower(filters.search))
      || Includes(ToLower(tasks[id].description), ToLower(filters.search))
  {
  }

  /** With no filter at all, a column of a valid board is shown in full and in order. */
  lemma UnfilteredShowsWholeColumn(b: Board, s: TaskStatus)
    requires BoardOps.Valid(b)
    ensures GetFilteredTasks(BoardOps.Ids(b, s), b.tasks, Filters(All, "")) == BoardOps.Ids(b, s)
  {
    var ids := BoardOps.Ids(b, s);
    assert forall i :: 0 <= i < |ids| ==> Shown(b.tasks, Filters(All, ""))(ids[i]) by {
      forall i | 0 <= i < |ids| ensures Shown(b.tasks, Filters(All, ""))(ids[i]) {
        assert ids[i] in b.columns.Get(s).taskIds;
      }
    }
    FilterKeepsAll(ids, Shown(b.tasks, Filters(All, "")));
  }

  /** With no filter at all, exactly the ids that have a task are shown, in their order. */
  lemma UnfilteredKeepsPresent(taskIds: seq<TaskId>, tasks: map<TaskId, Task>)
    ensures forall id :: id in GetFilteredTasks(taskIds, tasks, Filters(All, "")) <==> id in taskIds && id in tasks
    ensures (forall i :: 0 <= i < |taskIds| ==> taskIds[i] in tasks) ==>
      GetFilteredTasks(taskIds, tasks, Filters(All, "")) == taskIds
  {
    if forall i :: 0 <= i < |taskIds| ==> taskIds[i] in tasks {
      FilterKeepsAll(taskIds, Shown(tasks, Filters(All, "")));
    }
  }

  /** A high-priority To Do task titled "Design landing page". */
  function ExampleTask(): Task
  {
    Task("1", "Design landing page", "...", High, Todo, None, 0, 0)
  }

  /** The example task is hidden by a filter on another priority. */
  lemma ExampleHiddenByPriority()
    ensures !Matches(ExampleTask(), Filters(Only(Low), ""))
  {
  }

  /** The search "landing" finds the example task. */
  lemma ExampleFoundBySearch()
    ensures Matches(ExampleTask(), Filters(All, "landing"))
  {
    var title := ToLower(ExampleTask().title);
    assert ToLower("landing") == "landing";
    assert title[7..14] == "landing";
    assert OccursAt(title, "landing", 7);
  }

  /** The search "zzz" misses the example task. */
  lemma ExampleMissedBySearch()
    ensures !Matches(ExampleTask(), Filters(All, "zzz"))
  {
    var t := ExampleTask();
    assert ToLower("zzz") == "zzz";
    assert 'z' !in ToLower(t.title);
    assert 'z' !in ToLower(t.description);
    MissingHeadExcludes(ToLower(t.title), "zzz");
    MissingHeadExcludes(ToLower(t.description), "zzz");
  }

  // ---------------------------------------------------------------- drag and drop

  datatype DraggableLocation = DraggableLocation(droppableId: TaskStatus, index: int)

  /** What the drag-and-drop library reports when a drag ends; a drop outside any column has no destination. */
  datatype DropResult = DropResult(
    draggableId: TaskId,
    source: DraggableLocation,
    destination: Option<DraggableLocation>)

  /** A call `moveTask(taskId, newStatus, newIndex)`. */
  datatype MoveCall = MoveCall(taskId: TaskId, newStatus: TaskStatus, newIndex: int)

  /** `handleDragEnd`: the one store call a drag end makes, if any. */
  function HandleDragEnd(result: DropResult): (call: Option<MoveCall>)
    ensures result.destination.None? ==> call.None?
    ensures result.destination == Some(result.source) ==> call.None?
    ensures result.destination.Some? && result.destination.value != result.source ==>
      call == Some(MoveCall(result.draggableId, result.destination.value.droppableId, result.destination.value.index))
  {
    match result.destination
    case None => None
    case Some(destination) =>
      if destination.droppableId == result.source.droppableId && destination.index == result.source.index then None
      else Some(MoveCall(result.draggableId, destination.droppableId, destination.index))
  }

  /** The board after the store has handled the drag end. */
  function AfterDragEnd(b: Board, result: DropResult, now: Date): Board
  {
    match HandleDragEnd(result)
    case None => b
    case Some(call) => BoardOps.MoveTask(b, call.taskId, call.newStatus, call.newIndex, now)
  }

  /** Whatever the drop, a valid board stays valid, and a cancelled drag changes nothing. */
  lemma DragEndKeepsBoardValid(b: Board, result: DropResult, now: Date)
    requires BoardOps.Valid(b)
    ensures BoardOps.Valid(AfterDragEnd(b, result, now))
    ensures (result.destination.None? || result.destination == Some(result.source)) ==> AfterDragEnd(b, result, now) == b
  {
    match HandleDragEnd(result)
    case None =>
    case Some(call) => BoardOps.MoveTaskPreservesValid(b, call.taskId, call.newStatus, call.newIndex, now);
  }
}
