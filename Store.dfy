/**
 * The task store: one long-lived object holding the board, the UI flags and
 * the filters. Every action replaces some of these fields; the board actions
 * write the board that the functions of BoardOps compute.
 */
module Store {
  import opened Types
  import opened JsArray
  import BoardOps

  /** One call of `setFilter(key, value)`: the key and a value of that key's type. */
  datatype FilterSetting = PriorityTo(priority: PriorityFilter) | SearchTo(search: string)

  /** The filters the store starts with and `resetFilters` restores. */
  function DefaultFilters(): Filters
  {
    Filters(All, "")
  }

  /** `{...filters, [key]: value}`: the named filter takes the value, the other one stays. */
  function ApplySetting(f: Filters, setting: FilterSetting): (r: Filters)
    ensures setting.PriorityTo? ==> r.priority == setting.priority && r.search == f.search
    ensures setting.SearchTo? ==> r.search == setting.search && r.priority == f.priority
  {
    match setting
    case PriorityTo(p) => f.(priority := p)
    case SearchTo(q) => f.(search := q)
  }

  datatype AppState = AppState(
    board: Board,
    isDarkMode: bool,
    isModalOpen: bool,
    editingTask: Option<Task>,
    filters: Filters)

  function InitialState(): AppState
  {
    AppState(BoardOps.InitialBoard(), false, false, None, DefaultFilters())
  }

  /** The part of the state that is written to local storage. */
  datatype PersistedState = PersistedState(board: Board, isDarkMode: bool, filters: Filters)

  /** The `partialize` option of the persistence layer. */
  function Partialize(s: AppState): PersistedState
  {
    PersistedState(s.board, s.isDarkMode, s.filters)
  }

  /** Two states persist alike exactly when their board, dark-mode flag and filters agree. */
  lemma PartializeKeepsExactly(s: AppState, t: AppState)
    ensures Partialize(s) == Partialize(t) <==>
      s.board == t.board && s.isDarkMode == t.isDarkMode && s.filters == t.filters
  {
  }

  class TaskStore {
    var board: Board
    var isDarkMode: bool
    var isModalOpen: bool
    var editingTask: Option<Task>
    var filters: Filters

    function State(): AppState
      reads this
    {
      AppState(board, isDarkMode, isModalOpen, editingTask, filters)
    }

    /** The board invariant, with the fixed column order. */
    ghost predicate Valid()
      reads this
    {
      BoardOps.Valid(board) && board.columnOrder == BoardOps.StatusOrder
    }

    constructor ()
      ensures State() == InitialState()
      ensures Valid()
    {
      board := BoardOps.InitialBoard();
      isDarkMode := false;
      isModalOpen := false;
      editingTask := None;
      filters := DefaultFilters();
      BoardOps.InitialBoardValid();
    }

    /** `addTask(data)`, with the generated id and the current time passed in. */
    method AddTask(data: BoardOps.TaskData, id: TaskId, now: Date)
      modifies this
      ensures State() == old(State()).(board := BoardOps.AddTask(old(board), data, id, now))
      ensures old(Valid()) && id !in old(board.tasks) ==> Valid()
    {
      ghost var before := board;
      board := BoardOps.AddTask(board, data, id, now);
      if BoardOps.Valid(before) && id !in before.tasks {
        BoardOps.AddTaskPreservesValid(before, data, id, now);
      }
    }

    method UpdateTask(id: TaskId, updates: BoardOps.TaskUpdate, now: Date)
      modifies this
      ensures State() == old(State()).(board := BoardOps.UpdateTask(old(board), id, updates, now))
      ensures old(Valid()) ==> Valid()
    {
      if id !in board.tasks {
        return;
      }
      ghost var before := board;
      board := BoardOps.UpdateTask(board, id, updates, now);
      if BoardOps.Valid(before) {
        BoardOps.UpdateTaskPreservesValid(before, id, updates, now);
      }
    }

    method DeleteTask(id: TaskId)
      modifies this
      ensures State() == old(State()).(board := BoardOps.DeleteTask(old(board), id))
      ensures old(Valid()) ==> Valid()
    {
      if id !in board.tasks {
        return;
      }
      ghost var before := board;
      board := BoardOps.DeleteTask(board, id);
      if BoardOps.Valid(before) {
        BoardOps.DeleteTaskPreservesValid(before, id);
      }
    }

    /** `moveTask`: builds the new list of the target column by splicing a copy, then writes both columns. */
    method MoveTask(taskId: TaskId, newStatus: TaskStatus, newIndex: int, now: Date)
      modifies this
      ensures State() == old(State()).(board := BoardOps.MoveTask(old(board), taskId, newStatus, newIndex, now))
      ensures old(Valid()) ==> Valid()
    {
      if taskId !in board.tasks {
        return;
      }
      var task := board.tasks[taskId];
      var oldColumn := board.columns.Get(task.status);
      var newColumn := board.columns.Get(newStatus);
      var oldTaskIds := Without(oldColumn.taskIds, taskId);
      var newTaskIds := newColumn.taskIds;
      if newStatus == task.status {
        var oldIndex := IndexOf(newColumn.taskIds, taskId);
        newTaskIds := SpliceRemoveOne(newTaskIds, oldIndex);
      }
      newTaskIds := SpliceInsert(newTaskIds, newIndex, taskId);
      ghost var before := board;
      board := board.(
        tasks := board.tasks[taskId := task.(status := newStatus, updatedAt := now)],
        columns := board.columns
          .With(task.status, oldColumn.(taskIds := oldTaskIds))
          .With(newStatus, newColumn.(taskIds := newTaskIds)));
      if BoardOps.Valid(before) {
        BoardOps.MoveTaskPreservesValid(before, taskId, newStatus, newIndex, now);
      }
    }

    method SetModalOpen(isOpen: bool)
      modifies this
      ensures State() == old(State()).(isModalOpen := isOpen)
    {
      isModalOpen := isOpen;
    }

    method SetEditingTask(task: Option<Task>)
      modifies this
      ensures State() == old(State()).(editingTask := task)
    {
      editingTask := task;
    }

    method ToggleDarkMode()
      modifies this
      ensures State() == old(State()).(isDarkMode := !old(isDarkMode))
    {
      isDarkMode := !isDarkMode;
    }

    method SetFilter(setting: FilterSetting)
      modifies this
      ensures State() == old(State()).(filters := ApplySetting(old(filters), setting))
    {
      filters := ApplySetting(filters, setting);
    }

    /** `resetFilters`: back to the filters the store started with. */
    method ResetFilters()
      modifies this
      ensures State() == old(State()).(filters := DefaultFilters())
    {
      filters := DefaultFilters();
    }
  }

  /** Toggling dark mode twice leaves the whole store as it was. */
  method ToggleDarkModeTwice(store: TaskStore)
    modifies store
    ensures store.State() == old(store.State())
  {
    store.ToggleDarkMode();
    store.ToggleDarkMode();
  }
}
