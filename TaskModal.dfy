/**
 * The task form: its state (the form fields and the error messages), the reset
 * that runs when the modal opens or the edited task changes, validation, the
 * submit that routes to `addTask` or `updateTask`, and field edits.
 */
module TaskModal {
  import opened Types
  import opened Text
  import BoardOps
  import Store

  /** The form fields; the deadline is the text of a date input, empty when unset. */
  datatype FormData = FormData(
    title: string,
    description: string,
    priority: Priority,
    status: TaskStatus,
    deadline: string)

  /** The blank form of a new task. */
  function EmptyForm(): FormData
  {
    FormData("", "", Medium, Todo, "")
  }

  /**
   * The form the reset shows: blank without an edited task; otherwise the
   * task's title, description, priority and status, and its deadline written
   * as a day by `dayText` (empty when it has none).
   */
  function Prefill(editingTask: Option<Task>, dayText: Date -> string): (f: FormData)
    ensures editingTask.None? ==> f == FormData("", "", Medium, Todo, "")
    ensures editingTask.Some? ==>
      var t := editingTask.value;
      && f.title == t.title && f.description == t.description
      && f.priority == t.priority && f.status == t.status
      && f.deadline == (if t.deadline.Some? then dayText(t.deadline.value) else "")
  {
    match editingTask
    case None => EmptyForm()
    case Some(t) =>
      FormData(t.title, t.description, t.priority, t.status,
               if t.deadline.Some? then dayText(t.deadline.value) else "")
  }

  // ---------------------------------------------------------------- validation

  const TitleRequired := "Title is required"
  const DescriptionRequired := "Description is required"

  /** Both required fields hold something other than white space. */
  predicate FormValid(form: FormData)
  {
    Trim(form.title) != [] && Trim(form.description) != []
  }

  /** `errors` holds a message for each required field that is blank, and nothing else. */
  ghost predicate ErrorsFor(form: FormData, errors: map<string, string>)
  {
    && ("title" in errors <==> Trim(form.title) == [])
    && ("description" in errors <==> Trim(form.description) == [])
    && errors.Keys <= {"title", "description"}
    && ("title" in errors ==> errors["title"] == TitleRequired)
    && ("description" in errors ==> errors["description"] == DescriptionRequired)
  }

  /** The body of `validateForm`: collect the messages, then report whether there are none. */
  method CollectErrors(form: FormData) returns (newErrors: map<string, string>, ok: bool)
    ensures ErrorsFor(form, newErrors)
    ensures ok <==> |newErrors| == 0
    ensures ok <==> FormValid(form)
  {
    newErrors := map[];
    if Trim(form.title) == "" {
      newErrors := newErrors["title" := TitleRequired];
    }
    if Trim(form.description) == "" {
      newErrors := newErrors["description" := DescriptionRequired];
    }
    ok := |newErrors| == 0;
    if !FormValid(form) {
      assert newErrors.Keys != {};
    }
  }

  /** A required field is blank exactly when it is white space only. */
  lemma BlankMeansWhitespace(form: FormData)
    ensures !FormValid(form) <==>
      (forall i :: 0 <= i < |form.title| ==> IsWhitespace(form.title[i]))
      || (forall i :: 0 <= i < |form.description| ==> IsWhitespace(form.description[i]))
  {
  }

  // ---------------------------------------------------------------- submit

  /** The task data a valid submit sends: trimmed text, and no deadline for an empty date field. */
  function SubmittedData(form: FormData, parseDay: string -> Date): (d: BoardOps.TaskData)
    ensures d.title == Trim(form.title) && d.description == Trim(form.description)
    ensures d.priority == form.priority && d.status == form.status
    ensures form.deadline == "" <==> d.deadline.None?
    ensures form.deadline != "" ==> d.deadline == Some(parseDay(form.deadline))
  {
    BoardOps.TaskData(
      Trim(form.title), Trim(form.description), form.priority, form.status,
      if form.deadline == "" then None else Some(parseDay(form.deadline)))
  }

  /** The same data passed to `updateTask`: every key is present, the deadline too even when `undefined`. */
  function AsUpdate(d: BoardOps.TaskData): (u: BoardOps.TaskUpdate)
    ensures u.title == Some(d.title) && u.description == Some(d.description)
    ensures u.priority == Some(d.priority) && u.status == Some(d.status)
    ensures u.deadline == Some(d.deadline)
  {
    BoardOps.TaskUpdate(Some(d.title), Some(d.description), Some(d.priority), Some(d.status), Some(d.deadline))
  }

  /**
   * Submitting the prefilled form of a task unchanged gives the task back with
   * only `updatedAt` changed, provided its title and description carry no
   * surrounding white space and its deadline survives the trip through the
   * date field (the field holds a day, so a deadline not at midnight would not).
   */
  lemma UnchangedEditKeepsTask(b: Board, t: Task, dayText: Date -> string, parseDay: string -> Date, now: Date)
    requires BoardOps.Valid(b) && t.id in b.tasks && b.tasks[t.id] == t
    requires Trim(t.title) == t.title != [] && Trim(t.description) == t.description != []
    requires t.deadline.Some? ==> dayText(t.deadline.value) != "" && parseDay(dayText(t.deadline.value)) == t.deadline.value
    ensures FormValid(Prefill(Some(t), dayText))
    ensures BoardOps.UpdateTask(b, t.id, AsUpdate(SubmittedData(Prefill(Some(t), dayText), parseDay)), now)
      == b.(tasks := b.tasks[t.id := t.(updatedAt := now)])
  {
  }

  // ---------------------------------------------------------------- field edits

  /** One `handleInputChange(field, value)`, with a value of the field's type. */
  datatype FieldEdit =
    | TitleEdit(title: string)
    | DescriptionEdit(description: string)
    | PriorityEdit(priority: Priority)
    | StatusEdit(status: TaskStatus)
    | DeadlineEdit(deadline: string)

  /** The name of the edited field, which is also its key in the error messages. */
  function FieldName(edit: FieldEdit): string
  {
    match edit
    case TitleEdit(_) => "title"
    case DescriptionEdit(_) => "description"
    case PriorityEdit(_) => "priority"
    case StatusEdit(_) => "status"
    case DeadlineEdit(_) => "deadline"
  }

  /** `{...prev, [field]: value}`: the named field takes the value and every other field keeps its own. */
  function ApplyEdit(f: FormData, edit: FieldEdit): (r: FormData)
    ensures edit.TitleEdit? ==> r.title == edit.title
    ensures !edit.TitleEdit? ==> r.title == f.title
    ensures edit.DescriptionEdit? ==> r.description == edit.description
    ensures !edit.DescriptionEdit? ==> r.description == f.description
    ensures edit.PriorityEdit? ==> r.priority == edit.priority
    ensures !edit.PriorityEdit? ==> r.priority == f.priority
    ensures edit.StatusEdit? ==> r.status == edit.status
    ensures !edit.StatusEdit? ==> r.status == f.status
    ensures edit.DeadlineEdit? ==> r.deadline == edit.deadline
    ensures !edit.DeadlineEdit? ==> r.deadline == f.deadline
  {
    match edit
    case TitleEdit(v) => f.(title := v)
    case DescriptionEdit(v) => f.(description := v)
    case PriorityEdit(v) => f.(priority := v)
    case StatusEdit(v) => f.(status := v)
    case DeadlineEdit(v) => f.(deadline := v)
  }

  /** `if (errors[field]) errors = {...errors, [field]: ''}`: a shown message of that field is blanked. */
  function ClearError(errors: map<string, string>, field: string): (r: map<string, string>)
    ensures r.Keys == errors.Keys
    ensures forall k :: k in errors && k != field ==> r[k] == errors[k]
    ensures field in r ==> r[field] == ""
  {
    if field in errors && errors[field] != "" then errors[field := ""] else errors
  }

  // ---------------------------------------------------------------- the component state

  class TaskModalForm {
    var formData: FormData
    var errors: map<string, string>

    constructor ()
      ensures formData == EmptyForm() && errors == map[]
    {
      formData := EmptyForm();
      errors := map[];
    }

    /** The effect that runs when the edited task or the modal's visibility changes. */
    method Reset(editingTask: Option<Task>, dayText: Date -> string)
      modifies this
      ensures formData == Prefill(editingTask, dayText)
      ensures errors == map[]
    {
      formData := Prefill(editingTask, dayText);
      errors := map[];
    }

    /** `validateForm`: store the messages and report whether the form may be submitted. */
    method ValidateForm() returns (ok: bool)
      modifies this`errors
      ensures ErrorsFor(formData, errors)
      ensures ok <==> FormValid(formData)
    {
      var newErrors;
      newErrors, ok := CollectErrors(formData);
      errors := newErrors;
    }

    /**
     * `handleSubmit`: an invalid form leaves the store alone and the modal
     * open; a valid one updates the edited task, or adds a task under `newId`
     * when none is edited, and closes the modal.
     */
    method HandleSubmit(store: Store.TaskStore, newId: TaskId, now: Date, parseDay: string -> Date)
      modifies this`errors, store
      ensures ErrorsFor(formData, errors)
      ensures !FormValid(formData) ==> store.State() == old(store.State())
      ensures FormValid(formData) && old(store.editingTask).Some? ==>
        store.State() == old(store.State()).(
          board := BoardOps.UpdateTask(old(store.board), old(store.editingTask).value.id,
                                       AsUpdate(SubmittedData(formData, parseDay)), now),
          isModalOpen := false)
      ensures FormValid(formData) && old(store.editingTask).None? ==>
        store.State() == old(store.State()).(
          board := BoardOps.AddTask(old(store.board), SubmittedData(formData, parseDay), newId, now),
          isModalOpen := false)
      ensures old(store.Valid()) && (old(store.editingTask).None? ==> newId !in old(store.board.tasks)) ==>
        store.Valid()
    {
      var ok := ValidateForm();
      if !ok {
        return;
      }
      var taskData := SubmittedData(formData, parseDay);
      if store.editingTask.Some? {
        store.UpdateTask(store.editingTask.value.id, AsUpdate(taskData), now);
      } else {
        store.AddTask(taskData, newId, now);
      }
      store.SetModalOpen(false);
    }

    /** `handleInputChange`: the edited field changes, and a message shown for it is blanked. */
    method HandleInputChange(edit: FieldEdit)
      modifies this
      ensures formData == ApplyEdit(old(formData), edit)
      ensures errors == ClearError(old(errors), FieldName(edit))
    {
      formData := ApplyEdit(formData, edit);
      var field := FieldName(edit);
      if field in errors && errors[field] != "" {
        errors := errors[field := ""];
      }
    }
  }
}
