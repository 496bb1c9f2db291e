/**
 * The task CRUD dialog. One mount shows one mode: a create form, an edit
 * form pre-filled from the task, or a delete confirmation. It holds the two
 * form value objects, the field errors the last validation produced, and
 * the trace of what its handlers did.
 */
module TaskCrud {
  import opened Wrappers
  import opened Zod
  import opened Entities
  import opened Crud
  import opened TaskSchema

  const CreatedMessage := "Tarea creada correctamente"
  const UpdatedMessage := "Tarea actualizada correctamente"
  const DeletedMessage := "Tarea eliminada correctamente"
  const CreateFailed := "Error al crear la tarea"
  const UpdateFailed := "Error al actualizar la tarea"
  const DeleteFailed := "Error al eliminar la tarea"

  /** The create form's `defaultValues`; `assignedToId` is left undefined. */
  const CreateDefaults: TaskValues := map[
    Title := Str(""), Description := Str(""), Notes := Str(""), DueDate := Str(""),
    Status := Str(TaskStatus.New.Value()), Priority := Str(TaskPriority.Medium.Value())
  ]

  /** The edit form after the mount effect copied the task into it. */
  function Prefill(t: Task): (r: TaskValues) {
    map[
      Title := Str(t.title),
      Description := Str(t.description.GetOr("")),
      Notes := Str(t.notes.GetOr("")),
      DueDate := Str(t.dueDate),
      Status := Str(t.status.Value()),
      Priority := Str(t.priority.Value()),
      AssignedToId := Num(t.assignedTo.id)
    ]
  }

  /** Submitting the create defaults unchanged never reaches the service: title, due date and assignee fail. */
  lemma CreateDefaultsRejected()
    ensures Issues(CreateTaskSchema, CreateDefaults) == [
      Issue(Title, TooSmall(3, TitleMessage)),
      Issue(DueDate, TooSmall(1, DueDateMessage)),
      Issue(AssignedToId, Required(AssigneeMessage))
    ]
    ensures !Accepts(CreateTaskSchema, CreateDefaults)
  {
    var s, v := CreateTaskSchema, CreateDefaults;
    assert Issues(s[6..], v) == [Issue(AssignedToId, Required(AssigneeMessage))];
    assert Issues(s[5..], v) == Issues(s[6..], v);
    assert Issues(s[4..], v) == Issues(s[5..], v);
    assert Issues(s[3..], v) == [Issue(DueDate, TooSmall(1, DueDateMessage))] + Issues(s[4..], v);
    assert Issues(s[2..], v) == Issues(s[3..], v);
    assert Issues(s[1..], v) == Issues(s[2..], v);
  }

  /** The pre-filled edit form is a valid edit exactly when the task's title and due date meet the rules. */
  lemma PrefillAccepted(t: Task)
    ensures Accepts(EditTaskSchema, Prefill(t)) <==> |t.title| >= 3 && t.dueDate != ""
  {
    EditTaskAcceptsIff(Prefill(t));
    TaskStatusValuesExact(t.status.Value(), t.status);
    TaskPriorityValuesExact(t.priority.Value(), t.priority);
  }

  /** The pre-filled form reads back as the task: enum fields parse to the task's own status and priority. */
  lemma PrefillReadsBack(t: Task)
    ensures Prefill(t).Keys == Names(CreateTaskSchema)
    ensures ParseTaskStatus(Prefill(t)[Status].s) == Some(t.status)
    ensures ParseTaskPriority(Prefill(t)[Priority].s) == Some(t.priority)
    ensures Prefill(t)[AssignedToId] == Num(t.assignedTo.id)
    ensures Prefill(t)[Title] == Str(t.title) && Prefill(t)[DueDate] == Str(t.dueDate)
    ensures t.description.Some? ==> Prefill(t)[Description] == Str(t.description.value)
    ensures t.notes.Some? ==> Prefill(t)[Notes] == Str(t.notes.value)
    ensures t.description.None? ==> Prefill(t)[Description] == Str("")
    ensures t.notes.None? ==> Prefill(t)[Notes] == Str("")
  {
    TaskStatusValuesExact(t.status.Value(), t.status);
    TaskPriorityValuesExact(t.priority.Value(), t.priority);
    CreateSchemaDeclaresAll();
  }

  /** What a create submission hands to the service: the form as typed, and a complete new task. */
  lemma ParsedCreateIsNewTask(vals: TaskValues)
    requires Parse(CreateTaskSchema, vals).Success?
    ensures Parse(CreateTaskSchema, vals).value == vals
    ensures ValidNewTask(vals)
  {
    AcceptsIff(CreateTaskSchema, vals);
    CreateTaskAcceptsIff(vals);
    CreateSchemaDeclaresAll();
  }

  /** What an edit submission hands to the service: the form as typed, and a valid task edit. */
  lemma ParsedEditIsTaskEdit(vals: TaskValues)
    requires Parse(EditTaskSchema, vals).Success?
    ensures Parse(EditTaskSchema, vals).value == vals
    ensures ValidTaskEdit(vals)
  {
    AcceptsIff(EditTaskSchema, vals);
    EditTaskAcceptsIff(vals);
    CreateSchemaDeclaresAll();
    PartialNames(CreateTaskSchema);
  }

  /**
   * Choosing an assignee in either form re-validates that field: its error,
   * such as the one a rejected submit left, is cleared, and the other
   * fields' errors stay as they were.
   */
  lemma PickedAssigneeClearsError(errors: map<TaskField, IssueCode>, vals: TaskValues, id: int)
    ensures var r := RevalidateField(errors, CreateTaskSchema, vals[AssignedToId := Num(id)], AssignedToId);
      AssignedToId !in r && r - {AssignedToId} == errors - {AssignedToId}
    ensures var r := RevalidateField(errors, EditTaskSchema, vals[AssignedToId := Num(id)], AssignedToId);
      AssignedToId !in r && r - {AssignedToId} == errors - {AssignedToId}
  {
    var v := vals[AssignedToId := Num(id)];
    TaskNamesDistinct();
    FieldErrorIsCheck(CreateTaskSchema, v, 6);
    FieldErrorIsCheck(EditTaskSchema, v, 6);
    PartialField(CreateTaskSchema, 6, v);
  }

  /** Choosing a status in either form re-validates that field and clears its error. */
  lemma PickedStatusClearsError(errors: map<TaskField, IssueCode>, vals: TaskValues, st: TaskStatus)
    ensures Status !in RevalidateField(errors, CreateTaskSchema, vals[Status := Str(st.Value())], Status)
    ensures Status !in RevalidateField(errors, EditTaskSchema, vals[Status := Str(st.Value())], Status)
  {
    var v := vals[Status := Str(st.Value())];
    TaskNamesDistinct();
    TaskStatusValuesExact(st.Value(), st);
    FieldErrorIsCheck(CreateTaskSchema, v, 4);
    FieldErrorIsCheck(EditTaskSchema, v, 4);
    PartialField(CreateTaskSchema, 4, v);
  }

  /** Choosing a priority in either form re-validates that field and clears its error. */
  lemma PickedPriorityClearsError(errors: map<TaskField, IssueCode>, vals: TaskValues, p: TaskPriority)
    ensures Priority !in RevalidateField(errors, CreateTaskSchema, vals[Priority := Str(p.Value())], Priority)
    ensures Priority !in RevalidateField(errors, EditTaskSchema, vals[Priority := Str(p.Value())], Priority)
  {
    var v := vals[Priority := Str(p.Value())];
    TaskNamesDistinct();
    TaskPriorityValuesExact(p.Value(), p);
    FieldErrorIsCheck(CreateTaskSchema, v, 5);
    FieldErrorIsCheck(EditTaskSchema, v, 5);
    PartialField(CreateTaskSchema, 5, v);
  }

  class TaskCrud {
    const mode: Mode
    const task: Option<Task>
    /** The candidate assignees the form offers. */
    const users: seq<User>
    /** The create form's resolver schema. */
    const createSchema: ObjectSchema<TaskField>
    /** The edit form's resolver schema. */
    const editSchema: ObjectSchema<TaskField>
    var createValues: TaskValues
    var editValues: TaskValues
    /** react-hook-form's `errors` of each form: the issue of each failing field. */
    var createErrors: map<TaskField, IssueCode>
    var editErrors: map<TaskField, IssueCode>
    /** Whether each form has been submitted; from then on a typed change re-validates its field. */
    var createSubmitted: bool
    var editSubmitted: bool
    var trace: seq<Event>

    /** Mounting: both forms are created, then the effect pre-fills the edit form or resets the create form. */
    constructor (mode: Mode, task: Option<Task>, users: seq<User>)
      ensures this.mode == mode && this.task == task && this.users == users
      ensures createSchema == CreateTaskSchema && editSchema == EditTaskSchema
      ensures createValues == CreateDefaults
      ensures editValues == if mode.Edit? && task.Some? then Prefill(task.value) else map[]
      ensures createErrors == map[] && editErrors == map[] && !createSubmitted && !editSubmitted && trace == []
    {
      this.mode := mode;
      this.task := task;
      this.users := users;
      createSchema := CreateTaskSchema;
      editSchema := EditTaskSchema;
      createValues := CreateDefaults;
      editValues := map[];
      createErrors := map[];
      editErrors := map[];
      createSubmitted := false;
      editSubmitted := false;
      trace := [];
      new;
      if mode.Edit? && task.Some? {
        var t := task.value;
        SetEditValue(Title, Str(t.title), false);
        SetEditValue(Description, Str(t.description.GetOr("")), false);
        SetEditValue(Notes, Str(t.notes.GetOr("")), false);
        SetEditValue(DueDate, Str(t.dueDate), false);
        SetEditValue(Status, Str(t.status.Value()), false);
        SetEditValue(Priority, Str(t.priority.Value()), false);
        SetEditValue(AssignedToId, Num(t.assignedTo.id), false);
      } else if mode.Create? {
        createValues := CreateDefaults;
      }
    }

    /** The dialog this mount renders; `None` is the component returning `null`. */
    function Dialog(): (d: Option<Mode>)
      ensures d.Some? ==> d.value == mode
      ensures d.None? <==> !mode.Create? && task.None?
    {
      if mode.Create? || task.Some? then Some(mode) else None
    }

    /**
     * `setValue` on the create form: the field takes the value; with
     * `shouldValidate` its entry of `errors` is recomputed by the resolver.
     */
    method SetCreateValue(name: TaskField, v: Value, shouldValidate: bool)
      modifies this
      ensures createValues == old(createValues)[name := v]
      ensures createErrors == if shouldValidate then RevalidateField(old(createErrors), createSchema, createValues, name)
        else old(createErrors)
      ensures editValues == old(editValues) && editErrors == old(editErrors) && trace == old(trace)
      ensures createSubmitted == old(createSubmitted) && editSubmitted == old(editSubmitted)
    {
      createValues := createValues[name := v];
      if shouldValidate {
        createErrors := RevalidateField(createErrors, createSchema, createValues, name);
      }
    }

    /** Typing into a registered input of the create form: re-validated only once the form was submitted. */
    method TypeCreateValue(name: TaskField, v: Value)
      modifies this
      ensures createValues == old(createValues)[name := v]
      ensures createErrors == if old(createSubmitted) then RevalidateField(old(createErrors), createSchema, createValues, name)
        else old(createErrors)
      ensures editValues == old(editValues) && editErrors == old(editErrors) && trace == old(trace)
      ensures createSubmitted == old(createSubmitted) && editSubmitted == old(editSubmitted)
    {
      SetCreateValue(name, v, createSubmitted);
    }

    /**
     * `setValue` on the edit form: the field takes the value; with
     * `shouldValidate` its entry of `errors` is recomputed by the resolver.
     */
    method SetEditValue(name: TaskField, v: Value, shouldValidate: bool)
      modifies this
      ensures editValues == old(editValues)[name := v]
      ensures editErrors == if shouldValidate then RevalidateField(old(editErrors), editSchema, editValues, name)
        else old(editErrors)
      ensures createValues == old(createValues) && createErrors == old(createErrors) && trace == old(trace)
      ensures createSubmitted == old(createSubmitted) && editSubmitted == old(editSubmitted)
    {
      editValues := editValues[name := v];
      if shouldValidate {
        editErrors := RevalidateField(editErrors, editSchema, editValues, name);
      }
    }

    /** Typing into a registered input of the edit form: re-validated only once the form was submitted. */
    method TypeEditValue(name: TaskField, v: Value)
      modifies this
      ensures editValues == old(editValues)[name := v]
      ensures editErrors == if old(editSubmitted) then RevalidateField(old(editErrors), editSchema, editValues, name)
        else old(editErrors)
      ensures createValues == old(createValues) && createErrors == old(createErrors) && trace == old(trace)
      ensures createSubmitted == old(createSubmitted) && editSubmitted == old(editSubmitted)
    {
      SetEditValue(name, v, editSubmitted);
    }

    /**
     * Submitting the create form: the resolver validates it against the
     * create schema; only a form it accepts reaches `onSubmitCreate`, which
     * calls the service with the parsed values. `o` is the service's answer.
     */
    method SubmitCreate(o: Outcome)
      modifies this
      ensures createErrors == FieldErrors(Issues(createSchema, old(createValues))) && createSubmitted
      ensures trace == old(trace) + match Parse(createSchema, old(createValues))
        case Failure(_) => []
        case Success(data) => Submission(CreateTask(data), o, CreatedMessage, ServerOr(CreateFailed))
      ensures createValues == old(createValues) && editValues == old(editValues) && editErrors == old(editErrors)
      ensures editSubmitted == old(editSubmitted)
    {
      createSubmitted := true;
      var parsed := Parse(createSchema, createValues);
      if parsed.Failure? {
        createErrors := FieldErrors(parsed.error);
        return;
      }
      createErrors := map[];
      trace := trace + [Call(CreateTask(parsed.value))];
      if o.Ok? {
        trace := trace + [ToastSuccess(CreatedMessage)];
        trace := trace + [Close];
        trace := trace + [Reload];
      } else {
        trace := trace + [ToastError(FailureToast(ServerOr(CreateFailed), o))];
      }
    }

    /**
     * Submitting the edit form: validated against the edit schema, then,
     * when there is a task, an update of that task's id with the parsed values.
     */
    method SubmitEdit(o: Outcome)
      modifies this
      ensures editErrors == FieldErrors(Issues(editSchema, old(editValues))) && editSubmitted
      ensures trace == old(trace) + match Parse(editSchema, old(editValues))
        case Failure(_) => []
        case Success(data) =>
          if task.None? then []
          else Submission(UpdateTask(task.value.id, data), o, UpdatedMessage, Fixed(UpdateFailed))
      ensures createValues == old(createValues) && editValues == old(editValues) && createErrors == old(createErrors)
      ensures createSubmitted == old(createSubmitted)
    {
      editSubmitted := true;
      var parsed := Parse(editSchema, editValues);
      if parsed.Failure? {
        editErrors := FieldErrors(parsed.error);
        return;
      }
      editErrors := map[];
      if task.None? {
        return;
      }
      trace := trace + [Call(UpdateTask(task.value.id, parsed.value))];
      if o.Ok? {
        trace := trace + [ToastSuccess(UpdatedMessage)];
        trace := trace + [Close];
        trace := trace + [Reload];
      } else {
        trace := trace + [ToastError(FailureToast(Fixed(UpdateFailed), o))];
      }
    }

    /** Confirming the deletion: when there is a task, the service deletes its id. */
    method Delete(o: Outcome)
      modifies this
      ensures trace == old(trace) +
        if task.None? then [] else Submission(DeleteTask(task.value.id), o, DeletedMessage, Fixed(DeleteFailed))
      ensures createValues == old(createValues) && editValues == old(editValues)
      ensures createErrors == old(createErrors) && editErrors == old(editErrors)
      ensures createSubmitted == old(createSubmitted) && editSubmitted == old(editSubmitted)
    {
      if task.None? {
        return;
      }
      trace := trace + [Call(DeleteTask(task.value.id))];
      if o.Ok? {
        trace := trace + [ToastSuccess(DeletedMessage)];
        trace := trace + [Close];
        trace := trace + [Reload];
      } else {
        trace := trace + [ToastError(FailureToast(Fixed(DeleteFailed), o))];
      }
    }
  }
}
