/**
 * The task form schemas: `createTaskSchema`, every field as the create dialog
 * requires it, and `editTaskSchema`, its `.partial()`.
 */
module TaskSchema {
  import opened Wrappers
  import opened Zod
  import Entities

  /** The fields of the task forms; a task form has no id field. */
  datatype TaskField = Title | Description | Notes | DueDate | Status | Priority | AssignedToId

  type TaskValues = Values<TaskField>

  const TitleMessage := "El título es obligatorio"
  const DueDateMessage := "La fecha límite es obligatoria"
  const AssigneeMessage := "Debes asignar un usuario"

  const CreateTaskSchema: ObjectSchema<TaskField> := [
    Field(Title, Plain(ZString(3, TitleMessage))),
    Field(Description, Opt(ZString(0, ""))),
    Field(Notes, Opt(ZString(0, ""))),
    Field(DueDate, Plain(ZString(1, DueDateMessage))),
    Field(Status, Plain(ZNativeEnum(Entities.TaskStatusValues))),
    Field(Priority, Plain(ZNativeEnum(Entities.TaskPriorityValues))),
    Field(AssignedToId, Plain(ZNumber(Some(AssigneeMessage))))
  ]

  const EditTaskSchema: ObjectSchema<TaskField> := Partial(CreateTaskSchema)

  // The rules each field states, written directly on the values.

  predicate TitleOk(vals: TaskValues) {
    Title in vals && vals[Title].Str? && |vals[Title].s| >= 3
  }

  /** An optional free-text field: absent, or a string (empty allowed). */
  predicate TextOk(vals: TaskValues, name: TaskField) {
    name !in vals || vals[name].Str?
  }

  predicate DueDateOk(vals: TaskValues) {
    DueDate in vals && vals[DueDate].Str? && vals[DueDate].s != ""
  }

  predicate StatusOk(vals: TaskValues) {
    Status in vals && vals[Status].Str? && Entities.ParseTaskStatus(vals[Status].s).Some?
  }

  predicate PriorityOk(vals: TaskValues) {
    Priority in vals && vals[Priority].Str? && Entities.ParseTaskPriority(vals[Priority].s).Some?
  }

  predicate AssigneeOk(vals: TaskValues) {
    AssignedToId in vals && vals[AssignedToId].Num?
  }

  /** A complete new task: every rule holds. */
  predicate ValidNewTask(vals: TaskValues) {
    TitleOk(vals) && TextOk(vals, Description) && TextOk(vals, Notes) && DueDateOk(vals)
    && StatusOk(vals) && PriorityOk(vals) && AssigneeOk(vals)
  }

  /** A task edit: each field may be left out, but one that is given obeys its rule. */
  predicate ValidTaskEdit(vals: TaskValues) {
    (Title !in vals || TitleOk(vals)) && TextOk(vals, Description) && TextOk(vals, Notes)
    && (DueDate !in vals || DueDateOk(vals)) && (Status !in vals || StatusOk(vals))
    && (Priority !in vals || PriorityOk(vals)) && (AssignedToId !in vals || AssigneeOk(vals))
  }

  /** The create schema declares every field of the task form. */
  lemma CreateSchemaDeclaresAll()
    ensures forall k: TaskField :: k in Names(CreateTaskSchema)
  {
    var s := CreateTaskSchema;
    forall k: TaskField ensures k in Names(s) {
      var i := match k
        case Title => 0 case Description => 1 case Notes => 2 case DueDate => 3
        case Status => 4 case Priority => 5 case AssignedToId => 6;
      assert s[i].name == k;
    }
  }

  /** The create and edit schemas declare each field once. */
  lemma TaskNamesDistinct()
    ensures DistinctNames(CreateTaskSchema) && DistinctNames(EditTaskSchema)
  {
    var s := CreateTaskSchema;
    assert s[0].name == Title && s[1].name == Description && s[2].name == Notes && s[3].name == DueDate;
    assert s[4].name == Status && s[5].name == Priority && s[6].name == AssignedToId;
  }

  /** The enumeration checks of the schema are the status and priority parsers. */
  lemma EnumFieldsParse(vals: TaskValues)
    ensures Status in vals ==>
      (CheckField(Plain(ZNativeEnum(Entities.TaskStatusValues)), Get(vals, Status)).None? <==> StatusOk(vals))
    ensures Priority in vals ==>
      (CheckField(Plain(ZNativeEnum(Entities.TaskPriorityValues)), Get(vals, Priority)).None? <==> PriorityOk(vals))
  {
    if Status in vals && vals[Status].Str? {
      Entities.TaskStatusValuesExact(vals[Status].s, Entities.New);
    }
    if Priority in vals && vals[Priority].Str? {
      Entities.TaskPriorityValuesExact(vals[Priority].s, Entities.Low);
    }
  }

  /** Each field's check in the create schema is the rule written for it. */
  lemma FieldRules(vals: TaskValues)
    ensures var s := CreateTaskSchema;
      && |s| == 7
      && (CheckField(s[0].schema, Get(vals, s[0].name)).None? <==> TitleOk(vals))
      && (CheckField(s[1].schema, Get(vals, s[1].name)).None? <==> TextOk(vals, Description))
      && (CheckField(s[2].schema, Get(vals, s[2].name)).None? <==> TextOk(vals, Notes))
      && (CheckField(s[3].schema, Get(vals, s[3].name)).None? <==> DueDateOk(vals))
      && (CheckField(s[4].schema, Get(vals, s[4].name)).None? <==> StatusOk(vals))
      && (CheckField(s[5].schema, Get(vals, s[5].name)).None? <==> PriorityOk(vals))
      && (CheckField(s[6].schema, Get(vals, s[6].name)).None? <==> AssigneeOk(vals))
  {
    EnumFieldsParse(vals);
  }

  /** The create schema accepts exactly the complete new tasks. */
  lemma CreateTaskAcceptsIff(vals: TaskValues)
    ensures Accepts(CreateTaskSchema, vals) <==> ValidNewTask(vals)
  {
    AcceptsIff(CreateTaskSchema, vals);
    FieldRules(vals);
  }

  /** Checking only the fields that are present is the edit rule. */
  lemma PresentFieldRules(vals: TaskValues)
    ensures PresentFieldsPass(CreateTaskSchema, vals) <==> ValidTaskEdit(vals)
  {
    var s := CreateTaskSchema;
    FieldRules(vals);
    assert s[0].name == Title && s[1].name == Description && s[2].name == Notes && s[3].name == DueDate;
    assert s[4].name == Status && s[5].name == Priority && s[6].name == AssignedToId;
  }

  /** The edit schema accepts exactly the task edits. */
  lemma EditTaskAcceptsIff(vals: TaskValues)
    ensures Accepts(EditTaskSchema, vals) <==> ValidTaskEdit(vals)
  {
    PartialAcceptsIff(CreateTaskSchema, vals);
    PresentFieldRules(vals);
  }

  /** Every form the create schema accepts, the edit schema accepts too; the empty form is a valid edit. */
  lemma CreateImpliesEdit(vals: TaskValues)
    ensures Accepts(CreateTaskSchema, vals) ==> Accepts(EditTaskSchema, vals)
    ensures Accepts(EditTaskSchema, map[])
  {
    if Accepts(CreateTaskSchema, vals) {
      PartialWeakens(CreateTaskSchema, vals);
    }
    EditTaskAcceptsIff(map[]);
  }

  /** A missing assignee is reported on its field with the schema's own message. */
  lemma MissingAssigneeReported(vals: TaskValues)
    requires AssignedToId !in vals
    ensures Issue(AssignedToId, Required(AssigneeMessage)) in Issues(CreateTaskSchema, vals)
  {
    IssuesAreFieldScoped(CreateTaskSchema, vals);
    assert CreateTaskSchema[6].name == AssignedToId;
  }

  /** A title shorter than three characters is reported on its field. */
  lemma ShortTitleReported(vals: TaskValues)
    requires Title in vals && vals[Title].Str? && |vals[Title].s| < 3
    ensures Issue(Title, TooSmall(3, TitleMessage)) in Issues(CreateTaskSchema, vals)
    ensures Issue(Title, TooSmall(3, TitleMessage)) in Issues(EditTaskSchema, vals)
  {
    IssuesAreFieldScoped(CreateTaskSchema, vals);
    IssuesAreFieldScoped(EditTaskSchema, vals);
    PartialField(CreateTaskSchema, 0, vals);
  }
}
