/**
 * The user CRUD dialog. It declares its own copy of the user schemas, holds
 * the create and edit forms, and on edit drops a blank password from what
 * it sends, so that leaving the field empty keeps the current password.
 */
module UserCrud {
  import opened Wrappers
  import opened Zod
  import opened Entities
  import opened Crud
  import opened UserSchema

  const CreatedMessage := "Usuario creado correctamente"
  const UpdatedMessage := "Usuario actualizado correctamente"
  const DeletedMessage := "Usuario eliminado correctamente"
  const CreateFailed := "Error al crear el usuario"
  const UpdateFailed := "Error al actualizar el usuario"
  const DeleteFailed := "Error al eliminar el usuario"

  /** The dialog's own `createUserSchema`. */
  const LocalCreateUserSchema: ObjectSchema<UserField> := [
    Field(Fullname, Plain(ZString(1, "El nombre completo es requerido"))),
    Field(Username, Plain(ZString(1, "El usuario es requerido"))),
    Field(Password, Plain(ZString(6, "La contraseña debe tener al menos 6 caracteres"))),
    Field(Role, Plain(ZString(1, "El rol es requerido")))
  ]

  /** The dialog's own `editUserSchema`: the password becomes optional, nullable or empty. */
  const LocalEditUserSchema: ObjectSchema<UserField> := Extend(LocalCreateUserSchema,
    Field(Password, FieldSchema(ZString(6, "La contraseña debe tener al menos 6 caracteres"), true, true, true)))

  /** The dialog's copies declare the same schemas as the shared schema module. */
  lemma LocalSchemasAgree()
    ensures LocalCreateUserSchema == CreateUserSchema
    ensures LocalEditUserSchema == EditUserSchema
    ensures forall vals: UserValues :: Accepts(LocalEditUserSchema, vals) <==> ValidUserEdit(vals)
  {
    forall vals: UserValues ensures Accepts(LocalEditUserSchema, vals) <==> ValidUserEdit(vals) {
      EditUserAcceptsIff(vals);
    }
  }

  /** The create form's `defaultValues`: every field empty. */
  const CreateDefaults: UserValues := map[Fullname := Str(""), Username := Str(""), Password := Str(""), Role := Str("")]

  /** The edit form after the mount effect copied the user into it; the password field starts empty. */
  function Prefill(u: User): (r: UserValues) {
    map[Fullname := Str(u.fullname), Username := Str(u.user), Role := Str(u.role), Password := Str("")]
  }

  /** JavaScript falsiness of a defined value (`undefined` is the missing key). */
  predicate Falsy(v: Value) {
    v == Null || v == Str("") || v == Num(0)
  }

  /** `{ ...data, password: data.password || undefined }`; a key set to `undefined` is not sent. */
  function EditPayload(data: UserValues): (r: UserValues) {
    if HasPassword(data) then data else data - {Password}
  }

  /** `data.password` is truthy. */
  predicate HasPassword(data: UserValues) {
    Password in data && !Falsy(data[Password])
  }

  /** The edit payload keeps a truthy password, drops a falsy or missing one, and leaves every other field as it was. */
  lemma EditPayloadFields(data: UserValues)
    ensures Password in EditPayload(data) <==> Password in data && !Falsy(data[Password])
    ensures forall k | k != Password :: (k in EditPayload(data) <==> k in data)
    ensures forall k | k in EditPayload(data) :: EditPayload(data)[k] == data[k]
  {
  }

  /** Submitting the create defaults unchanged never reaches the service: every field fails. */
  lemma CreateDefaultsRejected()
    ensures Issues(LocalCreateUserSchema, CreateDefaults) == [
      Issue(Fullname, TooSmall(1, FullnameMessage)),
      Issue(Username, TooSmall(1, UserMessage)),
      Issue(Password, TooSmall(6, PasswordMessage)),
      Issue(Role, TooSmall(1, RoleMessage))
    ]
  {
    var s, v := LocalCreateUserSchema, CreateDefaults;
    assert Issues(s[3..], v) == [Issue(Role, TooSmall(1, RoleMessage))];
    assert Issues(s[2..], v) == [Issue(Password, TooSmall(6, PasswordMessage))] + Issues(s[3..], v);
    assert Issues(s[1..], v) == [Issue(Username, TooSmall(1, UserMessage))] + Issues(s[2..], v);
  }

  /** The pre-filled edit form is a valid edit exactly when the user's name, handle and role are non-empty. */
  lemma PrefillAccepted(u: User)
    ensures Accepts(LocalEditUserSchema, Prefill(u)) <==> u.fullname != "" && u.user != "" && u.role != ""
    ensures Prefill(u)[Fullname] == Str(u.fullname) && Prefill(u)[Username] == Str(u.user)
    ensures Prefill(u)[Role] == Str(u.role) && Prefill(u)[Password] == Str("")
  {
    LocalSchemasAgree();
    EditUserAcceptsIff(Prefill(u));
  }

  /** What a create submission hands to the service: the form as typed, and a complete new user. */
  lemma ParsedCreateIsNewUser(vals: UserValues)
    requires Parse(LocalCreateUserSchema, vals).Success?
    ensures Parse(LocalCreateUserSchema, vals).value == vals
    ensures ValidNewUser(vals)
  {
    LocalSchemasAgree();
    AcceptsIff(LocalCreateUserSchema, vals);
    CreateUserAcceptsIff(vals);
    var s := LocalCreateUserSchema;
    forall k: UserField ensures k in Names(s) {
      var i := match k case Fullname => 0 case Username => 1 case Password => 2 case Role => 3;
      assert s[i].name == k;
    }
  }

  /** The edit schema declares every field of the form, so parsing strips nothing. */
  lemma EditSchemaDeclaresAll(vals: UserValues)
    ensures Output(LocalEditUserSchema, vals) == vals
  {
    LocalSchemasAgree();
    EditUserSchemaShape();
    var s := LocalEditUserSchema;
    assert s[0].name == Fullname && s[1].name == Username && s[2].name == Password && s[3].name == Role;
    forall k: UserField ensures k in Names(s) {
      var i := match k case Fullname => 0 case Username => 1 case Password => 2 case Role => 3;
      assert s[i].name == k;
    }
  }

  /**
   * What an accepted edit sends: name, handle and role as typed, each
   * non-empty; the password exactly when a non-empty one was typed, and then
   * one of at least six characters, never a blank or null one.
   */
  lemma EditPayloadOfAcceptedForm(vals: UserValues)
    requires Accepts(LocalEditUserSchema, vals)
    ensures var r := EditPayload(Output(LocalEditUserSchema, vals));
      && (forall k | k != Password :: k in r && r[k] == vals[k] && r[k].Str? && r[k].s != "")
      && (Password in r <==> Password in vals && vals[Password].Str? && vals[Password].s != "")
      && (Password in r ==> r[Password] == vals[Password] && |r[Password].s| >= 6)
  {
    LocalSchemasAgree();
    EditUserAcceptsIff(vals);
    EditSchemaDeclaresAll(vals);
    EditPayloadFields(vals);
  }

  /**
   * Choosing a role in either form re-validates that field: it has an error,
   * the schema's length message, exactly when the role is empty; the other
   * fields' errors stay as they were.
   */
  lemma PickedRoleValidated(errors: map<UserField, IssueCode>, vals: UserValues, role: string)
    ensures var r := RevalidateField(errors, LocalCreateUserSchema, vals[Role := Str(role)], Role);
      && (Role in r <==> role == "")
      && (Role in r ==> r[Role] == TooSmall(1, RoleMessage))
      && r - {Role} == errors - {Role}
    ensures var r := RevalidateField(errors, LocalEditUserSchema, vals[Role := Str(role)], Role);
      && (Role in r <==> role == "")
      && (Role in r ==> r[Role] == TooSmall(1, RoleMessage))
      && r - {Role} == errors - {Role}
  {
    var v := vals[Role := Str(role)];
    LocalSchemasAgree();
    EditUserSchemaShape();
    var s, e := LocalCreateUserSchema, LocalEditUserSchema;
    assert s[0].name == Fullname && s[1].name == Username && s[2].name == Password && s[3].name == Role;
    assert e[0].name == Fullname && e[1].name == Username && e[2].name == Password && e[3].name == Role;
    FieldErrorIsCheck(s, v, 3);
    FieldErrorIsCheck(e, v, 3);
  }

  class UserCrud {
    const mode: Mode
    const user: Option<User>
    /** The create form's resolver schema. */
    const createSchema: ObjectSchema<UserField>
    /** The edit form's resolver schema. */
    const editSchema: ObjectSchema<UserField>
    var createValues: UserValues
    var editValues: UserValues
    /** react-hook-form's `errors` of each form: the issue of each failing field. */
    var createErrors: map<UserField, IssueCode>
    var editErrors: map<UserField, IssueCode>
    /** Whether each form has been submitted; from then on a typed change re-validates its field. */
    var createSubmitted: bool
    var editSubmitted: bool
    var trace: seq<Event>

    /** Mounting: both forms are created, then the effect pre-fills the edit form or resets the create form. */
    constructor (mode: Mode, user: Option<User>)
      ensures this.mode == mode && this.user == user
      ensures createSchema == LocalCreateUserSchema && editSchema == LocalEditUserSchema
      ensures createValues == CreateDefaults
      ensures editValues == if mode.Edit? && user.Some? then Prefill(user.value) else map[]
      ensures createErrors == map[] && editErrors == map[] && !createSubmitted && !editSubmitted && trace == []
    {
      this.mode := mode;
      this.user := user;
      createSchema := LocalCreateUserSchema;
      editSchema := LocalEditUserSchema;
      createValues := CreateDefaults;
      editValues := map[];
      createErrors := map[];
      editErrors := map[];
      createSubmitted := false;
      editSubmitted := false;
      trace := [];
      new;
      if mode.Edit? && user.Some? {
        var u := user.value;
        SetEditValue(Fullname, Str(u.fullname), false);
        SetEditValue(Username, Str(u.user), false);
        SetEditValue(Role, Str(u.role), false);
        SetEditValue(Password, Str(""), false);
      } else if mode.Create? {
        createValues := CreateDefaults;
      }
    }

    /** The dialog this mount renders; `None` is the component returning `null`. */
    function Dialog(): (d: Option<Mode>)
      ensures d.Some? ==> d.value == mode
      ensures d.None? <==> !mode.Create? && user.None?
    {
      if mode.Create? || user.Some? then Some(mode) else None
    }

    /**
     * `setValue` on the create form: the field takes the value; with
     * `shouldValidate` its entry of `errors` is recomputed by the resolver.
     */
    method SetCreateValue(name: UserField, v: Value, shouldValidate: bool)
      modifies this
      ensures createValues == old(createValues)[name := v]
      ensures createErrors == if shouldValidate then RevalidateField(old(createErrors), createSchema, createValues, name)
        else old(createErrors)
      ensures editValues == old(editValues) && editErrors == old(editErrors) && trace == old(trace)
      ensures createSubmitted == old(createSubmitted) && editSubmitted == old(editSubmitted)
    {
      createValues := createValues[name := v];
      if shouldValidate {
        createErrors := RevalidateField(createErrors, createSchema, createValues, name);
      }
    }

    /** Typing into a registered input of the create form: re-validated only once the form was submitted. */
    method TypeCreateValue(name: UserField, v: Value)
      modifies this
      ensures createValues == old(createValues)[name := v]
      ensures createErrors == if old(createSubmitted) then RevalidateField(old(createErrors), createSchema, createValues, name)
        else old(createErrors)
      ensures editValues == old(editValues) && editErrors == old(editErrors) && trace == old(trace)
      ensures createSubmitted == old(createSubmitted) && editSubmitted == old(editSubmitted)
    {
      SetCreateValue(name, v, createSubmitted);
    }

    /**
     * `setValue` on the edit form: the field takes the value; with
     * `shouldValidate` its entry of `errors` is recomputed by the resolver.
     */
    method SetEditValue(name: UserField, v: Value, shouldValidate: bool)
      modifies this
      ensures editValues == old(editValues)[name := v]
      ensures editErrors == if shouldValidate then RevalidateField(old(editErrors), editSchema, editValues, name)
        else old(editErrors)
      ensures createValues == old(createValues) && createErrors == old(createErrors) && trace == old(trace)
      ensures createSubmitted == old(createSubmitted) && editSubmitted == old(editSubmitted)
    {
      editValues := editValues[name := v];
      if shouldValidate {
        editErrors := RevalidateField(editErrors, editSchema, editValues, name);
      }
    }

    /** Typing into a registered input of the edit form: re-validated only once the form was submitted. */
    method TypeEditValue(name: UserField, v: Value)
      modifies this
      ensures editValues == old(editValues)[name := v]
      ensures editErrors == if old(editSubmitted) then RevalidateField(old(editErrors), editSchema, editValues, name)
        else old(editErrors)
      ensures createValues == old(createValues) && createErrors == old(createErrors) && trace == old(trace)
      ensures createSubmitted == old(createSubmitted) && editSubmitted == old(editSubmitted)
    {
      SetEditValue(name, v, editSubmitted);
    }

    /** Submitting the create form: validated, then the parsed values go to the service. */
    method SubmitCreate(o: Outcome)
      modifies this
      ensures createErrors == FieldErrors(Issues(createSchema, old(createValues))) && createSubmitted
      ensures trace == old(trace) + match Parse(createSchema, old(createValues))
        case Failure(_) => []
        case Success(data) => Submission(CreateUser(data), o, CreatedMessage, ServerOr(CreateFailed))
      ensures createValues == old(createValues) && editValues == old(editValues) && editErrors == old(editErrors)
      ensures editSubmitted == old(editSubmitted)
    {
      createSubmitted := true;
      var parsed := Parse(createSchema, createValues);
      if parsed.Failure? {
        createErrors := FieldErrors(parsed.error);
        return;
      }
      createErrors := map[];
      trace := trace + [Call(CreateUser(parsed.value))];
      if o.Ok? {
        trace := trace + [ToastSuccess(CreatedMessage)];
        trace := trace + [Close];
        trace := trace + [Reload];
      } else {
        trace := trace + [ToastError(FailureToast(ServerOr(CreateFailed), o))];
      }
    }

    /** Submitting the edit form: validated, then, when there is a user, an update of its id without a blank password. */
    method SubmitEdit(o: Outcome)
      modifies this
      ensures editErrors == FieldErrors(Issues(editSchema, old(editValues))) && editSubmitted
      ensures trace == old(trace) + match Parse(editSchema, old(editValues))
        case Failure(_) => []
        case Success(data) =>
          if user.None? then []
          else Submission(UpdateUser(user.value.id, EditPayload(data)), o, UpdatedMessage, Fixed(UpdateFailed))
      ensures createValues == old(createValues) && editValues == old(editValues) && createErrors == old(createErrors)
      ensures createSubmitted == old(createSubmitted)
    {
      editSubmitted := true;
      var parsed := Parse(editSchema, editValues);
      if parsed.Failure? {
        editErrors := FieldErrors(parsed.error);
        return;
      }
      editErrors := map[];
      if user.None? {
        return;
      }
      var updateData := EditPayload(parsed.value);
      trace := trace + [Call(UpdateUser(user.value.id, updateData))];
      if o.Ok? {
        trace := trace + [ToastSuccess(UpdatedMessage)];
        trace := trace + [Close];
        trace := trace + [Reload];
      } else {
        trace := trace + [ToastError(FailureToast(Fixed(UpdateFailed), o))];
      }
    }

    /** Confirming the deletion: when there is a user, the service deletes its id. */
    method Delete(o: Outcome)
      modifies this
      ensures trace == old(trace) +
        if user.None? then [] else Submission(DeleteUser(user.value.id), o, DeletedMessage, Fixed(DeleteFailed))
      ensures createValues == old(createValues) && editValues == old(editValues)
      ensures createErrors == old(createErrors) && editErrors == old(editErrors)
      ensures createSubmitted == old(createSubmitted) && editSubmitted == old(editSubmitted)
    {
      if user.None? {
        return;
      }
      trace := trace + [Call(DeleteUser(user.value.id))];
      if o.Ok? {
        trace := trace + [ToastSuccess(DeletedMessage)];
        trace := trace + [Close];
        trace := trace + [Reload];
      } else {
        trace := trace + [ToastError(FailureToast(Fixed(DeleteFailed), o))];
      }
    }
  }
}
