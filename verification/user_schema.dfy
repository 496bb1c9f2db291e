/**
 * The user form schemas: `createUserSchema`, all four fields required, and
 * `editUserSchema`, which extends it by replacing only the password rule.
 */
module UserSchema {
  import opened Wrappers
  import opened Zod

  /** The fields of the user forms; `Username` is the form's `user` field (the login handle). */
  datatype UserField = Fullname | Username | Password | Role

  type UserValues = Values<UserField>

  const FullnameMessage := "El nombre completo es requerido"
  const UserMessage := "El usuario es requerido"
  const PasswordMessage := "La contraseña debe tener al menos 6 caracteres"
  const RoleMessage := "El rol es requerido"

  const CreateUserSchema: ObjectSchema<UserField> := [
    Field(Fullname, Plain(ZString(1, FullnameMessage))),
    Field(Username, Plain(ZString(1, UserMessage))),
    Field(Password, Plain(ZString(6, PasswordMessage))),
    Field(Role, Plain(ZString(1, RoleMessage)))
  ]

  /** `z.string().min(6).optional().nullable().or(z.literal(''))`. */
  const RelaxedPassword: Field<UserField> := Field(Password, FieldSchema(ZString(6, PasswordMessage), true, true, true))

  const EditUserSchema: ObjectSchema<UserField> := Extend(CreateUserSchema, RelaxedPassword)

  // The rules each field states, written directly on the values.

  predicate NonEmpty(vals: UserValues, name: UserField) {
    name in vals && vals[name].Str? && vals[name].s != ""
  }

  predicate PasswordOk(vals: UserValues) {
    Password in vals && vals[Password].Str? && |vals[Password].s| >= 6
  }

  /** On edit the password may be left out, null or empty; otherwise it needs six characters. */
  predicate EditPasswordOk(vals: UserValues) {
    Password !in vals || vals[Password] == Null || vals[Password] == Str("") || PasswordOk(vals)
  }

  predicate ValidNewUser(vals: UserValues) {
    NonEmpty(vals, Fullname) && NonEmpty(vals, Username) && PasswordOk(vals) && NonEmpty(vals, Role)
  }

  predicate ValidUserEdit(vals: UserValues) {
    NonEmpty(vals, Fullname) && NonEmpty(vals, Username) && EditPasswordOk(vals) && NonEmpty(vals, Role)
  }

  /** `extend` keeps fullname, user and role as they were and puts the relaxed rule where the password was. */
  lemma EditUserSchemaShape()
    ensures EditUserSchema == CreateUserSchema[2 := RelaxedPassword]
  {
    var s, f := CreateUserSchema, RelaxedPassword;
    assert Extend(s[2..], f) == [f] + s[3..];
    assert Extend(s[1..], f) == [s[1]] + Extend(s[2..], f);
    assert Extend(s, f) == [s[0]] + Extend(s[1..], f);
  }

  /** The create schema accepts exactly the complete new users. */
  lemma CreateUserAcceptsIff(vals: UserValues)
    ensures Accepts(CreateUserSchema, vals) <==> ValidNewUser(vals)
  {
    var s := CreateUserSchema;
    AcceptsIff(s, vals);
    assert CheckField(s[0].schema, Get(vals, s[0].name)).None? <==> NonEmpty(vals, Fullname);
    assert CheckField(s[1].schema, Get(vals, s[1].name)).None? <==> NonEmpty(vals, Username);
    assert CheckField(s[2].schema, Get(vals, s[2].name)).None? <==> PasswordOk(vals);
    assert CheckField(s[3].schema, Get(vals, s[3].name)).None? <==> NonEmpty(vals, Role);
  }

  /** The edit schema accepts exactly the user edits: names and role still required, password relaxed. */
  lemma EditUserAcceptsIff(vals: UserValues)
    ensures Accepts(EditUserSchema, vals) <==> ValidUserEdit(vals)
  {
    EditUserSchemaShape();
    var s := EditUserSchema;
    AcceptsIff(s, vals);
    assert CheckField(s[0].schema, Get(vals, s[0].name)).None? <==> NonEmpty(vals, Fullname);
    assert CheckField(s[1].schema, Get(vals, s[1].name)).None? <==> NonEmpty(vals, Username);
    assert CheckField(s[2].schema, Get(vals, s[2].name)).None? <==> EditPasswordOk(vals);
    assert CheckField(s[3].schema, Get(vals, s[3].name)).None? <==> NonEmpty(vals, Role);
  }

  /** Every form the create schema accepts, the edit schema accepts too. */
  lemma CreateUserImpliesEdit(vals: UserValues)
    requires Accepts(CreateUserSchema, vals)
    ensures Accepts(EditUserSchema, vals)
  {
    CreateUserAcceptsIff(vals);
    EditUserAcceptsIff(vals);
  }

  /** A password of one to five characters is rejected on edit, with the length message. */
  lemma ShortEditPasswordReported(vals: UserValues)
    requires Password in vals && vals[Password].Str? && 1 <= |vals[Password].s| < 6
    ensures !Accepts(EditUserSchema, vals)
    ensures Issue(Password, TooSmall(6, PasswordMessage)) in Issues(EditUserSchema, vals)
  {
    EditUserSchemaShape();
    IssuesAreFieldScoped(EditUserSchema, vals);
    assert CheckField(EditUserSchema[2].schema, Get(vals, Password)) == Some(TooSmall(6, PasswordMessage));
  }

  /** The role is any non-empty string: the schema does not restrict it to the roles the form offers. */
  lemma RoleIsFreeText(vals: UserValues, role: string)
    requires ValidNewUser(vals) && role != ""
    ensures Accepts(CreateUserSchema, vals[Role := Str(role)])
    ensures Accepts(EditUserSchema, vals[Role := Str(role)])
  {
    CreateUserAcceptsIff(vals[Role := Str(role)]);
    CreateUserImpliesEdit(vals[Role := Str(role)]);
  }
}
