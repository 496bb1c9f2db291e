/**
 * The part of the zod schema language the forms use, as data with an
 * interpreter: object schemas whose fields are strings with a minimum length,
 * native string enums or numbers, each optionally `.optional()`,
 * `.nullable()` or `.or(z.literal(''))`; and the two schema transformers the
 * forms derive their edit schemas with, `.partial()` and `.extend()`.
 *
 * A form's values are the object react-hook-form hands to the resolver: a map
 * from field name to value, where a missing key stands for `undefined`.
 */
module Zod {
  import opened Wrappers

  /** A defined JavaScript value a form field can hold. */
  datatype Value = Null | Str(s: string) | Num(n: int)

  /** A form's values, keyed by the entity's field names. */
  type Values<K> = map<K, Value>

  /** The value of a field, `None` when it is undefined. */
  function Get<K>(vals: Values<K>, name: K): (r: Option<Value>)
    ensures r.Some? <==> name in vals
    ensures r.Some? ==> r.value == vals[name]
  {
    if name in vals then Some(vals[name]) else None
  }

  /** The base type of a field schema. */
  datatype Base =
    | ZString(min: nat, minMessage: string)     // z.string().min(min, minMessage); min 0 is no minimum
    | ZNativeEnum(options: seq<string>)         // z.nativeEnum(E) over a string enum
    | ZNumber(requiredError: Option<string>)    // z.number({ required_error })

  /** A base type with its modifiers. */
  datatype FieldSchema = FieldSchema(base: Base, optional: bool, nullable: bool, orEmptyLiteral: bool)

  /** A base type with no modifier: the value must be present. */
  function Plain(b: Base): (f: FieldSchema) {
    FieldSchema(b, false, false, false)
  }

  /** `b.optional()`. */
  function Opt(b: Base): (f: FieldSchema) {
    FieldSchema(b, true, false, false)
  }

  datatype Field<K> = Field(name: K, schema: FieldSchema)

  /** `z.object({...})`: the fields in declaration order. */
  type ObjectSchema<K> = seq<Field<K>>

  /** What a failing field reports (zod's issue codes, with the message where the schema sets one). */
  datatype IssueCode =
    | Required(message: string)                 // invalid_type, received undefined
    | InvalidType                               // invalid_type, received a defined value of another type
    | TooSmall(minimum: nat, message: string)   // too_small
    | InvalidEnumValue                          // invalid_enum_value
    | InvalidUnion                              // invalid_union

  /** A field-scoped validation error. */
  datatype Issue<K> = Issue(path: K, code: IssueCode)

  /** zod's own message for a missing required value. */
  const DefaultRequiredMessage := "Required"

  function RequiredMessage(b: Base): (m: string) {
    if b.ZNumber? && b.requiredError.Some? then b.requiredError.value else DefaultRequiredMessage
  }

  /** The base type's check on a defined value. */
  function CheckBase(b: Base, v: Value): (r: Option<IssueCode>) {
    match b
    case ZString(min, msg) =>
      if !v.Str? then Some(InvalidType)
      else if |v.s| < min then Some(TooSmall(min, msg))
      else None
    case ZNativeEnum(options) =>
      if v.Null? then Some(InvalidType)
      else if v.Str? && v.s in options then None
      else Some(InvalidEnumValue)
    case ZNumber(_) =>
      if v.Num? then None else Some(InvalidType)
  }

  /**
   * The issue one field reports, if any. Of a union with the empty literal,
   * zod reports the first branch's issue when that branch got past the type
   * check (a too-short string) and `invalid_union` otherwise.
   */
  function CheckField(f: FieldSchema, v: Option<Value>): (r: Option<IssueCode>) {
    if f.orEmptyLiteral && v == Some(Str("")) then None
    else
      var inner :=
        match v
        case None => if f.optional then None else Some(Required(RequiredMessage(f.base)))
        case Some(x) => if x.Null? && f.nullable then None else CheckBase(f.base, x);
      if f.orEmptyLiteral && inner.Some? && !inner.value.TooSmall? then Some(InvalidUnion) else inner
  }

  /** The issues of a whole object, field by field in declaration order. */
  function Issues<K>(s: ObjectSchema<K>, vals: Values<K>): (r: seq<Issue<K>>) {
    if s == [] then []
    else
      var head := match CheckField(s[0].schema, Get(vals, s[0].name))
        case None => []
        case Some(c) => [Issue(s[0].name, c)];
      head + Issues(s[1..], vals)
  }

  function Names<K>(s: ObjectSchema<K>): (r: set<K>) {
    set i | 0 <= i < |s| :: s[i].name
  }

  /** The values of an object schema's fields; zod strips every other key. */
  function Output<K>(s: ObjectSchema<K>, vals: Values<K>): (out: Values<K>)
    ensures out.Keys == vals.Keys * Names(s)
    ensures forall k | k in out :: out[k] == vals[k]
  {
    map k | k in vals.Keys * Names(s) :: vals[k]
  }

  /** `schema.safeParse(values)`: the parsed object, or the list of issues. */
  function Parse<K>(s: ObjectSchema<K>, vals: Values<K>): (r: Result<Values<K>, seq<Issue<K>>>) {
    var issues := Issues(s, vals);
    if issues == [] then Success(Output(s, vals)) else Failure(issues)
  }

  /** The schema accepts the values. */
  predicate Accepts<K>(s: ObjectSchema<K>, vals: Values<K>) {
    Issues(s, vals) == []
  }

  /** `schema.partial()`: every field becomes optional. */
  function Partial<K>(s: ObjectSchema<K>): (p: ObjectSchema<K>)
    ensures |p| == |s|
    ensures forall i | 0 <= i < |s| :: p[i] == Field(s[i].name, s[i].schema.(optional := true))
  {
    if s == [] then [] else [Field(s[0].name, s[0].schema.(optional := true))] + Partial(s[1..])
  }

  /** `schema.extend({ name: f })`: the field of that name is replaced in place, or added last. */
  function Extend<K(==)>(s: ObjectSchema<K>, f: Field<K>): (r: ObjectSchema<K>) {
    if s == [] then [f]
    else if s[0].name == f.name then [f] + s[1..]
    else [s[0]] + Extend(s[1..], f)
  }

  /**
   * react-hook-form's `errors` object after a resolver run: one entry per
   * failing field, holding that field's first issue.
   */
  function FieldErrors<K>(issues: seq<Issue<K>>): (m: map<K, IssueCode>)
    ensures forall k | k in m :: Issue(k, m[k]) in issues
  {
    if issues == [] then map[] else FieldErrors(issues[1..])[issues[0].path := issues[0].code]
  }

  /** Every field an issue names has an entry, and the entry of the first issue's field is that issue. */
  lemma {:induction false} FieldErrorsKeys<K>(issues: seq<Issue<K>>)
    ensures forall e | e in issues :: e.path in FieldErrors(issues)
    ensures issues != [] ==> FieldErrors(issues)[issues[0].path] == issues[0].code
  {
    if issues != [] {
      FieldErrorsKeys(issues[1..]);
      assert forall e | e in issues :: e == issues[0] || e in issues[1..];
    }
  }

  /**
   * Validating one field (`setValue` with `shouldValidate`, or a change
   * re-validated after a submit): the resolver runs on the whole form, and
   * only that field's entry of `errors` is set from its result or cleared.
   */
  function RevalidateField<K>(errors: map<K, IssueCode>, s: ObjectSchema<K>, vals: Values<K>, name: K)
    : (r: map<K, IssueCode>)
    ensures r - {name} == errors - {name}
    ensures name in r <==> name in FieldErrors(Issues(s, vals))
    ensures name in r ==> r[name] == FieldErrors(Issues(s, vals))[name]
  {
    var current := FieldErrors(Issues(s, vals));
    if name in current then errors[name := current[name]] else errors - {name}
  }

  /** No two fields of the schema share a name (true of every object literal). */
  predicate DistinctNames<K(==)>(s: ObjectSchema<K>) {
    forall i, j | 0 <= i < j < |s| :: s[i].name != s[j].name
  }

  // ---------------------------------------------------------------------
  // Properties of the interpreter

  /** An object is accepted exactly when each of its fields passes its own check. */
  lemma {:induction false} AcceptsIff<K>(s: ObjectSchema<K>, vals: Values<K>)
    ensures Accepts(s, vals) <==> forall i | 0 <= i < |s| :: CheckField(s[i].schema, Get(vals, s[i].name)).None?
    ensures Parse(s, vals).Success? <==> Accepts(s, vals)
  {
    if s != [] {
      AcceptsIff(s[1..], vals);
      assert forall i | 1 <= i < |s| :: s[i] == s[1..][i - 1];
    }
  }

  /** Every issue names a field of the schema, and every failing field reports its issue. */
  lemma {:induction false} IssuesAreFieldScoped<K>(s: ObjectSchema<K>, vals: Values<K>)
    ensures forall e | e in Issues(s, vals) :: e.path in Names(s)
    ensures forall i | 0 <= i < |s| && CheckField(s[i].schema, Get(vals, s[i].name)).Some? ::
      Issue(s[i].name, CheckField(s[i].schema, Get(vals, s[i].name)).value) in Issues(s, vals)
  {
    if s != [] {
      IssuesAreFieldScoped(s[1..], vals);
      assert Names(s) == {s[0].name} + Names(s[1..]) by {
        forall k | k in Names(s) ensures k in {s[0].name} + Names(s[1..]) {
          var i :| 0 <= i < |s| && s[i].name == k;
          if i > 0 { assert s[1..][i - 1] == s[i]; }
        }
      }
      forall i | 1 <= i < |s| ensures s[i] == s[1..][i - 1] { }
    }
  }

  /** The errors of an object are those of its tail, updated by the first field's issue. */
  lemma FieldErrorsStep<K>(s: ObjectSchema<K>, vals: Values<K>)
    requires s != []
    ensures var c := CheckField(s[0].schema, Get(vals, s[0].name));
      var rest := FieldErrors(Issues(s[1..], vals));
      FieldErrors(Issues(s, vals)) == if c.None? then rest else rest[s[0].name := c.value]
  {
    var c := CheckField(s[0].schema, Get(vals, s[0].name));
    var l := Issues(s, vals);
    if c.None? {
      assert l == Issues(s[1..], vals);
    } else {
      assert l == [Issue(s[0].name, c.value)] + Issues(s[1..], vals);
      assert l[0] == Issue(s[0].name, c.value) && l[1..] == Issues(s[1..], vals);
    }
  }

  /** A name no field of the schema declares has no entry in the errors. */
  lemma UndeclaredHasNoError<K>(s: ObjectSchema<K>, vals: Values<K>, name: K)
    requires name !in Names(s)
    ensures name !in FieldErrors(Issues(s, vals))
  {
    IssuesAreFieldScoped(s, vals);
  }

  /**
   * With distinct names, a field's entry in `errors` after a resolver run is
   * exactly the issue of that field's own check: present when the check
   * fails, absent when it passes.
   */
  lemma {:induction false} FieldErrorIsCheck<K>(s: ObjectSchema<K>, vals: Values<K>, i: nat)
    requires i < |s| && DistinctNames(s)
    ensures var m := FieldErrors(Issues(s, vals));
      var c := CheckField(s[i].schema, Get(vals, s[i].name));
      && (s[i].name in m <==> c.Some?)
      && (s[i].name in m ==> m[s[i].name] == c.value)
  {
    var t := s[1..];
    FieldErrorsStep(s, vals);
    if i == 0 {
      assert s[0].name !in Names(t) by {
        forall j | 0 <= j < |t| ensures t[j].name != s[0].name {
          assert t[j] == s[j + 1];
        }
      }
      UndeclaredHasNoError(t, vals, s[0].name);
    } else {
      assert DistinctNames(t) by {
        forall a, b | 0 <= a < b < |t| ensures t[a].name != t[b].name {
          assert t[a] == s[a + 1] && t[b] == s[b + 1];
        }
      }
      assert t[i - 1] == s[i];
      FieldErrorIsCheck(t, vals, i - 1);
      assert s[0].name != s[i].name;
    }
  }

  /** Making a field optional never rejects a value the field accepted, and changes nothing for defined values. */
  lemma OptionalWeakensField(f: FieldSchema, v: Option<Value>)
    ensures CheckField(f, v).None? ==> CheckField(f.(optional := true), v).None?
    ensures v.Some? ==> CheckField(f.(optional := true), v) == CheckField(f, v)
    ensures CheckField(f.(optional := true), None).None?
  {
  }

  /** `.partial()` accepts every object the original schema accepts. */
  lemma PartialWeakens<K>(s: ObjectSchema<K>, vals: Values<K>)
    requires Accepts(s, vals)
    ensures Accepts(Partial(s), vals)
  {
    AcceptsIff(s, vals);
    AcceptsIff(Partial(s), vals);
    forall i | 0 <= i < |s| ensures CheckField(Partial(s)[i].schema, Get(vals, s[i].name)).None? {
      OptionalWeakensField(s[i].schema, Get(vals, s[i].name));
    }
  }

  /** Under `.partial()` a field may be absent, and a present field is checked as before. */
  lemma PartialField<K>(s: ObjectSchema<K>, i: nat, vals: Values<K>)
    requires i < |s|
    ensures Partial(s)[i].name == s[i].name
    ensures CheckField(Partial(s)[i].schema, None).None?
    ensures s[i].name in vals ==>
      CheckField(Partial(s)[i].schema, Get(vals, s[i].name)) == CheckField(s[i].schema, Get(vals, s[i].name))
  {
    OptionalWeakensField(s[i].schema, Get(vals, s[i].name));
  }

  /** `.partial()` declares the same fields. */
  lemma PartialNames<K>(s: ObjectSchema<K>)
    ensures Names(Partial(s)) == Names(s)
  {
    forall k | k in Names(s) ensures k in Names(Partial(s)) {
      var i :| 0 <= i < |s| && s[i].name == k;
      assert Partial(s)[i].name == k;
    }
  }

  /** Every field that is present passes its check. */
  predicate PresentFieldsPass<K>(s: ObjectSchema<K>, vals: Values<K>) {
    forall i | 0 <= i < |s| :: s[i].name in vals ==> CheckField(s[i].schema, Get(vals, s[i].name)).None?
  }

  /** `.partial()` accepts an object exactly when each field is either absent or passes its original check. */
  lemma PartialAcceptsIff<K>(s: ObjectSchema<K>, vals: Values<K>)
    ensures Accepts(Partial(s), vals) <==> PresentFieldsPass(s, vals)
  {
    AcceptsIff(Partial(s), vals);
    forall i | 0 <= i < |s| {
      PartialField(s, i, vals);
    }
  }
}
