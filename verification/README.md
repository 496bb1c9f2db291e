# Task and user dashboard: a Dafny model of its client core

The dashboard is a React front end for managing tasks and users. This
project models the parts of it that have behaviour beyond rendering, and
proves properties of that model:

- **Label translation** (`translateBadge`). A total lookup from the status,
  priority and role keys to Spanish display labels. Unknown keys pass
  through unchanged. It is modelled as a function, checked against a
  reference table lookup.
- **Validation schemas.** The zod schemas for tasks and users, including the
  copy of the user schemas declared inside the user dialog. The subset of
  zod the forms use is an interpreter over schema data (module `Zod`):
  - strings with a minimum length, native string enums and numbers;
  - the modifiers `.optional()`, `.nullable()` and `.or(z.literal(''))`;
  - the derivations `.partial()` and `.extend()`.

  Each concrete schema is proved equal to a predicate written directly on
  the form values.
- **CRUD dialogs** (`TaskCRUD`, `UserCRUD`). Each is a class holding:
  - the mode of the mount;
  - the target entity;
  - the create and edit form values;
  - each form's per-field errors, and whether it has been submitted;
  - a trace of observable events: service call, success or error toast,
    `onClose`, reload.

  The entity service is a parameter: it answers `Ok`, or `Err` with the
  server's message when there is one. Every submit method is proved
  against the specification function `Crud.Submission`.
- **Pages** (`Tasks`, `Users`). Each is a class with the page's state
  fields. The handlers and the load routine are methods. Each page keeps
  an invariant that ties the dialog mode to the selection. Mounting the
  dialog is a method that creates the dialog object with the page's props.

Form values are maps from a field name to a defined value (`null`, a string
or an integer). A missing key is `undefined`. Field names are a datatype per
entity. A task form therefore has no id field, and the create payload cannot
carry one. The update targets the `id` of the dialog's `task` or `user`
prop, which is a separate argument of the request.

Points where the code's behaviour is easy to misread, each followed by the
model:

- The tasks page's dialog `onClose` only closes the dialog. It keeps the
  selection and the mode (`src/pages/tasks/Tasks.tsx:96`). The users page
  clears both.
- The user edit schema keeps `fullname`, `user` and `role` required. Only
  the password is relaxed (`src/schemas/user.schema.ts:10-17`).
- The role is any non-empty string (`src/schemas/user.schema.ts:7`). The
  schemas do not restrict it to admin, user and maintainer.
- Edit and delete failures show a fixed message. They ignore the server's
  message, which only create failures use
  (`src/components/tasks/TaskCRUD.tsx:130` and `:144`).

## Model

| member | source | states |
|---|---|---|
| Translate.TranslateIsLookup | src/lib/translate.ts:1-35 | on every string, the switch agrees with a lookup in the 13-entry key/label table, whose default returns the key |
| Translate.KnownKey | src/lib/translate.ts:4-31 | each of the 13 keys maps to the label listed beside it, e.g. high to Alto and admin to Administrador |
| Translate.UnknownKeyPassesThrough | src/lib/translate.ts:32-33 | a string that is not one of the 13 keys comes back unchanged |
| Translate.LabelsInjective | src/lib/translate.ts:4-31 | two known keys with the same label are the same key |
| Translate.TranslateIdempotent | src/lib/translate.ts:4-33 | no label is a key, so translating twice equals translating once |
| Translate.KeysAreTheEnumerations | src/lib/translate.ts:4-31 | the known keys are exactly the status values, the priority values and the three role strings |
| Translate.TableKeys | src/lib/translate.ts:4-31 | the table lists each of the 13 keys exactly once |
| Translate.LookupHit | src/lib/translate.ts:4-31 | in a table without repeated keys, looking up an entry's key gives that entry's label |
| Translate.LookupMissing | src/lib/translate.ts:32-33 | looking up a key the table lacks gives the key back |
| Entities.ParseTaskStatus | src/types/task.ts:4-11 | a result names a status whose wire string is the input; no result means that no status has that wire string |
| Entities.ParseTaskPriority | src/types/task.ts:13-19 | the same for priorities |
| Entities.TaskStatusValuesExact | src/types/task.ts:4-11 | the enum's value list holds exactly the strings that parse, and parsing inverts the wire string |
| Entities.TaskPriorityValuesExact | src/types/task.ts:13-19 | the same for priorities |
| Zod.AcceptsIff | src/schemas/task.schema.ts:4-12 | an object is accepted, and parses successfully, exactly when every field passes its own check |
| Zod.IssuesAreFieldScoped | src/schemas/task.schema.ts:4-12 | every issue names a declared field, and every failing field reports its issue |
| Zod.FieldErrors | src/components/tasks/TaskCRUD.tsx:66 | every entry of the resolver's `errors` is one of the issues, at its field |
| Zod.FieldErrorsKeys | src/components/tasks/TaskCRUD.tsx:66 | every issue's field has an entry, and the first issue of the list fixes its entry |
| Zod.RevalidateField | src/components/tasks/TaskCRUD.tsx:272-274 | re-validating one field sets its entry exactly when the resolver reports an issue on it, to that issue, and leaves every other field's entry as it was |
| Zod.FieldErrorsStep | src/components/tasks/TaskCRUD.tsx:66 | the errors of a schema are those of its later fields, overridden by the first field's issue when it fails |
| Zod.UndeclaredHasNoError | src/components/tasks/TaskCRUD.tsx:66 | a field the schema does not declare never has an error |
| Zod.FieldErrorIsCheck | src/components/tasks/TaskCRUD.tsx:66 | in a schema without repeated names, a field has an error exactly when its own check fails, and the error is that check's issue |
| Zod.Partial | src/schemas/task.schema.ts:14 | `.partial()` keeps each field's name and base rule and makes it optional |
| Zod.OptionalWeakensField | src/schemas/task.schema.ts:14 | an optional field accepts a missing value, and checks a defined value as before |
| Zod.PartialWeakens | src/schemas/task.schema.ts:14 | `.partial()` accepts every object the original schema accepts |
| Zod.PartialField | src/schemas/task.schema.ts:14 | under `.partial()` a field may be missing, and a present field is checked by its original rule |
| Zod.PartialNames | src/schemas/task.schema.ts:14 | `.partial()` declares the same fields |
| Zod.PartialAcceptsIff | src/schemas/task.schema.ts:14 | `.partial()` accepts exactly when every present field passes its original check |
| TaskSchema.EnumFieldsParse | src/schemas/task.schema.ts:9-10 | the native-enum checks accept exactly the strings that parse to a status or a priority |
| TaskSchema.FieldRules | src/schemas/task.schema.ts:4-12 | each field's check is its written rule: title of three or more characters, optional text, non-empty due date, enum status and priority, numeric assignee |
| TaskSchema.CreateSchemaDeclaresAll | src/schemas/task.schema.ts:4-12 | the create schema declares every field of the task form |
| TaskSchema.TaskNamesDistinct | src/schemas/task.schema.ts:4-14 | neither task schema declares a field twice |
| TaskSchema.CreateTaskAcceptsIff | src/schemas/task.schema.ts:4-12 | the create schema accepts exactly the complete new tasks |
| TaskSchema.PresentFieldRules | src/schemas/task.schema.ts:14 | checking only the present fields is the edit rule |
| TaskSchema.EditTaskAcceptsIff | src/schemas/task.schema.ts:14 | the edit schema accepts exactly the objects whose present fields each satisfy their create rule |
| TaskSchema.CreateImpliesEdit | src/schemas/task.schema.ts:4-14 | every object the create schema accepts, the edit schema accepts, and so is the empty object |
| TaskSchema.MissingAssigneeReported | src/schemas/task.schema.ts:11 | a missing assignee is reported on `assignedToId` with "Debes asignar un usuario" |
| TaskSchema.ShortTitleReported | src/schemas/task.schema.ts:5 | a title under three characters is reported on `title` by both schemas |
| UserSchema.EditUserSchemaShape | src/schemas/user.schema.ts:10-17 | `extend` puts the relaxed password rule in the password's place and keeps the other three fields |
| UserSchema.CreateUserAcceptsIff | src/schemas/user.schema.ts:3-8 | the create schema accepts exactly non-empty fullname, user and role with a password of six or more characters |
| UserSchema.EditUserAcceptsIff | src/schemas/user.schema.ts:10-17 | the edit schema still requires non-empty fullname, user and role; it accepts a password that is missing, null, empty or of six or more characters |
| UserSchema.CreateUserImpliesEdit | src/schemas/user.schema.ts:3-17 | every object the create schema accepts, the edit schema accepts |
| UserSchema.ShortEditPasswordReported | src/schemas/user.schema.ts:11-16 | a password of one to five characters is rejected on edit, with the length message |
| UserSchema.RoleIsFreeText | src/schemas/user.schema.ts:7 | any non-empty role is accepted by both schemas |
| Crud.FailureToast | src/components/tasks/TaskCRUD.tsx:113-116 | a fixed text is shown as is; otherwise the server's message is shown when it is non-empty, and the fallback when not |
| Crud.SubmissionOrder | src/components/tasks/TaskCRUD.tsx:107-146 | the service call comes first and only once; on success it is followed by the success toast, `onClose` and the reload, in that order; on failure only the error toast follows, with no close and no reload |
| TaskCrud.CreateDefaultsRejected | src/components/tasks/TaskCRUD.tsx:67-75 | the create defaults fail on title, due date and assignee, in that order and with those messages, so submitting them never calls the service |
| TaskCrud.PrefillAccepted | src/components/tasks/TaskCRUD.tsx:92-104 | the pre-filled edit form is valid exactly when the task's title has three or more characters and its due date is non-empty |
| TaskCrud.PrefillReadsBack | src/components/tasks/TaskCRUD.tsx:93-100 | the pre-fill sets every field; the enum fields parse back to the task's status and priority; title, due date and assignee id are copied; a present description or note is copied, and a missing one becomes the empty string |
| TaskCrud.ParsedCreateIsNewTask | src/components/tasks/TaskCRUD.tsx:107-109 | a create payload is the form as typed, and a complete new task |
| TaskCrud.ParsedEditIsTaskEdit | src/components/tasks/TaskCRUD.tsx:121-124 | an edit payload is the form as typed, and a valid task edit |
| TaskCrud.PickedAssigneeClearsError | src/components/tasks/TaskCRUD.tsx:336-338 | picking an assignee in either form removes that field's error and leaves the other errors as they were |
| TaskCrud.PickedStatusClearsError | src/components/tasks/TaskCRUD.tsx:272-274 | picking a status in either form removes that field's error |
| TaskCrud.PickedPriorityClearsError | src/components/tasks/TaskCRUD.tsx:303-305 | picking a priority in either form removes that field's error |
| TaskCrud.TaskCrud.constructor | src/components/tasks/TaskCRUD.tsx:58-104 | a mount holds the create defaults, and in edit mode with a task, the pre-filled edit form; no errors and neither form submitted, since the pre-fill does not validate |
| TaskCrud.TaskCrud.SetCreateValue | src/components/tasks/TaskCRUD.tsx:272-274 | one field of the create form changes; with `shouldValidate` its error is recomputed and the other errors stay, without it no error changes |
| TaskCrud.TaskCrud.TypeCreateValue | src/components/tasks/TaskCRUD.tsx:171 | typing into a registered create input changes that field; its error is recomputed only once the form has been submitted |
| TaskCrud.TaskCrud.SetEditValue | src/components/tasks/TaskCRUD.tsx:519-521 | one field of the edit form changes; with `shouldValidate` its error is recomputed and the other errors stay, without it no error changes |
| TaskCrud.TaskCrud.TypeEditValue | src/components/tasks/TaskCRUD.tsx:446 | typing into a registered edit input changes that field; its error is recomputed only once the form has been submitted |
| TaskCrud.TaskCrud.SubmitCreate | src/components/tasks/TaskCRUD.tsx:107-118 | the form becomes submitted and its errors become the issues of the create schema per field; a rejected form calls nothing; an accepted one appends the submission of its parsed values, whose failure toast prefers the server's message over "Error al crear la tarea" |
| TaskCrud.TaskCrud.SubmitEdit | src/components/tasks/TaskCRUD.tsx:121-132 | the form becomes submitted with the edit schema's issues as its errors; an accepted edit form updates the id of the task prop, with the fixed failure message; without a task nothing is called |
| TaskCrud.TaskCrud.Delete | src/components/tasks/TaskCRUD.tsx:135-146 | the task prop's id is deleted, with the fixed failure message; without a task nothing happens |
| UserCrud.LocalSchemasAgree | src/components/users/UserCRUD.tsx:26-40 | the dialog's schemas equal the shared ones, so the local edit schema accepts exactly the user edits |
| UserCrud.CreateDefaultsRejected | src/components/users/UserCRUD.tsx:67-72 | the four empty defaults fail on every field, in order, with the four messages |
| UserCrud.PrefillAccepted | src/components/users/UserCRUD.tsx:86-95 | the pre-fill copies fullname, user and role and empties the password; it is valid exactly when those three are non-empty |
| UserCrud.EditPayloadFields | src/components/users/UserCRUD.tsx:117-120 | the edit payload keeps the password exactly when it is present and truthy, and leaves every other field as it was |
| UserCrud.ParsedCreateIsNewUser | src/components/users/UserCRUD.tsx:98-101 | a create payload is the form as typed, and a complete new user |
| UserCrud.EditSchemaDeclaresAll | src/components/users/UserCRUD.tsx:33-40 | the edit schema declares every field of the user form, so parsing strips nothing |
| UserCrud.EditPayloadOfAcceptedForm | src/components/users/UserCRUD.tsx:113-121 | an accepted edit sends non-empty fullname, user and role as typed; it sends the password exactly when a non-empty one was typed, and then it has six or more characters |
| UserCrud.PickedRoleValidated | src/components/users/UserCRUD.tsx:215 | picking a role in either form gives that field an error, the length message, exactly when the role is empty, and leaves the other errors as they were |
| UserCrud.UserCrud.constructor | src/components/users/UserCRUD.tsx:58-95 | a mount holds the empty create defaults, and in edit mode with a user, the pre-filled edit form; no errors and neither form submitted |
| UserCrud.UserCrud.SetCreateValue | src/components/users/UserCRUD.tsx:215 | one field of the create form changes; with `shouldValidate` its error is recomputed and the other errors stay, without it no error changes |
| UserCrud.UserCrud.TypeCreateValue | src/components/users/UserCRUD.tsx:166 | typing into a registered create input changes that field; its error is recomputed only once the form has been submitted |
| UserCrud.UserCrud.SetEditValue | src/components/users/UserCRUD.tsx:335 | one field of the edit form changes; with `shouldValidate` its error is recomputed and the other errors stay, without it no error changes |
| UserCrud.UserCrud.TypeEditValue | src/components/users/UserCRUD.tsx:282 | typing into a registered edit input changes that field; its error is recomputed only once the form has been submitted |
| UserCrud.UserCrud.SubmitCreate | src/components/users/UserCRUD.tsx:98-110 | the form becomes submitted and its errors become the schema's issues per field; a rejected form calls nothing; an accepted one appends the submission, whose failure toast prefers the server's message over "Error al crear el usuario" |
| UserCrud.UserCrud.SubmitEdit | src/components/users/UserCRUD.tsx:113-129 | the form becomes submitted with the edit schema's issues as its errors; an accepted edit form updates the user prop's id with the payload that drops a blank password, with the fixed failure message; without a user nothing is called |
| UserCrud.UserCrud.Delete | src/components/users/UserCRUD.tsx:132-144 | the user prop's id is deleted, with the fixed failure message; without a user nothing happens |
| TasksPage.TasksPage.constructor | src/pages/tasks/Tasks.tsx:11-18 | nothing loaded, loading, both overlays closed, create mode, no selection, no error |
| TasksPage.TasksPage.StartLoadTasks | src/pages/tasks/Tasks.tsx:28-29 | loading starts and the error is cleared |
| TasksPage.TasksPage.FinishLoadTasks | src/pages/tasks/Tasks.tsx:30-36 | fetched tasks replace the list; a failure sets "Error al cargar las tareas" and keeps the list; loading ends either way |
| TasksPage.TasksPage.LoadTasks | src/pages/tasks/Tasks.tsx:26-37 | afterwards loading is false; the error is cleared on success and set on failure; the list is replaced on success and kept on failure |
| TasksPage.TasksPage.LoadUsers | src/pages/tasks/Tasks.tsx:39-46 | fetched users replace the list; a failure changes nothing, and sets no error |
| TasksPage.TasksPage.HandleEdit | src/pages/tasks/Tasks.tsx:56-60 | selects the task and opens the dialog in edit mode; the drawer is handed that task |
| TasksPage.TasksPage.HandleDelete | src/pages/tasks/Tasks.tsx:49-53 | selects the task and opens the dialog in delete mode; the drawer is handed that task |
| TasksPage.TasksPage.HandleOpenDetails | src/pages/tasks/Tasks.tsx:63-66 | selects the task and opens the drawer, whose props become that task and open; the dialog's open flag and mode are unchanged |
| TasksPage.TasksPage.HandleCreate | src/pages/tasks/Tasks.tsx:69-73 | clears the selection and opens the dialog in create mode; the drawer is handed no task |
| TasksPage.TasksPage.CloseDetails | src/pages/tasks/Tasks.tsx:89 | only the drawer closes; its props keep the selected task |
| TasksPage.TasksPage.CloseCrud | src/pages/tasks/Tasks.tsx:96 | only the dialog closes; the selection and the mode stay |
| TasksPage.TasksPage.MountCrud | src/pages/tasks/Tasks.tsx:91-99 | a dialog is mounted exactly when `crudOpen` holds, with the page's mode, selection and users; outside create mode it always has its task, so it always renders; it starts from the two task schemas, the create defaults, no errors, neither form submitted and an empty trace |
| UsersPage.UsersPage.constructor | src/pages/users/Users.tsx:9-14 | nothing loaded, loading, no error, no selection, drawer closed, no dialog |
| UsersPage.UsersPage.StartLoadUsers | src/pages/users/Users.tsx:22-23 | loading starts and the error is cleared |
| UsersPage.UsersPage.FinishLoadUsers | src/pages/users/Users.tsx:24-32 | fetched users replace the list; a failure sets "Error al cargar los usuarios" and empties the list; loading ends either way |
| UsersPage.UsersPage.LoadUsers | src/pages/users/Users.tsx:20-33 | afterwards loading is false; the error is cleared on success and set on failure; the list is the fetched one or empty |
| UsersPage.UsersPage.HandleOpenDetails | src/pages/users/Users.tsx:35-39 | selects the user, opens the drawer with that user's id and takes down any dialog |
| UsersPage.UsersPage.HandleEdit | src/pages/users/Users.tsx:41-44 | selects the user and sets edit mode; the drawer's id is that user's; its open flag is unchanged |
| UsersPage.UsersPage.HandleDelete | src/pages/users/Users.tsx:46-49 | selects the user and sets delete mode; the drawer's id is that user's; its open flag is unchanged |
| UsersPage.UsersPage.HandleCreate | src/pages/users/Users.tsx:51-54 | clears the selection and sets create mode; the drawer's id is null |
| UsersPage.UsersPage.HandleCloseCrud | src/pages/users/Users.tsx:56-59 | clears both the mode and the selection, so the drawer's id is null |
| UsersPage.UsersPage.CloseDetails | src/pages/users/Users.tsx:75 | only the drawer closes |
| UsersPage.UsersPage.MountCrud | src/pages/users/Users.tsx:77-84 | a dialog is mounted exactly when a mode is set, with that mode and the selection; outside create mode it always has its user, so it always renders; it starts from the dialog's two user schemas, the empty create defaults, no errors, neither form submitted and an empty trace |

## Left out

- HTTP transport, the response envelope and the services are not part of this model. A service call is a parameter of the method that makes it: `Ok`, or `Err` with the optional server message.
- The dynamic `import()` of the user service inside the user dialog is not modelled separately. A failure to load it ends in the same catch block, so it counts as an `Err` without a message.
- Asynchronous interleaving is not modelled. Each `await` is a point where the method takes the service's answer; the load routines are split at their `await` into `Start…` and `Finish…`. Overlapping reloads are not modelled.
- The user details drawer's fetch-on-open is not modelled. It has no guard against stale results, so it has no sequential behaviour to state.
- Date handling in the task form is not modelled: the calendar, `toISOString`, and date-fns formatting. `dueDate` is an opaque string.
- Rendering, styling, routing, the list and detail views and the badge colours are not modelled. Only the choice of which dialog renders is kept.
- react-hook-form's `isSubmitting` flag and its re-render mechanics are not modelled. Kept are the rule that a submit handler runs exactly when validation passes, the per-field `errors`, and re-validation of a field on `setValue` with `shouldValidate` or, after a submit, on typing (the default `reValidateMode` of `onChange`).
- The due-date picker's `setValue` (`src/components/tasks/TaskCRUD.tsx:248-251`) does not pass `shouldValidate`; it is `SetCreateValue` or `SetEditValue` with `shouldValidate` false, and its date formatting is left out with the rest of the date handling.
- Toast and `console.log` output are not modelled beyond the messages recorded in the trace.
- Numbers are integers. zod's checks on non-finite or fractional numbers are not modelled.
- String lengths count sequence elements. JavaScript counts UTF-16 code units, which can differ for characters outside the Basic Multilingual Plane.
- A form value that is not `null`, a string or a number (an array or an object) is not modelled.
- UserCrud.EditPayload: `password: undefined` is modelled as the key being absent. The key is not serialised in the request body, but an `in` test would still see it.
- zod messages other than those the schemas set are kept only as the issue code. Examples are the type and enum mismatch texts.
