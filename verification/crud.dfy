/**
 * What the task and user CRUD dialogs share: the mode a dialog is mounted
 * in, the answer of the entity service, and the observable events a
 * submission produces (service call, toast, `onClose`, reload).
 */
module Crud {
  import opened Wrappers
  import opened Zod
  import opened TaskSchema
  import opened UserSchema

  /** The `mode` prop of a CRUD dialog. */
  datatype Mode = Create | Edit | Delete

  /**
   * The entity service's answer to one call: it resolved, or it rejected,
   * carrying the server's `response.data.message` when the response had one.
   */
  datatype Outcome = Ok | Err(serverMessage: Option<string>)

  /** A call to the entity service, with the payload or id it was given. */
  datatype Request =
    | CreateTask(task: TaskValues)
    | UpdateTask(id: int, task: TaskValues)
    | DeleteTask(id: int)
    | CreateUser(user: UserValues)
    | UpdateUser(id: int, user: UserValues)
    | DeleteUser(id: int)

  /** One observable step of a submission. `Close` is the parent's `onClose`, `Reload` its reload intent. */
  datatype Event =
    | Call(request: Request)
    | ToastSuccess(message: string)
    | ToastError(message: string)
    | Close
    | Reload

  /** How a failed call chooses its error toast. */
  datatype FailureText =
    | ServerOr(fallback: string)   // `error?.response?.data?.message || fallback`
    | Fixed(message: string)       // a constant message; any server message is ignored

  /** The error toast for a failed call. */
  function FailureToast(t: FailureText, o: Outcome): (m: string)
    requires o.Err?
    ensures t.Fixed? ==> m == t.message
    ensures t.ServerOr? ==> m == t.fallback || (o.serverMessage == Some(m) && m != "")
    ensures t.ServerOr? && o.serverMessage.Some? && o.serverMessage.value != "" ==> m == o.serverMessage.value
  {
    match t
    case Fixed(msg) => msg
    case ServerOr(fallback) =>
      if o.serverMessage.Some? && o.serverMessage.value != "" then o.serverMessage.value else fallback
  }

  /**
   * The events of one submission that reached the service: the call; then,
   * when it resolved, the success toast, `onClose` and the reload, in that
   * order; when it rejected, only the error toast.
   */
  function Submission(req: Request, o: Outcome, success: string, failure: FailureText): (r: seq<Event>) {
    [Call(req)] + if o.Ok? then [ToastSuccess(success), Close, Reload] else [ToastError(FailureToast(failure, o))]
  }

  /** A submission calls the service exactly once, first; it closes and reloads exactly when the call resolved. */
  lemma SubmissionOrder(req: Request, o: Outcome, success: string, failure: FailureText)
    ensures var r := Submission(req, o, success, failure);
      && r[0] == Call(req)
      && (forall i | 0 < i < |r| :: !r[i].Call?)
      && (Close in r <==> o.Ok?)
      && (Reload in r <==> o.Ok?)
      && (o.Ok? ==> |r| == 4 && r[1] == ToastSuccess(success) && r[2] == Close && r[3] == Reload)
      && (o.Err? ==> |r| == 2 && r[1].ToastError? && forall e | e in r :: !e.ToastSuccess?)
  {
  }
}
