/**
 * The records the dashboard shows and edits: tasks and users, with the two
 * closed enumerations a task carries (its status and its priority).
 * Timestamps and ids are server-assigned; the client only reads them.
 */
module Entities {
  import opened Wrappers

  /** The status of a task; `Value` is the wire string of each member. */
  datatype TaskStatus = New | Pending | InProgress | Completed | InReview | Done {
    function Value(): (r: string) {
      match this
      case New => "new"
      case Pending => "pending"
      case InProgress => "in_progress"
      case Completed => "completed"
      case InReview => "in_review"
      case Done => "done"
    }
  }

  /** The priority of a task; `Value` is the wire string of each member. */
  datatype TaskPriority = Low | Medium | High | Critical {
    function Value(): (r: string) {
      match this
      case Low => "low"
      case Medium => "medium"
      case High => "high"
      case Critical => "critical"
    }
  }

  /** The enumeration's values in declaration order (what `Object.values` yields). */
  const TaskStatusValues: seq<string> := ["new", "pending", "in_progress", "completed", "in_review", "done"]
  const TaskPriorityValues: seq<string> := ["low", "medium", "high", "critical"]

  /** The wire string back to the status it names, if any. */
  function ParseTaskStatus(s: string): (r: Option<TaskStatus>)
    ensures r.Some? ==> r.value.Value() == s
    ensures r.None? ==> forall st: TaskStatus :: st.Value() != s
  {
    if s == "new" then Some(New)
    else if s == "pending" then Some(Pending)
    else if s == "in_progress" then Some(InProgress)
    else if s == "completed" then Some(Completed)
    else if s == "in_review" then Some(InReview)
    else if s == "done" then Some(Done)
    else None
  }

  /** The wire string back to the priority it names, if any. */
  function ParseTaskPriority(s: string): (r: Option<TaskPriority>)
    ensures r.Some? ==> r.value.Value() == s
    ensures r.None? ==> forall p: TaskPriority :: p.Value() != s
  {
    if s == "low" then Some(Low)
    else if s == "medium" then Some(Medium)
    else if s == "high" then Some(High)
    else if s == "critical" then Some(Critical)
    else None
  }

  /** The value list holds exactly the wire strings of the members, and parsing inverts `Value`. */
  lemma TaskStatusValuesExact(s: string, st: TaskStatus)
    ensures s in TaskStatusValues <==> ParseTaskStatus(s).Some?
    ensures ParseTaskStatus(st.Value()) == Some(st)
    ensures st.Value() in TaskStatusValues
  {
  }

  lemma TaskPriorityValuesExact(s: string, p: TaskPriority)
    ensures s in TaskPriorityValues <==> ParseTaskPriority(s).Some?
    ensures ParseTaskPriority(p.Value()) == Some(p)
    ensures p.Value() in TaskPriorityValues
  {
  }

  /** A user as the server returns it (the password is write-only and never read back). */
  datatype User = User(id: int, user: string, fullname: string, role: string, createdAt: string, updatedAt: string)

  /** A task as the server returns it; `description` and `notes` may be missing. */
  datatype Task = Task(
    id: int,
    title: string,
    description: Option<string>,
    notes: Option<string>,
    dueDate: string,
    status: TaskStatus,
    priority: TaskPriority,
    assignedTo: User,
    createdAt: string,
    updatedAt: string)
}
