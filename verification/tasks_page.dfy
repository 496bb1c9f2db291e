/**
 * The tasks page: the task list, the details drawer and the CRUD dialog,
 * with the state that ties them together. The page's handlers are the
 * transitions of this state; the service answers are parameters, `None`
 * standing for a call that rejected.
 */
module TasksPage {
  import opened Wrappers
  import opened Entities
  import opened Crud
  import TaskCrud
  import TaskSchema

  const LoadTasksFailed := "Error al cargar las tareas"

  class TasksPage {
    var tasks: seq<Task>
    var users: seq<User>
    var detailsOpen: bool
    var crudOpen: bool
    var crudMode: Mode
    var loading: bool
    var error: Option<string>
    var selectedTask: Option<Task>

    /**
     * The page's invariant: outside create mode a task is selected. Every
     * handler that leaves create mode selects the task it was given, and
     * nothing clears the selection except going back to create mode.
     */
    predicate Valid()
      reads this
    {
      !crudMode.Create? ==> selectedTask.Some?
    }

    /** The initial state: nothing loaded yet, loading, both overlays closed, create mode. */
    constructor ()
      ensures tasks == [] && users == [] && !detailsOpen && !crudOpen && crudMode == Create
      ensures loading && error.None? && selectedTask.None?
      ensures Valid()
    {
      tasks := [];
      users := [];
      detailsOpen := false;
      crudOpen := false;
      crudMode := Create;
      loading := true;
      error := None;
      selectedTask := None;
    }

    /** `loadTasks` up to its `await`: loading, and any earlier error cleared. */
    method StartLoadTasks()
      requires Valid()
      modifies this
      ensures loading && error.None?
      ensures tasks == old(tasks) && users == old(users) && detailsOpen == old(detailsOpen) && crudOpen == old(crudOpen)
      ensures crudMode == old(crudMode) && selectedTask == old(selectedTask)
      ensures Valid()
    {
      loading := true;
      error := None;
    }

    /**
     * `loadTasks` after its `await`: the fetched list replaces the tasks, or
     * a rejected call sets the error and keeps the tasks; loading ends either way.
     */
    method FinishLoadTasks(fetched: Option<seq<Task>>)
      requires Valid()
      modifies this
      ensures !loading
      ensures tasks == if fetched.Some? then fetched.value else old(tasks)
      ensures error == if fetched.Some? then old(error) else Some(LoadTasksFailed)
      ensures users == old(users) && detailsOpen == old(detailsOpen) && crudOpen == old(crudOpen)
      ensures crudMode == old(crudMode) && selectedTask == old(selectedTask)
      ensures Valid()
    {
      if fetched.Some? {
        tasks := fetched.value;
      } else {
        error := Some(LoadTasksFailed);
      }
      loading := false;
    }

    /** The whole of `loadTasks`, on mount or as the CRUD dialog's reload. */
    method LoadTasks(fetched: Option<seq<Task>>)
      requires Valid()
      modifies this
      ensures !loading
      ensures tasks == if fetched.Some? then fetched.value else old(tasks)
      ensures error == if fetched.Some? then None else Some(LoadTasksFailed)
      ensures users == old(users) && detailsOpen == old(detailsOpen) && crudOpen == old(crudOpen)
      ensures crudMode == old(crudMode) && selectedTask == old(selectedTask)
      ensures Valid()
    {
      StartLoadTasks();
      FinishLoadTasks(fetched);
    }

    /** `loadUsers`: the fetched users replace the list; a rejected call changes nothing the page shows. */
    method LoadUsers(fetched: Option<seq<User>>)
      requires Valid()
      modifies this
      ensures users == if fetched.Some? then fetched.value else old(users)
      ensures tasks == old(tasks) && loading == old(loading) && error == old(error)
      ensures detailsOpen == old(detailsOpen) && crudOpen == old(crudOpen)
      ensures crudMode == old(crudMode) && selectedTask == old(selectedTask)
      ensures Valid()
    {
      if fetched.Some? {
        users := fetched.value;
      }
    }

    /** `handleEdit`: select the task and open the dialog in edit mode. */
    method HandleEdit(t: Task)
      requires Valid()
      modifies this
      ensures selectedTask == Some(t) && crudMode == Edit && crudOpen
      ensures DetailsProps() == (Some(t), old(detailsOpen))
      ensures tasks == old(tasks) && users == old(users) && detailsOpen == old(detailsOpen)
      ensures loading == old(loading) && error == old(error)
      ensures Valid()
    {
      selectedTask := Some(t);
      crudMode := Edit;
      crudOpen := true;
    }

    /** `handleDelete`: select the task and open the dialog in delete mode. */
    method HandleDelete(t: Task)
      requires Valid()
      modifies this
      ensures selectedTask == Some(t) && crudMode == Delete && crudOpen
      ensures DetailsProps() == (Some(t), old(detailsOpen))
      ensures tasks == old(tasks) && users == old(users) && detailsOpen == old(detailsOpen)
      ensures loading == old(loading) && error == old(error)
      ensures Valid()
    {
      selectedTask := Some(t);
      crudMode := Delete;
      crudOpen := true;
    }

    /** `handleOpenDetails`: select the task and open the drawer; the dialog's state is untouched. */
    method HandleOpenDetails(t: Task)
      requires Valid()
      modifies this
      ensures selectedTask == Some(t) && detailsOpen
      ensures DetailsProps() == (Some(t), true)
      ensures crudOpen == old(crudOpen) && crudMode == old(crudMode)
      ensures tasks == old(tasks) && users == old(users) && loading == old(loading) && error == old(error)
      ensures Valid()
    {
      selectedTask := Some(t);
      detailsOpen := true;
    }

    /** `handleCreate`: clear the selection and open the dialog in create mode. */
    method HandleCreate()
      requires Valid()
      modifies this
      ensures selectedTask.None? && crudMode == Create && crudOpen
      ensures DetailsProps() == (None, old(detailsOpen))
      ensures tasks == old(tasks) && users == old(users) && detailsOpen == old(detailsOpen)
      ensures loading == old(loading) && error == old(error)
      ensures Valid()
    {
      selectedTask := None;
      crudMode := Create;
      crudOpen := true;
    }

    /** The drawer's `onClose`: only the drawer closes. */
    method CloseDetails()
      requires Valid()
      modifies this
      ensures !detailsOpen
      ensures DetailsProps() == (old(selectedTask), false)
      ensures selectedTask == old(selectedTask) && crudOpen == old(crudOpen) && crudMode == old(crudMode)
      ensures tasks == old(tasks) && users == old(users) && loading == old(loading) && error == old(error)
      ensures Valid()
    {
      detailsOpen := false;
    }

    /** The dialog's `onClose`: only the dialog closes; the selection and the mode stay. */
    method CloseCrud()
      requires Valid()
      modifies this
      ensures !crudOpen
      ensures selectedTask == old(selectedTask) && crudMode == old(crudMode) && detailsOpen == old(detailsOpen)
      ensures tasks == old(tasks) && users == old(users) && loading == old(loading) && error == old(error)
      ensures Valid()
    {
      crudOpen := false;
    }

    /** The drawer's props: the selected task, shown while the drawer is open. */
    function DetailsProps(): (p: (Option<Task>, bool))
      reads this
      ensures p.1 <==> detailsOpen
      ensures p.0.Some? <==> selectedTask.Some?
      ensures p.0.Some? ==> p.0.value == selectedTask.value
    {
      (selectedTask, detailsOpen)
    }

    /**
     * Rendering the page mounts a CRUD dialog exactly when `crudOpen` holds,
     * with the page's mode, selection and users. Because of the invariant, a
     * dialog mounted in edit or delete mode always has its task, so it never
     * takes its render-nothing branch.
     */
    method MountCrud() returns (c: TaskCrud.TaskCrud?)
      requires Valid()
      ensures c != null <==> crudOpen
      ensures c != null ==> fresh(c) && c.mode == crudMode && c.task == selectedTask && c.users == users
      ensures c != null ==> c.Dialog() == Some(crudMode)
      ensures c != null && crudMode.Edit? ==> c.editValues == TaskCrud.Prefill(selectedTask.value)
      ensures c != null && !crudMode.Edit? ==> c.editValues == map[]
      ensures c != null ==> c.createSchema == TaskSchema.CreateTaskSchema && c.editSchema == TaskSchema.EditTaskSchema
      ensures c != null ==> c.createValues == TaskCrud.CreateDefaults
      ensures c != null ==> c.createErrors == map[] && c.editErrors == map[] && !c.createSubmitted && !c.editSubmitted
      ensures c != null ==> c.trace == []
    {
      if !crudOpen {
        return null;
      }
      c := new TaskCrud.TaskCrud(crudMode, selectedTask, users);
    }
  }
}
