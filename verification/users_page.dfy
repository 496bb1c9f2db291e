/**
 * The users page: the user list, the details drawer and the CRUD dialog.
 * Here the dialog has no separate open flag: it is mounted exactly while a
 * mode is set. The service answers are parameters, `None` standing for a
 * call that rejected.
 */
module UsersPage {
  import opened Wrappers
  import opened Entities
  import opened Crud
  import UserCrud

  const LoadUsersFailed := "Error al cargar los usuarios"

  class UsersPage {
    var users: seq<User>
    var loading: bool
    var error: Option<string>
    var selectedUser: Option<User>
    var detailsOpen: bool
    /** `None` is the `null` mode: no dialog. */
    var crudMode: Option<Mode>

    /**
     * The page's invariant: while a dialog is up, a user is selected exactly
     * when the mode is not create.
     */
    predicate Valid()
      reads this
    {
      crudMode.Some? ==> (selectedUser.None? <==> crudMode.value.Create?)
    }

    /** The initial state: nothing loaded yet, loading, no selection, no dialog. */
    constructor ()
      ensures users == [] && loading && error.None? && selectedUser.None? && !detailsOpen && crudMode.None?
      ensures Valid()
    {
      users := [];
      loading := true;
      error := None;
      selectedUser := None;
      detailsOpen := false;
      crudMode := None;
    }

    /** `loadUsers` up to its `await`: loading, and any earlier error cleared. */
    method StartLoadUsers()
      requires Valid()
      modifies this
      ensures loading && error.None?
      ensures users == old(users) && selectedUser == old(selectedUser) && detailsOpen == old(detailsOpen)
      ensures crudMode == old(crudMode)
      ensures Valid()
    {
      loading := true;
      error := None;
    }

    /**
     * `loadUsers` after its `await`: the fetched list replaces the users, or
     * a rejected call sets the error and empties the list; loading ends either way.
     */
    method FinishLoadUsers(fetched: Option<seq<User>>)
      requires Valid()
      modifies this
      ensures !loading
      ensures users == if fetched.Some? then fetched.value else []
      ensures error == if fetched.Some? then old(error) else Some(LoadUsersFailed)
      ensures selectedUser == old(selectedUser) && detailsOpen == old(detailsOpen) && crudMode == old(crudMode)
      ensures Valid()
    {
      if fetched.Some? {
        users := fetched.value;
      } else {
        error := Some(LoadUsersFailed);
        users := [];
      }
      loading := false;
    }

    /** The whole of `loadUsers`, on mount or as the CRUD dialog's reload. */
    method LoadUsers(fetched: Option<seq<User>>)
      requires Valid()
      modifies this
      ensures !loading
      ensures users == if fetched.Some? then fetched.value else []
      ensures error == if fetched.Some? then None else Some(LoadUsersFailed)
      ensures selectedUser == old(selectedUser) && detailsOpen == old(detailsOpen) && crudMode == old(crudMode)
      ensures Valid()
    {
      StartLoadUsers();
      FinishLoadUsers(fetched);
    }

    /** `handleOpenDetails`: select the user, open the drawer and take down any dialog. */
    method HandleOpenDetails(u: User)
      requires Valid()
      modifies this
      ensures selectedUser == Some(u) && detailsOpen && crudMode.None?
      ensures DetailsUserId() == Some(u.id)
      ensures users == old(users) && loading == old(loading) && error == old(error)
      ensures Valid()
    {
      selectedUser := Some(u);
      detailsOpen := true;
      crudMode := None;
    }

    /** `handleEdit`: select the user and show the dialog in edit mode; the drawer is left as it was. */
    method HandleEdit(u: User)
      requires Valid()
      modifies this
      ensures selectedUser == Some(u) && crudMode == Some(Edit)
      ensures DetailsUserId() == Some(u.id)
      ensures detailsOpen == old(detailsOpen)
      ensures users == old(users) && loading == old(loading) && error == old(error)
      ensures Valid()
    {
      selectedUser := Some(u);
      crudMode := Some(Edit);
    }

    /** `handleDelete`: select the user and show the dialog in delete mode; the drawer is left as it was. */
    method HandleDelete(u: User)
      requires Valid()
      modifies this
      ensures selectedUser == Some(u) && crudMode == Some(Delete)
      ensures DetailsUserId() == Some(u.id)
      ensures detailsOpen == old(detailsOpen)
      ensures users == old(users) && loading == old(loading) && error == old(error)
      ensures Valid()
    {
      selectedUser := Some(u);
      crudMode := Some(Delete);
    }

    /** `handleCreate`: clear the selection and show the dialog in create mode. */
    method HandleCreate()
      requires Valid()
      modifies this
      ensures selectedUser.None? && crudMode == Some(Create)
      ensures DetailsUserId().None?
      ensures detailsOpen == old(detailsOpen)
      ensures users == old(users) && loading == old(loading) && error == old(error)
      ensures Valid()
    {
      selectedUser := None;
      crudMode := Some(Create);
    }

    /** `handleCloseCRUD`: take down the dialog and clear the selection. */
    method HandleCloseCrud()
      requires Valid()
      modifies this
      ensures crudMode.None? && selectedUser.None?
      ensures DetailsUserId().None?
      ensures detailsOpen == old(detailsOpen)
      ensures users == old(users) && loading == old(loading) && error == old(error)
      ensures Valid()
    {
      crudMode := None;
      selectedUser := None;
    }

    /** The drawer's `onClose`: only the drawer closes. */
    method CloseDetails()
      requires Valid()
      modifies this
      ensures !detailsOpen
      ensures selectedUser == old(selectedUser) && crudMode == old(crudMode)
      ensures users == old(users) && loading == old(loading) && error == old(error)
      ensures Valid()
    {
      detailsOpen := false;
    }

    /** The drawer's `userId` prop: the selected user's id, or `null` when nothing is selected. */
    function DetailsUserId(): (r: Option<int>)
      reads this
      ensures r.Some? <==> selectedUser.Some?
      ensures r.Some? ==> r.value == selectedUser.value.id
    {
      if selectedUser.Some? then Some(selectedUser.value.id) else None
    }

    /**
     * Rendering the page mounts a CRUD dialog exactly when a mode is set,
     * with that mode and the selection. Because of the invariant, a dialog
     * in edit or delete mode always has its user and always renders.
     */
    method MountCrud() returns (c: UserCrud.UserCrud?)
      requires Valid()
      ensures c != null <==> crudMode.Some?
      ensures c != null ==> fresh(c) && Some(c.mode) == crudMode && c.user == selectedUser
      ensures c != null ==> c.Dialog() == crudMode
      ensures c != null && crudMode == Some(Edit) ==> c.editValues == UserCrud.Prefill(selectedUser.value)
      ensures c != null && crudMode != Some(Edit) ==> c.editValues == map[]
      ensures c != null ==> c.createSchema == UserCrud.LocalCreateUserSchema && c.editSchema == UserCrud.LocalEditUserSchema
      ensures c != null ==> c.createValues == UserCrud.CreateDefaults
      ensures c != null ==> c.createErrors == map[] && c.editErrors == map[] && !c.createSubmitted && !c.editSubmitted
      ensures c != null ==> c.trace == []
    {
      if crudMode.None? {
        return null;
      }
      c := new UserCrud.UserCrud(crudMode.value, selectedUser);
    }
  }
}
