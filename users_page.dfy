/**
 * The user management page: the list it displays, filtered by unit, the
 * editor dialog it opens, and the controls it offers to the admin unit.
 */
module UsersPage {
  import opened Wrappers
  import opened Objects
  import opened UserStore

  /** The unit whose members administer every user. */
  const AdminUnit: string := "xbot"

  /** `activeUser?.unit === 'xbot'`: nobody signed in is no admin. */
  predicate IsAdmin(active: Option<User>) {
    active.Some? && active.value.unit == AdminUnit
  }

  /** `!filter.unit || user.unit === filter.unit`. */
  predicate Keeps(unit: Option<string>, u: User) {
    unit.None? || unit.value == "" || u.unit == unit.value
  }

  /** `Object.values(allUser).filter(...)`: the users the filter keeps, in cache order. */
  function Filtered(vs: seq<User>, unit: Option<string>): (r: seq<User>)
    ensures |r| <= |vs|
  {
    if vs == [] then []
    else if Keeps(unit, vs[0]) then [vs[0]] + Filtered(vs[1..], unit)
    else Filtered(vs[1..], unit)
  }

  /** The filter shows exactly the cached users of the unit. */
  lemma {:induction false} FilteredMembers(vs: seq<User>, unit: Option<string>, u: User)
    ensures u in Filtered(vs, unit) <==> u in vs && Keeps(unit, u)
  {
    if vs != [] {
      FilteredMembers(vs[1..], unit, u);
      assert u in vs <==> u == vs[0] || u in vs[1..];
    }
  }

  /** With no unit chosen, the filter shows every cached user. */
  lemma {:induction false} FilterNothing(vs: seq<User>, unit: Option<string>)
    requires unit.None? || unit.value == ""
    ensures Filtered(vs, unit) == vs
  {
    if vs != [] {
      FilterNothing(vs[1..], unit);
    }
  }

  /** Filtering keeps cache order: filtering two runs of users is filtering each. */
  lemma {:induction false} FilteredConcat(a: seq<User>, b: seq<User>, unit: Option<string>)
    ensures Filtered(a + b, unit) == Filtered(a, unit) + Filtered(b, unit)
  {
    if a == [] {
      assert a + b == b;
    } else {
      assert (a + b)[0] == a[0] && (a + b)[1..] == a[1..] + b;
      FilteredConcat(a[1..], b, unit);
    }
  }

  /** What the page asks the store to fetch when it opens. */
  datatype FetchFilter = Everything | ByUnit(unit: string)

  /**
   * The initial fetch: the admin unit fetches every user; anyone else
   * fetches their own unit's users, and `''` when nobody is signed in.
   */
  function InitialFetch(active: Option<User>): (f: FetchFilter)
    ensures f.Everything? <==> IsAdmin(active)
    ensures f.ByUnit? ==> f.unit == if active.Some? then active.value.unit else ""
  {
    if IsAdmin(active) then Everything
    else ByUnit(if active.Some? then active.value.unit else "")
  }

  /** The store action a confirmed editor calls: update for a user with a uid, add otherwise. */
  datatype SaveCall = UpdateUser(email: string, info: PartialUser) | AddUser(email: string, info: PartialUser)

  /** A whole record passed where a partial one is expected. */
  function AsPartial(u: User): PartialUser {
    PartialUser(Some(u.uid), Some(u.email), Some(u.avatar), Some(u.displayName), Some(u.unit))
  }

  /** The store caches exactly the record the editor confirmed, under its email. */
  lemma ConfirmedRecordCached(u: User)
    ensures Record(u.email, AsPartial(u)) == u
  {
    RecordOfComplete(u);
  }

  /** The delete button: the admin unit sees it on every row but the signed-in user's own. */
  predicate DeleteOffered(active: Option<User>, u: User) {
    IsAdmin(active) && active.value.email != u.email
  }

  /** Nobody is offered to delete themselves. */
  lemma NoSelfDelete(active: Option<User>)
    requires active.Some?
    ensures !DeleteOffered(active, active.value)
  {
  }

  /** The add, filter and edit controls, and the actions column, show for the admin unit only. */
  predicate AdminControlsShown(active: Option<User>) {
    IsAdmin(active)
  }

  class Page {
    var users: seq<User>
    var userDialog: Option<User>
    var isFilterDropdownOpen: bool

    /** The page as it first renders: nothing listed, no dialog, the dropdown closed. */
    constructor()
      ensures users == [] && userDialog.None? && !isFilterDropdownOpen
    {
      users := [];
      userDialog := None;
      isFilterDropdownOpen := false;
    }

    /** The effect on a cache change: the list resets to every cached user. */
    method CacheChanged(all: Obj<User>)
      modifies this
      ensures users == Values(all)
      ensures userDialog == old(userDialog) && isFilterDropdownOpen == old(isFilterDropdownOpen)
    {
      users := Values(all);
    }

    /** `handleFilter`: the list becomes the cached users of the unit, and the dropdown closes. */
    method HandleFilter(all: Obj<User>, unit: Option<string>)
      modifies this
      ensures users == Filtered(Values(all), unit)
      ensures !isFilterDropdownOpen
      ensures userDialog == old(userDialog)
    {
      users := Filtered(Values(all), unit);
      isFilterDropdownOpen := false;
    }

    /** The filter button toggles the dropdown. */
    method ToggleFilter()
      modifies this
      ensures isFilterDropdownOpen == !old(isFilterDropdownOpen)
      ensures users == old(users) && userDialog == old(userDialog)
    {
      isFilterDropdownOpen := !isFilterDropdownOpen;
    }

    /** "Add user", offered to the admin unit only: the editor opens on a blank record. */
    method OpenAdd(active: Option<User>)
      requires AdminControlsShown(active)
      modifies this
      ensures userDialog == Some(User("", "", "", "", ""))
      ensures users == old(users) && isFilterDropdownOpen == old(isFilterDropdownOpen)
    {
      userDialog := Some(User("", "", "", "", ""));
    }

    /** The edit button on a row, offered to the admin unit only: the editor opens on that user. */
    method OpenEdit(active: Option<User>, u: User)
      requires AdminControlsShown(active)
      modifies this
      ensures userDialog == Some(u)
      ensures users == old(users) && isFilterDropdownOpen == old(isFilterDropdownOpen)
    {
      userDialog := Some(u);
    }

    /**
     * `onConfirm`: a record with a uid is updated, one without is added,
     * both under the record's email; the dialog closes either way.
     */
    method OnConfirm(newUser: User) returns (call: SaveCall)
      modifies this
      ensures call.UpdateUser? <==> newUser.uid != ""
      ensures call.email == newUser.email && call.info == AsPartial(newUser)
      ensures userDialog.None?
      ensures users == old(users) && isFilterDropdownOpen == old(isFilterDropdownOpen)
    {
      if newUser.uid != "" {
        call := UpdateUser(newUser.email, AsPartial(newUser));
      } else {
        call := AddUser(newUser.email, AsPartial(newUser));
      }
      userDialog := None;
    }

    /** Closing the editor without saving. */
    method OnClose()
      modifies this
      ensures userDialog.None?
      ensures users == old(users) && isFilterDropdownOpen == old(isFilterDropdownOpen)
    {
      userDialog := None;
    }
  }
}
