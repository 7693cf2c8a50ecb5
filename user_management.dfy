/**
 * The admin's user-management page: its user filter, and the selection and
 * role-update state its handlers change. An API call a handler awaits is the
 * parameter `succeeded`: when the call throws, the handler changes nothing.
 */
module UserManagement {
  import opened Common

  const ALL: string := "all"
  const DEFAULT_ROLE: string := "Employee"

  /**
   * A user as the page reads it. The page searches `fullName`, which the
   * server's serialised users do not carry (they carry `name`): it is
   * `None` for every user the server sends.
   */
  datatype ManagedUser = ManagedUser(
    id: string, name: string, fullName: Option<string>,
    email: string, department: string, designation: string, role: string)

  datatype RoleUpdate = RoleUpdate(userId: string, role: string)

  /** The search box and the three filter selects. */
  datatype UserFilter = UserFilter(search: string, department: string, designation: string, role: string)

  const NO_FILTER: UserFilter := UserFilter("", ALL, ALL, ALL)

  function UserIds(us: seq<ManagedUser>): (r: seq<string>)
    ensures |r| == |us| && forall i :: 0 <= i < |us| ==> r[i] == us[i].id
  {
    seq(|us|, i requires 0 <= i < |us| => us[i].id)
  }

  // ---------------------------------------------------------------------------
  // The user filter
  // ---------------------------------------------------------------------------

  /** A field takes part in the search only when it is truthy. */
  predicate FieldMatches(field: string, term: string) {
    field != "" && ContainsIgnoringCase(field, term)
  }

  predicate MatchesSearch(u: ManagedUser, term: string) {
    || term == ""
    || (Truthy(u.fullName) && ContainsIgnoringCase(u.fullName.value, term))
    || FieldMatches(u.email, term)
    || FieldMatches(u.department, term)
    || FieldMatches(u.designation, term)
    || FieldMatches(u.role, term)
  }

  predicate Matches(f: UserFilter, u: ManagedUser) {
    && MatchesSearch(u, f.search)
    && (f.department == ALL || u.department == f.department)
    && (f.designation == ALL || u.designation == f.designation)
    && (f.role == ALL || u.role == f.role)
  }

  /** `filteredUsers`. */
  function FilteredUsers(us: seq<ManagedUser>, f: UserFilter): seq<ManagedUser> {
    Filter((u: ManagedUser) => Matches(f, u), us)
  }

  lemma {:induction false} FilterKeepsIdsDistinct(p: ManagedUser -> bool, us: seq<ManagedUser>)
    requires NoDup(UserIds(us))
    ensures NoDup(UserIds(Filter(p, us)))
  {
    if us != [] {
      var ids := UserIds(us);
      assert UserIds(us[1..]) == ids[1..];
      FilterKeepsIdsDistinct(p, us[1..]);
      var rest := Filter(p, us[1..]);
      forall j | 0 <= j < |rest| ensures rest[j].id != us[0].id {
        FilterMembership(p, us[1..], rest[j]);
        var k :| 0 <= k < |us[1..]| && us[1..][k] == rest[j];
        assert ids[k + 1] == rest[j].id;
      }
      if p(us[0]) {
        var r := Filter(p, us);
        assert r == [us[0]] + rest;
        assert UserIds(r) == [us[0].id] + UserIds(rest);
      }
    }
  }

  /**
   * The page lists exactly the users passing the search and the three
   * filters, in their order, with ids still distinct; the empty filter
   * lists everyone.
   */
  lemma FilteredUsersSpec(us: seq<ManagedUser>, f: UserFilter)
    ensures forall u :: u in FilteredUsers(us, f) <==> u in us && Matches(f, u)
    ensures NoDup(UserIds(us)) ==> NoDup(UserIds(FilteredUsers(us, f)))
    ensures FilteredUsers(us, NO_FILTER) == us
  {
    var p := (u: ManagedUser) => Matches(f, u);
    forall u ensures u in FilteredUsers(us, f) <==> u in us && p(u) {
      FilterMembership(p, us, u);
    }
    if NoDup(UserIds(us)) {
      FilterKeepsIdsDistinct(p, us);
    }
    FilterAll((u: ManagedUser) => Matches(NO_FILTER, u), us);
  }

  /**
   * The search never reads `name`: a user sent by the server (no
   * `fullName`) cannot be found by the full name it carries.
   */
  lemma NameSearchMissesServerUsers()
    ensures var u := ManagedUser("1", "Ann Lee", None, "a@x.io", "QA", "Dev", "Admin");
      && ContainsIgnoringCase(u.name, "Ann Lee")
      && !MatchesSearch(u, "Ann Lee")
      && MatchesSearch(u.(fullName := Some(u.name)), "Ann Lee")
  {
    var term := Lower("Ann Lee");
    assert term == Lower("Ann Lee")[0..][..|term|];
  }

  // ---------------------------------------------------------------------------
  // Selection and role updates as values
  // ---------------------------------------------------------------------------

  /** The `handleSelectUser` toggle: drop the id if selected, otherwise append it. */
  function Toggle(selected: seq<string>, id: string): seq<string> {
    if id in selected then RemoveAll(selected, id) else selected + [id]
  }

  /**
   * Toggling flips exactly the id's membership, keeps the selection free of
   * duplicates, and toggling an unselected id twice restores the selection.
   */
  lemma ToggleSpec(selected: seq<string>, id: string)
    ensures forall x :: x in Toggle(selected, id) <==> (if x == id then id !in selected else x in selected)
    ensures NoDup(selected) ==> NoDup(Toggle(selected, id))
    ensures id !in selected ==> Toggle(Toggle(selected, id), id) == selected
  {
    forall x ensures x in Toggle(selected, id) <==> (if x == id then id !in selected else x in selected) {
      RemoveAllMembership(selected, id, x);
    }
    if id in selected {
      if NoDup(selected) {
        RemoveAllNoDup(selected, id);
      }
    } else {
      var once := selected + [id];
      assert once[|selected|] == id;
      RemoveAllAppended(selected, id);
    }
  }

  /** The ids `handleSelectAllUsers` can select: the shown users other than the signed-in one. */
  function SelectableIds(shown: seq<ManagedUser>, me: Option<string>): seq<string> {
    UserIds(Filter((u: ManagedUser) => me.None? || u.id != me.value, shown))
  }

  /**
   * `handleSelectAllUsers`: clear the selection when its size equals the
   * number of selectable users, otherwise select all of them.
   */
  function SelectAll(selected: seq<string>, shown: seq<ManagedUser>, me: Option<string>): seq<string> {
    var selectable := SelectableIds(shown, me);
    if |selected| == |selectable| then [] else selectable
  }

  /**
   * Select-all either clears the selection or selects exactly the shown
   * users other than the signed-in one, each once.
   */
  lemma SelectAllSpec(selected: seq<string>, shown: seq<ManagedUser>, me: Option<string>)
    requires NoDup(UserIds(shown))
    ensures var r := SelectAll(selected, shown, me);
      && NoDup(r)
      && (me.Some? ==> me.value !in r)
      && (r == [] || forall id :: id in r <==> id in UserIds(shown) && (me.None? || id != me.value))
  {
    var p := (u: ManagedUser) => me.None? || u.id != me.value;
    FilterKeepsIdsDistinct(p, shown);
    var kept := Filter(p, shown);
    forall id ensures id in UserIds(kept) <==> id in UserIds(shown) && (me.None? || id != me.value) {
      if id in UserIds(kept) {
        var i :| 0 <= i < |kept| && kept[i].id == id;
        FilterMembership(p, shown, kept[i]);
        var j :| 0 <= j < |shown| && shown[j] == kept[i];
        assert UserIds(shown)[j] == id;
      }
      if id in UserIds(shown) && (me.None? || id != me.value) {
        var j :| 0 <= j < |shown| && shown[j].id == id;
        FilterMembership(p, shown, shown[j]);
        var i :| 0 <= i < |kept| && kept[i] == shown[j];
        assert UserIds(kept)[i] == id;
      }
    }
  }

  /**
   * Select-all compares counts only: with one user selected and a different
   * single user shown, it clears the selection instead of selecting the
   * shown user.
   */
  lemma SelectAllComparesCountsOnly(a: ManagedUser, b: ManagedUser, me: Option<string>)
    requires a.id != b.id && (me.None? || b.id != me.value)
    ensures SelectAll([a.id], [b], me) == []
  {
    var p := (u: ManagedUser) => me.None? || u.id != me.value;
    assert [b][1..] == [];
    assert Filter(p, [b]) == [b];
  }

  /** The role shown for a selected id: the user's role, or "Employee" when missing or empty. */
  function RoleOf(users: seq<ManagedUser>, id: string): string {
    var found := Find((u: ManagedUser) => u.id == id, users);
    if found.Some? && found.value.role != "" then found.value.role else DEFAULT_ROLE
  }

  /** The effect that rebuilds `roleUpdates`: one entry per selected id, in selection order. */
  function RoleUpdatesFor(selected: seq<string>, users: seq<ManagedUser>): seq<RoleUpdate> {
    seq(|selected|, i requires 0 <= i < |selected| => RoleUpdate(selected[i], RoleOf(users, selected[i])))
  }

  /**
   * Each entry pairs a selected id with that user's current role; an id
   * with no user, or a user with an empty role, gets "Employee".
   */
  lemma RoleUpdatesForSpec(selected: seq<string>, users: seq<ManagedUser>)
    requires NoDup(UserIds(users))
    ensures var r := RoleUpdatesFor(selected, users);
      && |r| == |selected|
      && forall i :: 0 <= i < |r| ==>
        && r[i].userId == selected[i]
        && (selected[i] !in UserIds(users) ==> r[i].role == DEFAULT_ROLE)
        && forall u :: u in users && u.id == selected[i] ==>
             r[i].role == (if u.role != "" then u.role else DEFAULT_ROLE)
  {
    forall i, u | 0 <= i < |selected| && u in users && u.id == selected[i]
      ensures RoleOf(users, selected[i]) == (if u.role != "" then u.role else DEFAULT_ROLE)
    {
      var p := (m: ManagedUser) => m.id == selected[i];
      var j :| 0 <= j < |users| && users[j] == u;
      assert p(users[j]);
      var found := Find(p, users);
      FindFirst(p, users);
      var k :| 0 <= k < |users| && users[k] == found.value;
      assert UserIds(users)[k] == UserIds(users)[j];
    }
    forall i | 0 <= i < |selected| && selected[i] !in UserIds(users)
      ensures RoleOf(users, selected[i]) == DEFAULT_ROLE
    {
      if Find((m: ManagedUser) => m.id == selected[i], users).Some? {
        assert false;
      }
    }
  }

  /** `handleUpdateIndividualRole`'s map: the entries for `userId` take the new role. */
  function SetUpdateRole(updates: seq<RoleUpdate>, userId: string, role: string): (r: seq<RoleUpdate>)
    ensures UpdateIds(r) == UpdateIds(updates)
  {
    seq(|updates|, i requires 0 <= i < |updates| =>
      if updates[i].userId == userId then updates[i].(role := role) else updates[i])
  }

  /**
   * After a role is picked for a user, the entry the bulk update reads for
   * that user carries the new role when the user is selected (and there is
   * none otherwise), while every other user's entry is the one it was.
   */
  lemma {:induction false} SetUpdateRoleLookup(updates: seq<RoleUpdate>, userId: string, role: string, other: string)
    ensures UpdateFor(SetUpdateRole(updates, userId, role), userId) ==
      (if userId in UpdateIds(updates) then Some(RoleUpdate(userId, role)) else None)
    ensures other != userId ==> UpdateFor(SetUpdateRole(updates, userId, role), other) == UpdateFor(updates, other)
  {
    if updates != [] {
      var r := SetUpdateRole(updates, userId, role);
      assert r[1..] == SetUpdateRole(updates[1..], userId, role);
      assert UpdateIds(updates) == [updates[0].userId] + UpdateIds(updates[1..]);
      SetUpdateRoleLookup(updates[1..], userId, role, other);
    }
  }

  /**
   * Picking a role for a selected user and then applying the bulk update
   * gives that user the picked role and every other user what the bulk
   * update gave it before.
   */
  lemma SetUpdateRoleThenApply(users: seq<ManagedUser>, updates: seq<RoleUpdate>, userId: string, role: string)
    requires userId in UpdateIds(updates)
    ensures var r := ApplyRoleUpdates(users, SetUpdateRole(updates, userId, role));
      && |r| == |users|
      && forall i :: 0 <= i < |users| ==>
        r[i] == if users[i].id == userId then users[i].(role := role) else ApplyRoleUpdates(users, updates)[i]
  {
    forall i | 0 <= i < |users| {
      SetUpdateRoleLookup(updates, userId, role, users[i].id);
    }
  }

  /** `handleUpdateRole`'s map: the users with that id take the new role. */
  function SetRole(users: seq<ManagedUser>, userId: string, role: string): (r: seq<ManagedUser>)
    ensures |r| == |users| && UserIds(r) == UserIds(users)
    ensures forall i :: 0 <= i < |r| ==>
      r[i] == (if users[i].id == userId then users[i].(role := role) else users[i])
  {
    seq(|users|, i requires 0 <= i < |users| =>
      if users[i].id == userId then users[i].(role := role) else users[i])
  }

  /** The update `roleUpdates.find` picks for a user: the first one naming it. */
  function UpdateFor(updates: seq<RoleUpdate>, userId: string): Option<RoleUpdate> {
    Find((u: RoleUpdate) => u.userId == userId, updates)
  }

  /** `handleBulkUpdateRoles`'s map: every user with an update takes that update's role. */
  function ApplyRoleUpdates(users: seq<ManagedUser>, updates: seq<RoleUpdate>): seq<ManagedUser> {
    seq(|users|, i requires 0 <= i < |users| =>
      var update := UpdateFor(updates, users[i].id);
      if update.Some? then users[i].(role := update.value.role) else users[i])
  }

  /**
   * A bulk update keeps the users, their order and every field but the
   * role; a user takes the role of the first update naming it and keeps its
   * role when no update names it.
   */
  lemma ApplyRoleUpdatesSpec(users: seq<ManagedUser>, updates: seq<RoleUpdate>)
    ensures var r := ApplyRoleUpdates(users, updates);
      && |r| == |users| && UserIds(r) == UserIds(users)
      && forall i :: 0 <= i < |r| ==>
        && r[i].(role := users[i].role) == users[i]
        && (users[i].id !in UpdateIds(updates) ==> r[i] == users[i])
        && forall k :: (0 <= k < |updates| && updates[k].userId == users[i].id
                          && forall j :: 0 <= j < k ==> updates[j].userId != users[i].id) ==>
             r[i].role == updates[k].role
  {
    var r := ApplyRoleUpdates(users, updates);
    forall i | 0 <= i < |r| ensures UserIds(r)[i] == UserIds(users)[i] {
    }
    forall i, k | 0 <= i < |r| && 0 <= k < |updates| && updates[k].userId == users[i].id
                  && (forall j :: 0 <= j < k ==> updates[j].userId != users[i].id)
      ensures r[i].role == updates[k].role
    {
      var p := (u: RoleUpdate) => u.userId == users[i].id;
      assert p(updates[k]);
      FindFirst(p, updates);
      var m :| 0 <= m < |updates| && updates[m] == UpdateFor(updates, users[i].id).value
                && forall j :: 0 <= j < m ==> !p(updates[j]);
      assert m == k;
    }
    forall i | 0 <= i < |r| && users[i].id !in UpdateIds(updates) ensures r[i] == users[i] {
      if UpdateFor(updates, users[i].id).Some? {
        assert false;
      }
    }
  }

  function UpdateIds(updates: seq<RoleUpdate>): (r: seq<string>)
    ensures |r| == |updates| && forall i :: 0 <= i < |updates| ==> r[i] == updates[i].userId
  {
    seq(|updates|, i requires 0 <= i < |updates| => updates[i].userId)
  }

  /** `users.filter((user) => !ids.includes(user.id))`. */
  function WithoutIds(users: seq<ManagedUser>, ids: seq<string>): seq<ManagedUser> {
    Filter((u: ManagedUser) => u.id !in ids, users)
  }

  /**
   * Deleting keeps exactly the users whose id is not deleted, in their
   * order, with ids still distinct, and deleting the same ids again
   * changes nothing.
   */
  lemma WithoutIdsSpec(users: seq<ManagedUser>, ids: seq<string>)
    ensures forall u :: u in WithoutIds(users, ids) <==> u in users && u.id !in ids
    ensures NoDup(UserIds(users)) ==> NoDup(UserIds(WithoutIds(users, ids)))
    ensures WithoutIds(WithoutIds(users, ids), ids) == WithoutIds(users, ids)
  {
    var p := (u: ManagedUser) => u.id !in ids;
    forall u ensures u in WithoutIds(users, ids) <==> u in users && p(u) {
      FilterMembership(p, users, u);
    }
    if NoDup(UserIds(users)) {
      FilterKeepsIdsDistinct(p, users);
    }
    var once := WithoutIds(users, ids);
    forall i | 0 <= i < |once| ensures p(once[i]) {
      FilterMembership(p, users, once[i]);
    }
    FilterAll(p, once);
  }

  // ---------------------------------------------------------------------------
  // The page state
  // ---------------------------------------------------------------------------

  /** The page's state: `users`, the filter inputs, `selectedUsers` and `roleUpdates`. */
  class UserManagementPage {
    /** The signed-in user's id, if any. */
    const me: Option<string>
    var users: seq<ManagedUser>
    var filter: UserFilter
    var selected: seq<string>
    var roleUpdates: seq<RoleUpdate>

    /**
     * User ids are distinct, the selection lists each id once and never the
     * signed-in user, and `roleUpdates` has one entry per selected id in
     * selection order.
     */
    predicate Valid()
      reads this
    {
      && NoDup(UserIds(users))
      && NoDup(selected)
      && (me.Some? ==> me.value !in selected)
      && UpdateIds(roleUpdates) == selected
    }

    /** `filteredUsers`. */
    function Shown(): seq<ManagedUser>
      reads this
    {
      FilteredUsers(users, filter)
    }

    constructor(me: Option<string>)
      ensures Valid() && this.me == me
      ensures users == [] && filter == NO_FILTER && selected == [] && roleUpdates == []
    {
      this.me := me;
      users := [];
      filter := NO_FILTER;
      selected := [];
      roleUpdates := [];
    }

    /** `fetchUsers`: the fetched list replaces `users`; the effect rebuilds `roleUpdates`. */
    method Load(fetched: seq<ManagedUser>)
      requires Valid() && NoDup(UserIds(fetched))
      modifies this
      ensures Valid()
      ensures users == fetched && filter == old(filter) && selected == old(selected)
      ensures roleUpdates == RoleUpdatesFor(selected, users)
    {
      users := fetched;
      roleUpdates := RoleUpdatesFor(selected, users);
    }

    /** The search box and filter selects. */
    method SetFilter(f: UserFilter)
      requires Valid()
      modifies this
      ensures Valid()
      ensures filter == f && users == old(users) && selected == old(selected) && roleUpdates == old(roleUpdates)
    {
      filter := f;
    }

    /** `handleSelectUser`: nothing for the signed-in user, otherwise toggle the id. */
    method SelectUser(userId: string)
      requires Valid()
      modifies this
      ensures Valid()
      ensures users == old(users) && filter == old(filter)
      ensures me == Some(userId) ==> selected == old(selected) && roleUpdates == old(roleUpdates)
      ensures me != Some(userId) ==>
        selected == Toggle(old(selected), userId) && roleUpdates == RoleUpdatesFor(selected, users)
    {
      if me == Some(userId) {
        return;
      }
      ToggleSpec(selected, userId);
      selected := Toggle(selected, userId);
      roleUpdates := RoleUpdatesFor(selected, users);
    }

    /** `handleSelectAllUsers`. */
    method SelectAllUsers()
      requires Valid()
      modifies this
      ensures Valid()
      ensures users == old(users) && filter == old(filter)
      ensures selected == SelectAll(old(selected), Shown(), me)
      ensures roleUpdates == RoleUpdatesFor(selected, users)
    {
      FilteredUsersSpec(users, filter);
      SelectAllSpec(selected, Shown(), me);
      selected := SelectAll(selected, Shown(), me);
      roleUpdates := RoleUpdatesFor(selected, users);
    }

    /** `handleUpdateIndividualRole`: only the entry for `userId` changes. */
    method UpdateIndividualRole(userId: string, role: string)
      requires Valid()
      modifies this
      ensures Valid()
      ensures users == old(users) && filter == old(filter) && selected == old(selected)
      ensures roleUpdates == SetUpdateRole(old(roleUpdates), userId, role)
    {
      roleUpdates := SetUpdateRole(roleUpdates, userId, role);
    }

    /** `handleUpdateRole`: after the API call, the edited user takes the chosen role. */
    method UpdateRole(userId: string, role: string, succeeded: bool)
      requires Valid()
      modifies this
      ensures Valid()
      ensures filter == old(filter) && selected == old(selected)
      ensures !succeeded ==> users == old(users) && roleUpdates == old(roleUpdates)
      ensures succeeded ==>
        users == SetRole(old(users), userId, role) && roleUpdates == RoleUpdatesFor(selected, users)
    {
      if !succeeded {
        return;
      }
      users := SetRole(users, userId, role);
      roleUpdates := RoleUpdatesFor(selected, users);
    }

    /**
     * `handleDeleteUser`: after the API call, the user leaves the list. The
     * selection is not touched, so a selected id can outlive its user.
     */
    method DeleteUser(userId: string, succeeded: bool)
      requires Valid()
      modifies this
      ensures Valid()
      ensures filter == old(filter) && selected == old(selected)
      ensures !succeeded ==> users == old(users) && roleUpdates == old(roleUpdates)
      ensures succeeded ==>
        users == WithoutIds(old(users), [userId]) && roleUpdates == RoleUpdatesFor(selected, users)
    {
      if !succeeded {
        return;
      }
      WithoutIdsSpec(users, [userId]);
      users := WithoutIds(users, [userId]);
      roleUpdates := RoleUpdatesFor(selected, users);
    }

    /** `handleBulkUpdateRoles`: apply every pending role update, then clear the selection. */
    method BulkUpdateRoles(succeeded: bool)
      requires Valid()
      modifies this
      ensures Valid()
      ensures filter == old(filter)
      ensures !succeeded ==> users == old(users) && selected == old(selected) && roleUpdates == old(roleUpdates)
      ensures succeeded ==>
        users == ApplyRoleUpdates(old(users), old(roleUpdates)) && selected == [] && roleUpdates == []
    {
      if !succeeded {
        return;
      }
      ApplyRoleUpdatesSpec(users, roleUpdates);
      users := ApplyRoleUpdates(users, roleUpdates);
      selected := [];
      roleUpdates := RoleUpdatesFor(selected, users);
    }

    /** `handleBulkDelete`: remove every selected user, then clear the selection. */
    method BulkDelete(succeeded: bool)
      requires Valid()
      modifies this
      ensures Valid()
      ensures filter == old(filter)
      ensures !succeeded ==> users == old(users) && selected == old(selected) && roleUpdates == old(roleUpdates)
      ensures succeeded ==>
        users == WithoutIds(old(users), old(selected)) && selected == [] && roleUpdates == []
    {
      if !succeeded {
        return;
      }
      WithoutIdsSpec(users, selected);
      users := WithoutIds(users, selected);
      selected := [];
      roleUpdates := RoleUpdatesFor(selected, users);
    }
  }
}
