/**
 * What the create and edit OKR dialogs share, in identical code: the form's
 * values, the owner picker and its handlers, the list of users still
 * available to pick, and the submit checks after the title check.
 */
module OkrForm {
  import opened Common
  import opened Dates
  import opened ClientUsers

  /** The category select's values. */
  const INDIVIDUAL_VALUE: string := "individual"
  const TEAM_VALUE: string := "team"

  const ONE_OWNER: string := "Individual OKRs can only have one owner"
  const TWO_OWNERS: string := "Team OKRs must have at least two owners"
  const BAD_DATES: string := "End Date must be greater than Start Date"
  const CURRENT_ABOVE_TARGET: string := "Current value cannot be greater than target value in key results"

  /** A key result row; its numbers are read with `valueAsNumber`. */
  datatype KeyResultField = KeyResultField(title: string, currentValue: real, targetValue: real)

  /** The form's values; a date input is `None` until filled in. */
  datatype FormData = FormData(
    title: string,
    description: Option<string>,
    startDate: Option<Date>,
    endDate: Option<Date>,
    department: string,
    category: string,
    owners: seq<string>,
    keyResults: seq<KeyResultField>)

  // ---------------------------------------------------------------------------
  // The owner picker
  // ---------------------------------------------------------------------------

  /** `handleUserSelect`: refused (`None`) for an individual OKR that has an owner already. */
  function AfterSelect(category: string, selected: seq<Member>, user: Member): Option<seq<Member>> {
    if category == INDIVIDUAL_VALUE && |selected| > 0 then None else Some(selected + [user])
  }

  /** `handleUserRemove`: drop every selected user with that id. */
  function AfterRemove(selected: seq<Member>, userId: string): seq<Member> {
    Filter((m: Member) => m.id != userId, selected)
  }

  /** `handleCategoryChange`: switching to "individual" keeps only the first of several owners. */
  function AfterCategoryChange(value: string, selected: seq<Member>): seq<Member> {
    if value == INDIVIDUAL_VALUE && |selected| > 1 then [selected[0]] else selected
  }

  /** `availableUsers`: the users not selected. */
  function AvailableUsers(users: seq<Member>, selected: seq<Member>): seq<Member> {
    Filter((u: Member) => u.id !in Ids(selected), users)
  }

  /**
   * Selecting is refused exactly for an individual OKR that already has an
   * owner; otherwise the user is appended, so an individual OKR picked from
   * nothing ends with one owner.
   */
  lemma AfterSelectSpec(category: string, selected: seq<Member>, user: Member)
    ensures AfterSelect(category, selected, user).None? <==> category == INDIVIDUAL_VALUE && selected != []
    ensures AfterSelect(category, selected, user).Some? ==>
      && AfterSelect(category, selected, user).value == selected + [user]
      && Ids(AfterSelect(category, selected, user).value) == Ids(selected) + [user.id]
      && (category == INDIVIDUAL_VALUE ==> |AfterSelect(category, selected, user).value| == 1)
  {
    if AfterSelect(category, selected, user).Some? {
      var r := selected + [user];
      assert Ids(r) == Ids(selected) + [user.id];
    }
  }

  /**
   * Removing keeps exactly the selected users with another id, in order, and
   * undoes the selection of a user who was not selected before.
   */
  lemma AfterRemoveSpec(selected: seq<Member>, user: Member)
    ensures forall m :: m in AfterRemove(selected, user.id) <==> m in selected && m.id != user.id
    ensures user.id !in Ids(AfterRemove(selected, user.id))
    ensures user.id !in Ids(selected) ==> AfterRemove(selected + [user], user.id) == selected
  {
    var p := (m: Member) => m.id != user.id;
    var r := AfterRemove(selected, user.id);
    forall m ensures m in r <==> m in selected && p(m) {
      FilterMembership(p, selected, m);
    }
    if user.id !in Ids(selected) {
      forall i | 0 <= i < |selected| ensures p(selected[i]) {
        assert Ids(selected)[i] == selected[i].id;
      }
      FilterAll(p, selected);
      FilterAppend(p, selected, [user]);
      assert [user][1..] == [];
      assert Filter(p, [user]) == [];
      assert selected + [] == selected;
    }
  }

  /**
   * After a switch to "individual" at most one owner is left, the first one
   * picked; any other switch keeps the selection.
   */
  lemma AfterCategoryChangeSpec(value: string, selected: seq<Member>)
    ensures value == INDIVIDUAL_VALUE ==> |AfterCategoryChange(value, selected)| <= 1
    ensures value == INDIVIDUAL_VALUE && selected != [] ==> AfterCategoryChange(value, selected) == [selected[0]]
    ensures value != INDIVIDUAL_VALUE || |selected| <= 1 ==> AfterCategoryChange(value, selected) == selected
  {
  }

  /**
   * The picker offers exactly the users not yet selected, in list order; a
   * user just selected is offered no more.
   */
  lemma AvailableUsersSpec(users: seq<Member>, selected: seq<Member>, picked: Member)
    ensures forall u :: u in AvailableUsers(users, selected) <==> u in users && u.id !in Ids(selected)
    ensures forall u :: u in AvailableUsers(users, selected + [picked]) ==> u.id != picked.id
  {
    forall u ensures u in AvailableUsers(users, selected) <==> u in users && u.id !in Ids(selected) {
      FilterMembership((v: Member) => v.id !in Ids(selected), users, u);
    }
    var more := selected + [picked];
    assert Ids(more)[|selected|] == picked.id;
    forall u | u in AvailableUsers(users, more) ensures u.id != picked.id {
      FilterMembership((v: Member) => v.id !in Ids(more), users, u);
    }
  }

  /**
   * The picker's state: the `category` state, the form's `category` and
   * `owners` fields, and `selectedUsers`.
   */
  class OwnerPicker {
    var category: string
    var formCategory: string
    var owners: seq<string>
    var selected: seq<Member>

    /** The form's owners are the ids of the selected users. */
    predicate InSync()
      reads this
    {
      owners == Ids(selected)
    }

    /** An individual OKR has at most one selected owner. */
    predicate SingleOwner()
      reads this
    {
      category == INDIVIDUAL_VALUE ==> |selected| <= 1
    }

    constructor(category: string, formCategory: string, owners: seq<string>, selected: seq<Member>)
      ensures this.category == category && this.formCategory == formCategory
      ensures this.owners == owners && this.selected == selected
    {
      this.category := category;
      this.formCategory := formCategory;
      this.owners := owners;
      this.selected := selected;
    }

    /** `handleUserSelect`. */
    method Select(user: Member)
      modifies this
      ensures category == old(category) && formCategory == old(formCategory)
      ensures AfterSelect(old(category), old(selected), user).None? ==>
        selected == old(selected) && owners == old(owners)
      ensures AfterSelect(old(category), old(selected), user).Some? ==>
        selected == AfterSelect(old(category), old(selected), user).value && InSync()
      ensures old(SingleOwner()) ==> SingleOwner()
    {
      var next := AfterSelect(category, selected, user);
      if next.None? {
        return;
      }
      selected := next.value;
      owners := Ids(selected);
    }

    /** `handleUserRemove`. */
    method Remove(userId: string)
      modifies this
      ensures category == old(category) && formCategory == old(formCategory)
      ensures selected == AfterRemove(old(selected), userId) && InSync()
      ensures old(SingleOwner()) ==> SingleOwner()
    {
      FilterLength((m: Member) => m.id != userId, selected);
      selected := AfterRemove(selected, userId);
      owners := Ids(selected);
    }

    /** `handleCategoryChange`. */
    method ChangeCategory(value: string)
      modifies this
      ensures category == value && formCategory == value
      ensures selected == AfterCategoryChange(value, old(selected))
      ensures value == INDIVIDUAL_VALUE && |old(selected)| > 1 ==> owners == [old(selected)[0].id]
      ensures !(value == INDIVIDUAL_VALUE && |old(selected)| > 1) ==> owners == old(owners)
      ensures SingleOwner()
      ensures old(InSync()) ==> InSync()
    {
      category := value;
      if value == INDIVIDUAL_VALUE && |selected| > 1 {
        var first := selected[0];
        selected := [first];
        owners := [first.id];
      }
      formCategory := value;
    }
  }

  // ---------------------------------------------------------------------------
  // The submit checks both dialogs run after any title check
  // ---------------------------------------------------------------------------

  /** Some key result's current value exceeds its target. */
  predicate AnyAboveTarget(krs: seq<KeyResultField>) {
    exists i :: 0 <= i < |krs| && krs[i].currentValue > krs[i].targetValue
  }

  /** The `for (const keyResult of data.keyResults)` loop: stop at the first key result above target. */
  method FindAboveTarget(krs: seq<KeyResultField>) returns (above: bool)
    ensures above <==> AnyAboveTarget(krs)
  {
    var i := 0;
    while i < |krs|
      invariant 0 <= i <= |krs|
      invariant forall j :: 0 <= j < i ==> krs[j].currentValue <= krs[j].targetValue
    {
      if krs[i].currentValue > krs[i].targetValue {
        return true;
      }
      i := i + 1;
    }
    return false;
  }

  /** The form's required fields are filled in; the dialogs submit nothing else. */
  predicate Submittable(data: FormData) {
    data.startDate.Some? && data.endDate.Some?
  }

  /**
   * The first failing check, in order: more than one owner for an
   * individual OKR, fewer than two for a team OKR, a start not before the
   * end, a key result above its target. The owner checks count the selected
   * users, not the form's owners.
   */
  function FirstFailure(data: FormData, selectedCount: nat): Option<string>
    requires Submittable(data)
  {
    if data.category == INDIVIDUAL_VALUE && selectedCount > 1 then Some(ONE_OWNER)
    else if data.category == TEAM_VALUE && selectedCount < 2 then Some(TWO_OWNERS)
    else if !Before(data.startDate.value, data.endDate.value) then Some(BAD_DATES)
    else if AnyAboveTarget(data.keyResults) then Some(CURRENT_ABOVE_TARGET)
    else None
  }

  /** The checks as `onSubmit` runs them, the key results in a loop. */
  method RunChecks(data: FormData, selectedCount: nat) returns (failure: Option<string>)
    requires Submittable(data)
    ensures failure == FirstFailure(data, selectedCount)
  {
    if data.category == INDIVIDUAL_VALUE && selectedCount > 1 {
      return Some(ONE_OWNER);
    }
    if data.category == TEAM_VALUE && selectedCount < 2 {
      return Some(TWO_OWNERS);
    }
    if !Before(data.startDate.value, data.endDate.value) {
      return Some(BAD_DATES);
    }
    var above := FindAboveTarget(data.keyResults);
    if above {
      return Some(CURRENT_ABOVE_TARGET);
    }
    return None;
  }

  /**
   * Each message is reported exactly when its check fails and every earlier
   * one passes; nothing is reported exactly when the owner count fits the
   * category, the start is before the end and every key result is within
   * its target.
   */
  lemma FirstFailureSpec(data: FormData, n: nat)
    requires Submittable(data)
    ensures var individual := data.category == INDIVIDUAL_VALUE;
      var team := data.category == TEAM_VALUE;
      var datesOk := Before(data.startDate.value, data.endDate.value);
      var krsOk := forall i :: 0 <= i < |data.keyResults| ==>
        data.keyResults[i].currentValue <= data.keyResults[i].targetValue;
      var r := FirstFailure(data, n);
      && (r == Some(ONE_OWNER) <==> individual && n > 1)
      && (r == Some(TWO_OWNERS) <==> team && n < 2)
      && (r == Some(BAD_DATES) <==> !(individual && n > 1) && !(team && n < 2) && !datesOk)
      && (r == Some(CURRENT_ABOVE_TARGET) <==> !(individual && n > 1) && !(team && n < 2) && datesOk && !krsOk)
      && (r == None <==> (individual ==> n <= 1) && (team ==> n >= 2) && datesOk && krsOk)
  {
  }

  /**
   * The owner checks let an individual OKR through with no owner at all, and
   * a category that is neither select value through with any count.
   */
  lemma OwnerChecksAllowNoOwner(data: FormData)
    requires Submittable(data) && Before(data.startDate.value, data.endDate.value)
    requires forall i :: 0 <= i < |data.keyResults| ==>
      data.keyResults[i].currentValue <= data.keyResults[i].targetValue
    ensures data.category == INDIVIDUAL_VALUE ==> FirstFailure(data, 0) == None
    ensures data.category != INDIVIDUAL_VALUE && data.category != TEAM_VALUE ==>
      forall n: nat :: FirstFailure(data, n) == None
  {
  }
}
