/**
 * The edit-OKR dialog: how it loads an OKR into the form and the owner
 * picker, when its category select is locked, and `onSubmit`, which runs
 * the shared checks with no title check and sends the form as an update.
 */
module EditOkrDialog {
  import opened Common
  import opened Dates
  import opened OkrSchema
  import opened ClientUsers
  import opened OkrForm
  import Progress
  import OkrClient
  import OkrList
  import OkrService
  import CreateOkrDialog

  /** What a submit does: report an error, or send the form as the update. */
  datatype Outcome = Refused(message: string) | Sent(body: FormData)

  /** `iso.split("T")[0]`: the date part of a timestamp string. */
  function DatePart(iso: string): string {
    Split(iso, 'T')[0]
  }

  /**
   * The date input receives the text before the first "T": the day of an
   * ISO timestamp, or the whole string when it has no "T".
   */
  lemma DatePartSpec(day: string, time: string)
    requires 'T' !in day
    ensures DatePart(day + "T" + time) == day
    ensures DatePart(day) == day
  {
    SplitAtFirst(day, time, 'T');
    SplitNoSeparator(day, 'T');
  }

  /**
   * `reset({...})` on load: the stored fields, with department and category
   * lower-cased to match the selects' values.
   */
  function LoadForm(okr: Okr): FormData {
    FormData(okr.title, okr.description, Some(okr.startDate), Some(okr.endDate),
             Lower(okr.department), Lower(okr.category), okr.owners,
             seq(|okr.keyResults|, i requires 0 <= i < |okr.keyResults| =>
               KeyResultField(okr.keyResults[i].title, okr.keyResults[i].currentValue, okr.keyResults[i].targetValue)))
  }

  /** `users.filter((user) => okr.owners.includes(user.id))`: in user-list order, not owner order. */
  function LoadedSelection(users: seq<Member>, owners: seq<string>): seq<Member> {
    Filter((u: Member) => u.id in owners, users)
  }

  /** `disabled={category === "individual"}` on the category select. */
  predicate CategoryLocked(category: string) {
    category == INDIVIDUAL_VALUE
  }

  /**
   * Loading picks exactly the listed users who own the OKR, in list order
   * (owners with no user record are not shown); an OKR stored as
   * "Individual" opens with its category locked and one stored as "Team"
   * does not.
   */
  lemma LoadSpec(okr: Okr, users: seq<Member>)
    ensures forall u :: u in LoadedSelection(users, okr.owners) <==> u in users && u.id in okr.owners
    ensures |LoadedSelection(users, okr.owners)| <= |users|
    ensures okr.category == INDIVIDUAL ==> CategoryLocked(LoadForm(okr).category)
    ensures okr.category == TEAM ==> !CategoryLocked(LoadForm(okr).category) && LoadForm(okr).category == TEAM_VALUE
    ensures LoadForm(okr).owners == okr.owners && LoadForm(okr).title == okr.title
  {
    var p := (u: Member) => u.id in okr.owners;
    forall u ensures u in LoadedSelection(users, okr.owners) <==> u in users && p(u) {
      FilterMembership(p, users, u);
    }
    FilterLength(p, users);
    LowerCategories();
  }

  lemma LowerCategories()
    ensures Lower(INDIVIDUAL) == INDIVIDUAL_VALUE && Lower(TEAM) == TEAM_VALUE
  {
    assert Lower(INDIVIDUAL) == [LowerChar('I')] + Lower("ndividual");
    assert Lower(TEAM) == [LowerChar('T')] + Lower("eam");
  }

  /** Opening the dialog on an OKR: the form's category, owners and the picked users. */
  method Open(okr: Okr, users: seq<Member>) returns (picker: OwnerPicker)
    ensures fresh(picker)
    ensures picker.category == Lower(okr.category) && picker.formCategory == Lower(okr.category)
    ensures picker.owners == okr.owners && picker.selected == LoadedSelection(users, okr.owners)
  {
    picker := new OwnerPicker(Lower(okr.category), Lower(okr.category), okr.owners, LoadedSelection(users, okr.owners));
  }

  function EditOutcome(data: FormData, selectedCount: nat): Outcome
    requires Submittable(data)
  {
    var failure := FirstFailure(data, selectedCount);
    if failure.Some? then Refused(failure.value) else Sent(data)
  }

  /** `onSubmit`: the shared checks, then the request. */
  method Submit(data: FormData, selectedCount: nat) returns (outcome: Outcome)
    requires Submittable(data)
    ensures outcome == EditOutcome(data, selectedCount)
  {
    var failure := RunChecks(data, selectedCount);
    if failure.Some? {
      return Refused(failure.value);
    }
    return Sent(data);
  }

  /**
   * The edit dialog runs the create dialog's checks without the title
   * check: for a signed-in user it refuses with the same message or sends
   * the same form as a create would with no titles in use, and a title in
   * use, which stops a create, never stops an edit.
   */
  lemma EditSkipsTitleCheck(data: FormData, n: nat, titles: seq<string>, me: string)
    requires Submittable(data)
    ensures var create := CreateOkrDialog.CreateOutcome(data, n, [], Some(me));
      && (EditOutcome(data, n).Sent? <==> create.Sent?)
      && (EditOutcome(data, n).Refused? ==> create == CreateOkrDialog.Refused(EditOutcome(data, n).message))
    ensures CreateOkrDialog.TitleInUse(data.title, titles) ==>
      && CreateOkrDialog.CreateOutcome(data, n, titles, Some(me)) == CreateOkrDialog.Refused(CreateOkrDialog.DUPLICATE_TITLE)
      && (EditOutcome(data, n).Refused? ==> EditOutcome(data, n).message != CreateOkrDialog.DUPLICATE_TITLE)
  {
    CreateOkrDialog.CreateOutcomeSpec(data, n, titles, Some(me));
  }

  // ---------------------------------------------------------------------------
  // What an edit stores
  // ---------------------------------------------------------------------------

  /** The request body the form becomes: every field present, key results without progress. */
  function ToInput(data: FormData): OkrInput {
    OkrInput(Some(data.title), data.description, None, data.startDate, data.endDate,
             Some(data.category), Some(data.department), Some(data.owners), None, None,
             Some(seq(|data.keyResults|, i requires 0 <= i < |data.keyResults| =>
               KeyResultInput(Some(data.keyResults[i].title), data.keyResults[i].currentValue, data.keyResults[i].targetValue))))
  }

  /** The OKR the server stores when the loaded form is submitted unchanged. */
  function StoredAfterEdit(okr: Okr, data: FormData): Okr
    requires forall i :: 0 <= i < |data.keyResults| ==> data.keyResults[i].targetValue > 0.0
  {
    var body := OkrClient.UpdateBody(ToInput(data)).value;
    OkrService.ApplyPatch(okr, body)
  }

  /** The list page's filter for one department, every other test off. */
  function DepartmentFilter(department: string): OkrList.ListFilter {
    OkrList.NO_FILTER.(department := department)
  }

  /**
   * As written: submitting the loaded form unchanged stores the department
   * lower-cased, so an OKR of a department whose name has an upper-case
   * letter leaves the list filtered by that department. The category, by
   * contrast, is capitalised again on the way out.
   */
  lemma EditLowercasesDepartment(okr: Okr)
    requires Progress.TargetsPositive(okr.keyResults)
    requires Lower(okr.department) != okr.department && okr.department != OkrList.ALL
    requires okr.category in CATEGORIES
    ensures var stored := StoredAfterEdit(okr, LoadForm(okr));
      && stored.department == Lower(okr.department)
      && stored.category == okr.category
      && OkrList.Matches(DepartmentFilter(okr.department), okr)
      && !OkrList.Matches(DepartmentFilter(okr.department), stored)
  {
    LowerCategories();
    OkrClient.CapitalizeCategorySpec(Lower(okr.category), "");
    ContainsEmpty(Lower(okr.title));
    assert Lower("") == "";
  }

  /** The load that keeps the department as stored (the selects then offer the stored names). */
  function LoadFormKeepingDepartment(okr: Okr): FormData {
    LoadForm(okr).(department := okr.department)
  }

  /**
   * Corrected: with the department kept as stored, submitting the loaded
   * form unchanged keeps the OKR's department and category, so every
   * department filter selects the stored OKR exactly when it selected the
   * OKR before the edit; key results stored with current progress come back
   * unchanged.
   */
  lemma EditKeepsDepartment(okr: Okr, department: string)
    requires Progress.TargetsPositive(okr.keyResults)
    requires okr.category in CATEGORIES
    ensures var stored := StoredAfterEdit(okr, LoadFormKeepingDepartment(okr));
      && stored.department == okr.department
      && stored.category == okr.category
      && stored.title == okr.title && stored.startDate == okr.startDate && stored.endDate == okr.endDate
      && (OkrList.Matches(DepartmentFilter(department), stored) <==> OkrList.Matches(DepartmentFilter(department), okr))
      && (OkrService.ProgressCurrent(okr.keyResults) ==> stored.keyResults == okr.keyResults)
  {
    LowerCategories();
    OkrClient.CapitalizeCategorySpec(Lower(okr.category), "");
    if OkrService.ProgressCurrent(okr.keyResults) {
      var data := LoadFormKeepingDepartment(okr);
      assert ToInput(data).keyResults.value == OkrService.Resubmitted(okr.keyResults);
      OkrService.ResubmitKeepsKeyResults(okr.keyResults);
    }
  }
}
