/**
 * `OKRService`: create, get, update, delete and list OKRs. Create and update
 * recompute key-result and overall progress from the submitted values;
 * neither ever computes `status`.
 */
module OkrService {
  import opened Common
  import opened Dates
  import opened OkrSchema
  import opened Progress
  import opened Database

  /** Why a create or update throws (each becomes a 500 in the routes). */
  datatype OkrError =
    | DateOrder          // "End Date must be greater than Start Date"
    | MissingKeyResults  // `data.keyResults.map` on an absent list
    | ValidationFailed   // a schema validator rejects the document on save
    | DuplicateTitle     // the unique index on `title`

  predicate InputTargetsPositive(krs: seq<KeyResultInput>) {
    forall i :: 0 <= i < |krs| ==> krs[i].targetValue > 0.0
  }

  /** Every submitted key result has a positive target (division by zero is not modelled). */
  predicate BodyTargetsPositive(input: OkrInput) {
    input.keyResults.Some? ==> InputTargetsPositive(input.keyResults.value)
  }

  /**
   * The date guard: `new Date(start) >= new Date(end)` with both dates
   * supplied (an absent date compares as an invalid date, which is never >=).
   */
  predicate DatesOutOfOrder(input: OkrInput) {
    input.startDate.Some? && input.endDate.Some? && !Before(input.startDate.value, input.endDate.value)
  }

  /** `keyResults.map(kr => ({ ...kr, progress: Math.round(...) }))`. */
  function WithProgress(krs: seq<KeyResultInput>): (r: seq<KeyResult>)
    requires InputTargetsPositive(krs)
    ensures TargetsPositive(r)
  {
    seq(|krs|, i requires 0 <= i < |krs| =>
      KeyResult(krs[i].title.GetOr(""), krs[i].currentValue, krs[i].targetValue,
                KeyResultProgress(krs[i].currentValue, krs[i].targetValue)))
  }

  /** Every key result carries the rounded percentage of its own values, as the server stores them. */
  predicate ProgressCurrent(krs: seq<KeyResult>)
    requires TargetsPositive(krs)
  {
    forall i :: 0 <= i < |krs| ==> krs[i].progress == KeyResultProgress(krs[i].currentValue, krs[i].targetValue)
  }

  /** A stored key result sent back in a request body: its title and values, without its progress. */
  function Resubmitted(krs: seq<KeyResult>): (r: seq<KeyResultInput>)
    ensures |r| == |krs|
  {
    seq(|krs|, i requires 0 <= i < |krs| => KeyResultInput(Some(krs[i].title), krs[i].currentValue, krs[i].targetValue))
  }

  /**
   * The computed key results are stored with current progress, one per
   * submitted key result; a progress above 100 is kept (it appears exactly
   * when the current value reaches 100.5 % of the target); and sending the
   * stored key results back gives the submitted ones again when each had a
   * title.
   */
  lemma WithProgressOfInputs(inputs: seq<KeyResultInput>)
    requires InputTargetsPositive(inputs)
    ensures var r := WithProgress(inputs);
      && |r| == |inputs| && ProgressCurrent(r)
      && (forall i :: 0 <= i < |r| ==> (r[i].progress > 100 <==> inputs[i].currentValue >= 1.005 * inputs[i].targetValue))
      && ((forall i :: 0 <= i < |inputs| ==> inputs[i].title.Some?) ==> Resubmitted(r) == inputs)
  {
    var r := WithProgress(inputs);
    forall i | 0 <= i < |r|
      ensures r[i].progress > 100 <==> inputs[i].currentValue >= 1.005 * inputs[i].targetValue
    {
      KeyResultProgressRange(inputs[i].currentValue, inputs[i].targetValue);
    }
  }

  /**
   * Sending stored key results back, as an unchanged edit does, stores
   * exactly the same key results: recomputing their progress is a no-op.
   */
  lemma ResubmitKeepsKeyResults(krs: seq<KeyResult>)
    requires TargetsPositive(krs) && ProgressCurrent(krs)
    ensures InputTargetsPositive(Resubmitted(krs)) && WithProgress(Resubmitted(krs)) == krs
  {
    var r := WithProgress(Resubmitted(krs));
    forall i | 0 <= i < |krs| ensures r[i] == krs[i] {
    }
  }

  /** The fields `required: true` demands of a new document are all supplied. */
  predicate RequiredPresent(input: OkrInput) {
    && Present(input.title) && input.startDate.Some? && input.endDate.Some?
    && Present(input.category) && Present(input.department) && Present(input.createdBy)
  }

  /** `new OKR(data)` once the key results and progress are computed: absent optional fields take their defaults. */
  function NewOkr(id: string, input: OkrInput, krs: seq<KeyResult>): Okr
    requires RequiredPresent(input) && TargetsPositive(krs)
  {
    Okr(id, input.title.value, input.description, OverallProgress(krs),
        input.startDate.value, input.endDate.value, input.category.value,
        input.department.value, input.owners.GetOr([]), input.createdBy.value,
        input.status.GetOr(DEFAULT_STATUS), krs)
  }

  /** The document a create saves: the submitted fields with the computed key results and progress. */
  function Created(input: OkrInput, id: string): Okr
    requires RequiredPresent(input) && input.keyResults.Some? && BodyTargetsPositive(input)
  {
    NewOkr(id, input, WithProgress(input.keyResults.value))
  }

  /**
   * A create stores its document exactly when the dates are in order, the
   * key results are supplied, the validators accept the document and no
   * other OKR has its title.
   */
  predicate CreateSucceeds(okrs: map<string, Okr>, input: OkrInput, id: string)
    requires BodyTargetsPositive(input)
  {
    && !DatesOutOfOrder(input) && input.keyResults.Some? && RequiredPresent(input)
    && Conforms(Created(input, id)) && !TitleTaken(okrs, input.title.value, id)
  }

  /**
   * `OKRService.create`: reject dates out of order, compute progress, then
   * save, which runs the schema validators and the unique title index. On
   * any failure nothing is stored.
   */
  method Create(db: Db, input: OkrInput, id: string) returns (r: Result<Okr, OkrError>)
    requires db.Valid() && BodyTargetsPositive(input) && id !in db.okrs
    modifies db
    ensures db.Valid() && db.users == old(db.users)
    ensures r.Ok? <==> CreateSucceeds(old(db.okrs), input, id)
    ensures DatesOutOfOrder(input) ==> r == Err(DateOrder)
    ensures !DatesOutOfOrder(input) && input.keyResults.None? ==> r == Err(MissingKeyResults)
    ensures !DatesOutOfOrder(input) && input.keyResults.Some? ==>
      && (!RequiredPresent(input) || !Conforms(Created(input, id)) ==> r == Err(ValidationFailed))
      && ((RequiredPresent(input) && Conforms(Created(input, id)) && TitleTaken(old(db.okrs), input.title.value, id))
            ==> r == Err(DuplicateTitle))
    ensures r.Err? ==> db.okrs == old(db.okrs)
    ensures r.Ok? ==> r.value == Created(input, id)
    ensures r.Ok? ==>
      && db.okrs == old(db.okrs)[id := r.value]
      && Conforms(r.value) && !TitleTaken(old(db.okrs), r.value.title, id)
      && r.value.id == id && input.keyResults.Some? && RequiredPresent(input)
      && r.value.keyResults == WithProgress(input.keyResults.value)
      && r.value.progress == OverallProgress(r.value.keyResults)
      && r.value.status == input.status.GetOr(DEFAULT_STATUS)
      && r.value.owners == input.owners.GetOr([])
      && r.value.startDate == input.startDate.value && r.value.endDate == input.endDate.value
      && Before(r.value.startDate, r.value.endDate)
  {
    if DatesOutOfOrder(input) {
      return Err(DateOrder);
    }
    if input.keyResults.None? {
      return Err(MissingKeyResults);
    }
    var keyResults := WithProgress(input.keyResults.value);
    if !RequiredPresent(input) {
      return Err(ValidationFailed);
    }
    var okr := NewOkr(id, input, keyResults);
    if !Conforms(okr) {
      return Err(ValidationFailed);
    }
    if TitleTaken(db.okrs, okr.title, id) {
      return Err(DuplicateTitle);
    }
    db.okrs := db.okrs[id := okr];
    return Ok(okr);
  }

  /** `OKRService.get`: the OKR with this id, or null. */
  function Get(okrs: map<string, Okr>, id: string): (r: Option<Okr>)
    ensures r.Some? <==> id in okrs
    ensures r.Some? ==> r.value == okrs[id]
  {
    if id in okrs then Some(okrs[id]) else None
  }

  // ---------------------------------------------------------------------------
  // update
  // ---------------------------------------------------------------------------

  /**
   * `findByIdAndUpdate(id, data)` after the key results and progress were
   * recomputed: every supplied field overwrites the stored one, and no
   * validator runs.
   */
  function ApplyPatch(okr: Okr, patch: OkrInput): Okr
    requires BodyTargetsPositive(patch)
  {
    var krs := if patch.keyResults.Some? then WithProgress(patch.keyResults.value) else okr.keyResults;
    var progress :=
      if patch.keyResults.Some? then OverallProgress(krs) else patch.progress.GetOr(okr.progress);
    Okr(okr.id, patch.title.GetOr(okr.title),
        if patch.description.Some? then patch.description else okr.description,
        progress, patch.startDate.GetOr(okr.startDate), patch.endDate.GetOr(okr.endDate),
        patch.category.GetOr(okr.category), patch.department.GetOr(okr.department),
        patch.owners.GetOr(okr.owners), patch.createdBy.GetOr(okr.createdBy),
        patch.status.GetOr(okr.status), krs)
  }

  /**
   * Progress is recomputed exactly when key results are supplied (a
   * submitted `progress` is then overridden); without them the key results
   * stay and the progress is the submitted one or the stored one. The
   * status and the id are never computed.
   */
  lemma ApplyPatchProgress(okr: Okr, patch: OkrInput)
    requires BodyTargetsPositive(patch)
    ensures var r := ApplyPatch(okr, patch);
      && r.id == okr.id
      && r.status == patch.status.GetOr(okr.status)
      && (patch.keyResults.Some? ==>
            r.keyResults == WithProgress(patch.keyResults.value)
            && r.progress == OverallProgress(r.keyResults))
      && (patch.keyResults.None? ==> r.keyResults == okr.keyResults)
      && (patch.keyResults.None? && patch.progress.None? ==> r.progress == okr.progress)
  {
  }

  /** An update with no fields leaves the OKR as it is. */
  lemma ApplyEmptyPatch(okr: Okr)
    ensures ApplyPatch(okr, EMPTY_INPUT) == okr
  {
  }

  /** Applying the same patch twice is the same as applying it once. */
  lemma ApplyPatchIdempotent(okr: Okr, patch: OkrInput)
    requires BodyTargetsPositive(patch)
    ensures ApplyPatch(ApplyPatch(okr, patch), patch) == ApplyPatch(okr, patch)
  {
  }

  /**
   * The date guard needs both dates in the payload, and the update runs no
   * validators: a payload with only a new start date can store a start
   * after the end, and a payload can store a category outside the schema's
   * enumeration.
   */
  lemma ApplyPatchSkipsChecks(okr: Okr)
    requires okr.startDate == Date(2024, 1, 1) && okr.endDate == Date(2024, 3, 31)
    ensures var patch := EMPTY_INPUT.(startDate := Some(Date(2024, 6, 1)));
      !DatesOutOfOrder(patch) && Before(ApplyPatch(okr, patch).endDate, ApplyPatch(okr, patch).startDate)
    ensures var patch := EMPTY_INPUT.(category := Some("team"));
      !Conforms(ApplyPatch(okr, patch))
  {
  }

  /**
   * `OKRService.update`: reject dates out of order when both are supplied,
   * then `findByIdAndUpdate`: null for an unknown id, a duplicate-key error
   * when the new title belongs to another OKR, otherwise the patched OKR.
   */
  method Update(db: Db, id: string, patch: OkrInput) returns (r: Result<Option<Okr>, OkrError>)
    requires db.Valid() && BodyTargetsPositive(patch)
    modifies db
    ensures db.Valid() && db.users == old(db.users)
    ensures DatesOutOfOrder(patch) ==> r == Err(DateOrder)
    ensures !DatesOutOfOrder(patch) && id !in old(db.okrs) ==> r == Ok(None)
    ensures !DatesOutOfOrder(patch) && id in old(db.okrs) ==>
      var updated := ApplyPatch(old(db.okrs)[id], patch);
      if TitleTaken(old(db.okrs), updated.title, id) then r == Err(DuplicateTitle)
      else r == Ok(Some(updated)) && db.okrs == old(db.okrs)[id := updated]
    ensures !(r.Ok? && r.value.Some?) ==> db.okrs == old(db.okrs)
  {
    if DatesOutOfOrder(patch) {
      return Err(DateOrder);
    }
    if id !in db.okrs {
      return Ok(None);
    }
    var updated := ApplyPatch(db.okrs[id], patch);
    if TitleTaken(db.okrs, updated.title, id) {
      return Err(DuplicateTitle);
    }
    db.okrs := db.okrs[id := updated];
    return Ok(Some(updated));
  }

  /** `OKRService.delete`: true and the OKR removed for a known id, false and nothing changed otherwise. */
  method Delete(db: Db, id: string) returns (deleted: bool)
    requires db.Valid()
    modifies db
    ensures db.Valid() && db.users == old(db.users)
    ensures deleted <==> id in old(db.okrs)
    ensures db.okrs == old(db.okrs) - {id}
  {
    deleted := id in db.okrs;
    db.okrs := db.okrs - {id};
  }
}
