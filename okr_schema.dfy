/**
 * The stored shape of an OKR and of its key results, with the schema's
 * enumerations, defaults and required fields, and the request bodies that
 * the create and update operations receive.
 */
module OkrSchema {
  import opened Common
  import opened Dates

  const INDIVIDUAL: string := "Individual"
  const TEAM: string := "Team"
  const CATEGORIES: seq<string> := [INDIVIDUAL, TEAM]

  const NOT_STARTED: string := "Not Started"
  const IN_PROGRESS: string := "In Progress"
  const COMPLETED: string := "Completed"
  const STATUSES: seq<string> := [NOT_STARTED, IN_PROGRESS, COMPLETED]

  /** Default `status` of a new OKR. */
  const DEFAULT_STATUS: string := NOT_STARTED
  /** Default `progress` of an OKR and of a key result. */
  const DEFAULT_PROGRESS: int := 0

  datatype KeyResult = KeyResult(title: string, currentValue: real, targetValue: real, progress: int)

  datatype Okr = Okr(
    id: string,
    title: string,
    description: Option<string>,
    progress: int,
    startDate: Date,
    endDate: Date,
    category: string,
    department: string,
    owners: seq<string>,
    createdBy: string,
    status: string,
    keyResults: seq<KeyResult>)

  /** A key result as a client sends it; its progress is always recomputed. */
  datatype KeyResultInput = KeyResultInput(title: Option<string>, currentValue: real, targetValue: real)

  /** A create or update request body: every field may be absent. */
  datatype OkrInput = OkrInput(
    title: Option<string>,
    description: Option<string>,
    progress: Option<int>,
    startDate: Option<Date>,
    endDate: Option<Date>,
    category: Option<string>,
    department: Option<string>,
    owners: Option<seq<string>>,
    createdBy: Option<string>,
    status: Option<string>,
    keyResults: Option<seq<KeyResultInput>>)

  /** A body with no fields at all. */
  const EMPTY_INPUT: OkrInput :=
    OkrInput(None, None, None, None, None, None, None, None, None, None, None)

  /** A required string field: present and not empty. */
  predicate Present(f: Option<string>) {
    Truthy(f)
  }

  predicate KeyResultConforms(kr: KeyResult) {
    kr.title != ""
  }

  /**
   * What the schema's validators accept when a document is saved: the
   * required strings are non-empty, category and status are enumeration
   * members, every owner entry is a non-empty string and every key result
   * has a title.
   */
  predicate Conforms(okr: Okr) {
    && okr.title != ""
    && okr.category in CATEGORIES
    && okr.department != ""
    && okr.createdBy != ""
    && okr.status in STATUSES
    && (forall i :: 0 <= i < |okr.owners| ==> okr.owners[i] != "")
    && (forall i :: 0 <= i < |okr.keyResults| ==> KeyResultConforms(okr.keyResults[i]))
  }

  /** Every OKR in the collection has a title of its own (the unique index on `title`). */
  predicate TitlesUnique(okrs: map<string, Okr>) {
    forall a, b :: a in okrs && b in okrs && okrs[a].title == okrs[b].title ==> a == b
  }

  /** The OKRs in the collection are filed under their own ids. */
  predicate KeyedById(okrs: map<string, Okr>) {
    forall id :: id in okrs ==> okrs[id].id == id
  }
}
