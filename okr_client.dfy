/**
 * The client's OKR API module: the request bodies `createOKR` and
 * `updateOKR` send, with the category capitalised, and the progress and
 * status helpers it declares (`calculateOKRProgress` computes
 * `Progress.OverallProgress`, `getOKRStatus` is `Progress.DetailStatus`).
 */
module OkrClient {
  import opened Common
  import opened OkrSchema
  import opened Progress

  /** `capitalizeCategory`: the first character upper-cased, the rest lower-cased. */
  function CapitalizeCategory(category: string): string {
    if category == "" then "" else [UpperChar(category[0])] + Lower(category[1..])
  }

  /**
   * Capitalising keeps the length, maps only "" to "", is idempotent, reads
   * its input case-insensitively, and turns the dialogs' lower-case values
   * into the schema's categories.
   */
  lemma CapitalizeCategorySpec(category: string, other: string)
    ensures |CapitalizeCategory(category)| == |category|
    ensures CapitalizeCategory(category) == "" <==> category == ""
    ensures CapitalizeCategory(CapitalizeCategory(category)) == CapitalizeCategory(category)
    ensures Lower(category) == Lower(other) ==> CapitalizeCategory(category) == CapitalizeCategory(other)
    ensures CapitalizeCategory("individual") == INDIVIDUAL && CapitalizeCategory("team") == TEAM
  {
    if category != "" {
      var r := CapitalizeCategory(category);
      assert r[0] == UpperChar(category[0]);
      assert r[1..] == Lower(category[1..]);
      assert [UpperChar(r[0])] == [UpperChar(category[0])];
      LowerIdempotent(category[1..]);
      assert CapitalizeCategory(r) == r;
      if Lower(category) == Lower(other) {
        CapitalizeIgnoresCase(category, other);
      }
    }
    CapitalizeDialogValues();
  }

  /** Capitalising reads the input case-insensitively. */
  lemma CapitalizeIgnoresCase(category: string, other: string)
    requires category != "" && Lower(category) == Lower(other)
    ensures CapitalizeCategory(category) == CapitalizeCategory(other)
  {
    assert LowerChar(category[0]) == LowerChar(other[0]) by {
      assert Lower(category)[0] == Lower(other)[0];
    }
    assert UpperChar(category[0]) == UpperChar(other[0]);
    assert Lower(category[1..]) == Lower(category)[1..];
    assert Lower(other[1..]) == Lower(other)[1..];
  }

  /** The dialogs' lower-case category values become the schema's categories. */
  lemma CapitalizeDialogValues()
    ensures CapitalizeCategory("individual") == INDIVIDUAL && CapitalizeCategory("team") == TEAM
  {
    var i := "individual";
    assert CapitalizeCategory(i) == [UpperChar(i[0])] + Lower(i[1..]);
    assert Lower(i[1..]) == "ndividual";
    var t := "team";
    assert Lower(t[1..]) == "eam";
  }

  /**
   * `createOKR(data)`'s body: `data` with `createdBy` replaced by the id of
   * the user kept in local storage (absent when there is none) and the
   * category capitalised. `None` when `data.category` is absent: the call
   * then throws before any request is sent.
   */
  function CreateBody(data: OkrInput, storedUserId: Option<string>): Option<OkrInput> {
    if data.category.None? then None
    else Some(data.(createdBy := storedUserId, category := Some(CapitalizeCategory(data.category.value))))
  }

  /** `updateOKR(id, data)`'s body: `data` with only the category capitalised. */
  function UpdateBody(data: OkrInput): Option<OkrInput> {
    if data.category.None? then None
    else Some(data.(category := Some(CapitalizeCategory(data.category.value))))
  }

  /**
   * A create body exists exactly when the category does; it carries the
   * stored user as creator, and a dialog category as a schema category, and
   * leaves every other field of `data` as it was.
   */
  lemma CreateBodySpec(data: OkrInput, storedUserId: Option<string>)
    ensures CreateBody(data, storedUserId).Some? <==> data.category.Some?
    ensures CreateBody(data, storedUserId).Some? ==>
      var body := CreateBody(data, storedUserId).value;
      && body.createdBy == storedUserId
      && body.(createdBy := data.createdBy, category := data.category) == data
      && (data.category.value in ["individual", "team"] ==> body.category.value in CATEGORIES)
  {
    CapitalizeCategorySpec("", "");
  }

  /**
   * An update body changes nothing but the category, which it puts in
   * capitalised form, so building it twice changes nothing more.
   */
  lemma UpdateBodySpec(data: OkrInput)
    ensures UpdateBody(data).Some? <==> data.category.Some?
    ensures UpdateBody(data).Some? ==>
      var body := UpdateBody(data).value;
      && body.(category := data.category) == data
      && UpdateBody(body) == Some(body)
      && (data.category.value in ["individual", "team"] ==> body.category.value in CATEGORIES)
  {
    if data.category.Some? {
      CapitalizeCategorySpec(data.category.value, "");
    }
  }

  lemma {:induction false} SumPercentsZero(krs: seq<KeyResult>)
    requires TargetsPositive(krs)
    requires forall i :: 0 <= i < |krs| ==> krs[i].currentValue == 0.0
    ensures SumPercents(krs) == 0.0
  {
    if krs != [] {
      SumPercentsZero(krs[1..]);
    }
  }

  /**
   * `getOKRStatus(calculateOKRProgress(keyResults))` always names a schema
   * status; it is "Not Started" when no key result has moved (or there are
   * none) and "Completed" when every target is met.
   */
  lemma ClientStatusOfKeyResults(krs: seq<KeyResult>)
    requires TargetsPositive(krs)
    ensures DetailStatus(OverallProgress(krs)) in STATUSES
    ensures (forall i :: 0 <= i < |krs| ==> krs[i].currentValue == 0.0) ==>
      DetailStatus(OverallProgress(krs)) == NOT_STARTED
    ensures krs != [] && (forall i :: 0 <= i < |krs| ==> krs[i].currentValue == krs[i].targetValue) ==>
      DetailStatus(OverallProgress(krs)) == COMPLETED
  {
    StatusClassifiersAgree(OverallProgress(krs));
    if forall i :: 0 <= i < |krs| ==> krs[i].currentValue == 0.0 {
      SumPercentsZero(krs);
      if krs != [] {
        assert SumPercents(krs) / |krs| as real == 0.0;
      }
    }
    OverallProgressRange(krs);
  }
}
