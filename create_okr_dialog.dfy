/**
 * The create-OKR dialog: its defaults, the selection it starts from, and
 * `onSubmit`, which checks for a title already in use (case-insensitively)
 * before the checks both dialogs share, then sends the form with the
 * signed-in user as creator. The titles in use are a parameter: fetching
 * them is I/O.
 */
module CreateOkrDialog {
  import opened Common
  import opened Progress
  import opened ClientUsers
  import opened OkrForm

  const DUPLICATE_TITLE: string := "OKR with this title already exists"
  /** The `catch` branch, reached when `user.id` is read with nobody signed in. */
  const CREATE_FAILED: string := "Failed to create OKR"

  /** What a submit does: report an error, or send the form with a creator. */
  datatype Outcome = Refused(message: string) | Sent(body: FormData, createdBy: string)

  /**
   * `defaultValues`: one key result at 0 of 100 and the signed-in user as
   * the only owner; the fields with no default are empty.
   */
  function DefaultForm(me: Option<string>): FormData {
    FormData("", None, None, None, "", "", if me.Some? then [me.value] else [],
             [KeyResultField("", 0.0, 100.0)])
  }

  /**
   * The selection after the users arrive: the signed-in user's record when
   * it is among them, otherwise the selection as it was.
   */
  function InitialSelection(users: seq<Member>, me: Option<string>, selected: seq<Member>): seq<Member> {
    if me.Some? && FindMember(users, me.value).Some? then [FindMember(users, me.value).value] else selected
  }

  /**
   * The form starts with the signed-in user as owner and one key result that
   * shows 0 %; the picker starts from that user's record when the user list
   * has it, and otherwise keeps its empty selection, so the form's owners and
   * the picker disagree until an owner is picked.
   */
  lemma DefaultsSpec(users: seq<Member>, me: Option<string>)
    ensures var form := DefaultForm(me);
      && |form.keyResults| == 1 && form.keyResults[0].currentValue == 0.0 && form.keyResults[0].targetValue == 100.0
      && DisplayedProgress(form.keyResults[0].currentValue, form.keyResults[0].targetValue) == 0
      && (me.Some? ==> form.owners == [me.value])
      && (me.None? ==> form.owners == [])
    ensures var s := InitialSelection(users, me, []);
      && (me.Some? && me.value in Ids(users) ==> Ids(s) == DefaultForm(me).owners)
      && (me.Some? && me.value !in Ids(users) ==> s == [] && DefaultForm(me).owners == [me.value])
  {
    assert Round(0.0 / 100.0 * 100.0) == 0;
    if me.Some? {
      FindMemberSpec(users, me.value);
    }
  }

  /**
   * The selection after a successful create: the creator's record when the
   * user list has it (the form's owners become `[user.id]`), otherwise empty.
   */
  function SelectionAfterCreate(users: seq<Member>, me: string): seq<Member> {
    if FindMember(users, me).Some? then [FindMember(users, me).value] else []
  }

  /** After a successful create the picker and the form's owners agree again. */
  lemma SelectionAfterCreateSpec(users: seq<Member>, me: string)
    ensures me in Ids(users) ==> Ids(SelectionAfterCreate(users, me)) == [me]
    ensures me !in Ids(users) ==> SelectionAfterCreate(users, me) == []
  {
    FindMemberSpec(users, me);
  }

  /** `existingOKRs.okrs.find((okr) => okr.title.toLowerCase() === data.title.toLowerCase())`. */
  predicate TitleInUse(title: string, titles: seq<string>) {
    Find((t: string) => Lower(t) == Lower(title), titles).Some?
  }

  /** The outcome of `onSubmit` for the form, the number of selected users and the titles in use. */
  function CreateOutcome(data: FormData, selectedCount: nat, titles: seq<string>, me: Option<string>): Outcome
    requires Submittable(data)
  {
    if TitleInUse(data.title, titles) then Refused(DUPLICATE_TITLE)
    else
      var failure := FirstFailure(data, selectedCount);
      if failure.Some? then Refused(failure.value)
      else if me.None? then Refused(CREATE_FAILED)
      else Sent(data, me.value)
  }

  /** `onSubmit`: the title check, the shared checks, then the request. */
  method Submit(data: FormData, selectedCount: nat, titles: seq<string>, me: Option<string>)
    returns (outcome: Outcome)
    requires Submittable(data)
    ensures outcome == CreateOutcome(data, selectedCount, titles, me)
  {
    var same := Find((t: string) => Lower(t) == Lower(data.title), titles);
    if same.Some? {
      return Refused(DUPLICATE_TITLE);
    }
    var failure := RunChecks(data, selectedCount);
    if failure.Some? {
      return Refused(failure.value);
    }
    if me.None? {
      return Refused(CREATE_FAILED);
    }
    return Sent(data, me.value);
  }

  /**
   * A title in use, in any letter case, stops the create before every other
   * check; a create is sent only when the title is new and every shared
   * check passes, and then carries the form unchanged and the signed-in
   * user as creator.
   */
  lemma CreateOutcomeSpec(data: FormData, n: nat, titles: seq<string>, me: Option<string>)
    requires Submittable(data)
    ensures (exists i :: 0 <= i < |titles| && Lower(titles[i]) == Lower(data.title)) <==>
      CreateOutcome(data, n, titles, me) == Refused(DUPLICATE_TITLE)
    ensures CreateOutcome(data, n, titles, me).Sent? <==>
      && (forall i :: 0 <= i < |titles| ==> Lower(titles[i]) != Lower(data.title))
      && FirstFailure(data, n) == None
      && me.Some?
    ensures CreateOutcome(data, n, titles, me).Sent? ==>
      CreateOutcome(data, n, titles, me) == Sent(data, me.value)
    ensures !TitleInUse(data.title, titles) && FirstFailure(data, n).Some? ==>
      CreateOutcome(data, n, titles, me) == Refused(FirstFailure(data, n).value)
  {
    var p := (t: string) => Lower(t) == Lower(data.title);
    if exists i :: 0 <= i < |titles| && Lower(titles[i]) == Lower(data.title) {
      var i :| 0 <= i < |titles| && Lower(titles[i]) == Lower(data.title);
      assert p(titles[i]);
    }
    var failure := FirstFailure(data, n);
    assert failure.Some? ==> failure.value != DUPLICATE_TITLE;
  }

  /** A title differing from one in use only in letter case is still refused. */
  lemma TitleCheckIgnoresCase(title: string, other: string, titles: seq<string>)
    requires Lower(title) == Lower(other)
    ensures TitleInUse(title, titles) <==> TitleInUse(other, titles)
  {
    var p := (t: string) => Lower(t) == Lower(title);
    var q := (t: string) => Lower(t) == Lower(other);
    if Find(p, titles).Some? {
      assert q(Find(p, titles).value);
      FindSome(q, titles, Find(p, titles).value);
    }
    if Find(q, titles).Some? {
      assert p(Find(q, titles).value);
      FindSome(p, titles, Find(q, titles).value);
    }
  }

  lemma {:induction false} FindSome<T>(p: T -> bool, s: seq<T>, x: T)
    requires x in s && p(x)
    ensures Find(p, s).Some?
  {
    if !p(s[0]) {
      assert x in s[1..] by {
        var i :| 0 <= i < |s| && s[i] == x;
        assert i != 0;
        assert s[1..][i - 1] == x;
      }
      FindSome(p, s[1..], x);
    }
  }
}
