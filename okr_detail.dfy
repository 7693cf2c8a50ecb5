/**
 * The OKR detail page: the owners' initials and names, and the percentage
 * shown for each key result, and its `canEdit` test. Its status badge is
 * `Progress.DetailStatus`, its quarter badges `Quarters.QuarterLabels`.
 */
module OkrDetail {
  import opened Common
  import opened OkrSchema
  import opened Progress
  import opened ClientUsers
  import OkrList
  import OkrService

  /** `name.charAt(0)`: the first character, or "" for an empty word. */
  function FirstChar(w: string): string {
    if w == [] then [] else [w[0]]
  }

  function FirstChars(words: seq<string>): seq<string> {
    seq(|words|, i requires 0 <= i < |words| => FirstChar(words[i]))
  }

  /** The detail page's `getUserInitials`: the first character of every space-separated word, upper-cased. */
  function DetailInitials(fullName: string): string {
    Upper(Concat(FirstChars(Split(fullName, ' '))))
  }

  /** Initials are made per word: those of `a b` are those of `a` followed by those of `b`. */
  lemma DetailInitialsPerWord(a: string, b: string)
    requires ' ' !in a
    ensures DetailInitials(a + " " + b) == DetailInitials(a) + DetailInitials(b)
  {
    assert a + " " + b == a + [' '] + b;
    SplitAtFirst(a, b, ' ');
    SplitNoSeparator(a, ' ');
    var rest := FirstChars(Split(b, ' '));
    assert FirstChars([a] + Split(b, ' ')) == [FirstChar(a)] + rest;
    assert FirstChars(Split(a, ' ')) == [FirstChar(a)];
    ConcatAppend([FirstChar(a)], rest);
    var single := [FirstChar(a)];
    assert single[1..] == [];
    assert Concat(single) == single[0] + Concat(single[1..]);
    UpperAppend(FirstChar(a), Concat(rest));
  }

  /** A name without spaces gives its first character, upper-cased. */
  lemma DetailInitialsOfWord(w: string)
    requires ' ' !in w
    ensures DetailInitials(w) == Upper(FirstChar(w))
  {
    SplitNoSeparator(w, ' ');
    assert FirstChars([w]) == [FirstChar(w)];
    var single := [FirstChar(w)];
    assert single[1..] == [];
    assert Concat(single) == single[0] + Concat(single[1..]);
  }

  /**
   * The two pages' initials differ: for a first and a last name made of
   * letters the list keeps the letters' case while the detail page
   * upper-cases them ("ann lee" is "al" on the list and "AL" here), and the
   * detail page drops digits ("R2 D2" is "RD" here and "R2D2" on the list).
   */
  lemma InitialsDifferBetweenPages(first: string, last: string)
    requires first != [] && forall i :: 0 <= i < |first| ==> OkrList.AsciiLetter(first[i])
    requires last != [] && forall i :: 0 <= i < |last| ==> OkrList.AsciiLetter(last[i])
    ensures OkrList.Initials(first + " " + last) == [first[0], last[0]]
    ensures DetailInitials(first + " " + last) == [UpperChar(first[0]), UpperChar(last[0])]
    ensures DetailInitials("R2 D2") == "RD"
  {
    OkrList.InitialsOfTwoNames(first, last);
    DetailInitialsPerWord(first, last);
    DetailInitialsOfWord(first);
    DetailInitialsOfWord(last);
    var r, d := "R2", "D2";
    DetailInitialsPerWord(r, d);
    DetailInitialsOfWord(r);
    DetailInitialsOfWord(d);
    assert r + " " + d == "R2 D2";
  }

  /** `getOwnerName`: the name of the first listed user with the id, or "Unknown User". */
  function OwnerName(users: seq<Member>, ownerId: string): string {
    match FindMember(users, ownerId)
    case None => "Unknown User"
    case Some(m) => m.name
  }

  /**
   * An owner id no listed user carries shows as "Unknown User" (as the id of
   * a deleted user does); any other shows the name of the first user with
   * that id.
   */
  lemma OwnerNameSpec(users: seq<Member>, ownerId: string)
    ensures ownerId !in Ids(users) ==> OwnerName(users, ownerId) == "Unknown User"
    ensures ownerId in Ids(users) ==>
      exists i :: 0 <= i < |users| && users[i].id == ownerId && OwnerName(users, ownerId) == users[i].name
        && forall j :: 0 <= j < i ==> users[j].id != ownerId
  {
    FindMemberSpec(users, ownerId);
  }

  /**
   * The percentage shown for a key result the server stored,
   * `Math.round((kr.currentValue / kr.targetValue) * 100)`, is exactly its
   * stored progress: unclamped, so above 100 for an overshot target, where
   * the dialogs show 100 instead.
   */
  lemma DetailPercentageOfStoredKeyResult(krs: seq<KeyResultInput>, i: int)
    requires OkrService.InputTargetsPositive(krs) && 0 <= i < |krs|
    ensures var kr := OkrService.WithProgress(krs)[i];
      && KeyResultProgress(kr.currentValue, kr.targetValue) == kr.progress
      && (0.0 <= kr.currentValue <= kr.targetValue ==> 0 <= kr.progress <= 100)
      && (kr.currentValue > kr.targetValue ==> kr.progress >= 100)
      && DisplayedProgress(kr.currentValue, kr.targetValue) == (if kr.progress < 100 then kr.progress else 100)
  {
    var kr := OkrService.WithProgress(krs)[i];
    KeyResultProgressRange(kr.currentValue, kr.targetValue);
    DisplayedProgressSpec(kr.currentValue, kr.targetValue);
  }

  /**
   * `canEdit`: an OKR is loaded and the signed-in user created it or is
   * among its owners.
   */
  predicate CanEdit(okr: Option<Okr>, userId: string) {
    okr.Some? && (okr.value.createdBy == userId || userId in okr.value.owners)
  }

  /**
   * The detail page offers the edit control to exactly the users the list
   * page offers its edit and delete controls to, and to nobody before the
   * OKR is loaded; the test reads the user id alone, so an Admin who neither
   * created nor owns an OKR gets no control.
   */
  lemma CanEditAgreesWithList(okr: Okr, userId: string)
    ensures CanEdit(Some(okr), userId) <==> OkrList.CanEdit(okr, userId)
    ensures !CanEdit(None, userId)
    ensures okr.createdBy != userId && userId !in okr.owners ==> !CanEdit(Some(okr), userId)
  {
  }
}
