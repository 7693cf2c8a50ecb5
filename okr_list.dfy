/**
 * The OKR list page: its filter panel (nine fields, eight tests), the count
 * of active filters, the initials shown on owner avatars and the test that
 * shows the edit and delete controls.
 */
module OkrList {
  import opened Common
  import opened Dates
  import opened OkrSchema
  import opened Quarters
  import opened Progress
  import opened ClientUsers

  /** The select value that switches a filter off. */
  const ALL: string := "all"

  /**
   * The page's `filter` state. A date input left empty ("") is `None`; the
   * other fields hold the selected value or "all".
   */
  datatype ListFilter = ListFilter(
    department: string,
    category: string,
    search: string,
    createdBy: string,
    owners: string,
    startDate: Option<Date>,
    endDate: Option<Date>,
    quarter: string,
    status: string)

  /** The initial filter, which `resetFilters` restores. */
  const NO_FILTER: ListFilter := ListFilter(ALL, ALL, "", ALL, ALL, None, None, ALL, ALL)

  predicate MatchesSearch(okr: Okr, search: string) {
    search == "" || ContainsIgnoringCase(okr.title, search)
  }

  /** Containment, not overlap: the OKR starts no earlier and ends no later than the range. */
  predicate MatchesDateRange(okr: Okr, from: Option<Date>, to: Option<Date>) {
    (from.None? || NotAfter(from.value, okr.startDate)) && (to.None? || NotAfter(okr.endDate, to.value))
  }

  /** The predicate of `filteredOKRs`: every test whose value is set must pass. */
  predicate Matches(f: ListFilter, okr: Okr) {
    && (f.department == ALL || okr.department == f.department)
    && (f.category == ALL || okr.category == f.category)
    && MatchesSearch(okr, f.search)
    && (f.createdBy == ALL || okr.createdBy == f.createdBy)
    && (f.owners == ALL || f.owners in okr.owners)
    && (f.status == ALL || ListStatus(okr.progress) == f.status)
    && (f.quarter == ALL || GetQuarter(okr.startDate) == f.quarter)
    && MatchesDateRange(okr, f.startDate, f.endDate)
  }

  function FilteredOkrs(okrs: seq<Okr>, f: ListFilter): seq<Okr> {
    Filter((okr: Okr) => Matches(f, okr), okrs)
  }

  /**
   * The list shows exactly the fetched OKRs that pass every test, never more
   * than were fetched; the reset filter shows them all, and filtering the
   * shown list again changes nothing.
   */
  lemma FilteredOkrsSpec(okrs: seq<Okr>, f: ListFilter)
    ensures forall okr :: okr in FilteredOkrs(okrs, f) <==> okr in okrs && Matches(f, okr)
    ensures |FilteredOkrs(okrs, f)| <= |okrs|
    ensures FilteredOkrs(okrs, NO_FILTER) == okrs
    ensures FilteredOkrs(FilteredOkrs(okrs, f), f) == FilteredOkrs(okrs, f)
  {
    var p := (okr: Okr) => Matches(f, okr);
    forall okr ensures okr in FilteredOkrs(okrs, f) <==> okr in okrs && Matches(f, okr) {
      FilterMembership(p, okrs, okr);
    }
    FilterLength(p, okrs);
    FilterAll((okr: Okr) => Matches(NO_FILTER, okr), okrs);
    var shown := FilteredOkrs(okrs, f);
    forall i | 0 <= i < |shown| ensures p(shown[i]) {
      FilterMembership(p, okrs, shown[i]);
    }
    FilterAll(p, shown);
  }

  /**
   * The date range keeps only OKRs lying inside it: a year-long OKR is
   * dropped by a spring range although it covers it, while one inside the
   * range stays.
   */
  lemma DateRangeIsContainment()
    ensures var f := NO_FILTER.(startDate := Some(Date(2024, 3, 1)), endDate := Some(Date(2024, 6, 30)));
      var year := Okr("y", "Year", None, 0, Date(2024, 1, 1), Date(2024, 12, 31), TEAM, "QA", [], "u", NOT_STARTED, []);
      var spring := year.(startDate := Date(2024, 4, 1), endDate := Date(2024, 5, 31));
      !Matches(f, year) && Matches(f, spring)
  {
  }

  /** The quarter test reads the start date only: an OKR running from January to September is not a Q3 OKR. */
  lemma QuarterFilterReadsStartOnly()
    ensures var okr := Okr("o", "O", None, 0, Date(2024, 1, 10), Date(2024, 9, 30), TEAM, "QA", [], "u", NOT_STARTED, []);
      !Matches(NO_FILTER.(quarter := "Q3"), okr) && Matches(NO_FILTER.(quarter := "Q1"), okr)
  {
  }

  /**
   * An OKR whose progress lies outside 0..100 is classified "Unknown", so no
   * schema status selected in the panel shows it.
   */
  lemma StatusFilterHidesOutOfRange(okr: Okr, f: ListFilter)
    requires okr.progress < 0 || okr.progress > 100
    requires f.status in STATUSES
    ensures !Matches(f, okr)
  {
    StatusClassifiersAgree(okr.progress);
  }

  // ---------------------------------------------------------------------------
  // getActiveFiltersCount
  // ---------------------------------------------------------------------------

  /** A filter value counts as active unless it is "all" or "". */
  function Active(value: string): nat {
    if value == ALL || value == "" then 0 else 1
  }

  function ActiveDate(value: Option<Date>): nat {
    if value.None? then 0 else 1
  }

  /** `getActiveFiltersCount`: the number of the nine filter values that are neither "all" nor "". */
  function ActiveFiltersCount(f: ListFilter): nat {
    Active(f.department) + Active(f.category) + Active(f.search) + Active(f.createdBy) + Active(f.owners)
    + ActiveDate(f.startDate) + ActiveDate(f.endDate) + Active(f.quarter) + Active(f.status)
  }

  /**
   * At most nine filters are active; none is exactly when every value is
   * "all" or empty, as after a reset (which the page then disables).
   */
  lemma ActiveFiltersCountSpec(f: ListFilter)
    ensures ActiveFiltersCount(f) <= 9
    ensures ActiveFiltersCount(f) == 0 <==>
      && (f.department in [ALL, ""]) && (f.category in [ALL, ""]) && (f.search in [ALL, ""])
      && (f.createdBy in [ALL, ""]) && (f.owners in [ALL, ""]) && f.startDate.None? && f.endDate.None?
      && (f.quarter in [ALL, ""]) && (f.status in [ALL, ""])
    ensures ActiveFiltersCount(NO_FILTER) == 0
  {
  }

  /**
   * The count and the filter disagree on the search term "all": it is not
   * counted as active, yet it filters the list by title.
   */
  lemma SearchForAllIsNotCounted()
    ensures var f := NO_FILTER.(search := ALL);
      var okr := Okr("o", "Grow", None, 0, Date(2024, 1, 1), Date(2024, 2, 1), TEAM, "QA", [], "u", NOT_STARTED, []);
      ActiveFiltersCount(f) == 0 && !Matches(f, okr)
  {
    var hay := Lower("Grow");
    assert hay == "grow";
    assert Lower(ALL) == "all";
    assert !Contains(hay, "all") by {
      forall i | 0 <= i <= |hay| - 3 ensures hay[i..][..3] != "all" {
        assert hay[i..][..3][0] == hay[i];
      }
    }
  }

  // ---------------------------------------------------------------------------
  // getUserInitials
  // ---------------------------------------------------------------------------

  predicate AsciiLetter(c: char) {
    'A' <= c <= 'Z' || 'a' <= c <= 'z'
  }

  predicate Digit(c: char) {
    '0' <= c <= '9'
  }

  /** The digits of `w`, in order: what the runs `\d+` match, joined. */
  function Digits(w: string): string {
    if w == [] then [] else (if Digit(w[0]) then [w[0]] else []) + Digits(w[1..])
  }

  /** `name.match(/^[A-Za-z]|\d+/g)` joined: a leading ASCII letter, then every digit of the word. */
  function WordInitials(w: string): string {
    (if w != [] && AsciiLetter(w[0]) then [w[0]] else []) + Digits(w)
  }

  function WordsInitials(words: seq<string>): seq<string> {
    seq(|words|, i requires 0 <= i < |words| => WordInitials(words[i]))
  }

  /** `getUserInitials`: the initials of every space-separated word, concatenated. */
  function Initials(fullName: string): string {
    Concat(WordsInitials(Split(fullName, ' ')))
  }

  /** Initials are made per word: those of `a b` are those of `a` followed by those of `b`. */
  lemma InitialsPerWord(a: string, b: string)
    requires ' ' !in a
    ensures Initials(a + " " + b) == Initials(a) + Initials(b)
  {
    assert a + " " + b == a + [' '] + b;
    SplitAtFirst(a, b, ' ');
    SplitNoSeparator(a, ' ');
    var rest := WordsInitials(Split(b, ' '));
    assert WordsInitials([a] + Split(b, ' ')) == [WordInitials(a)] + rest;
    assert WordsInitials(Split(a, ' ')) == [WordInitials(a)];
    ConcatAppend([WordInitials(a)], rest);
    assert Concat([WordInitials(a)]) == WordInitials(a) by {
      assert [WordInitials(a)][1..] == [];
    }
    assert Initials(a) == WordInitials(a);
    assert Initials(b) == Concat(rest);
  }

  lemma {:induction false} DigitsAreDigits(w: string)
    ensures forall i :: 0 <= i < |Digits(w)| ==> Digit(Digits(w)[i])
    ensures |Digits(w)| <= |w|
  {
    if w != [] {
      DigitsAreDigits(w[1..]);
    }
  }

  predicate Alphanumeric(s: string) {
    forall i :: 0 <= i < |s| ==> AsciiLetter(s[i]) || Digit(s[i])
  }

  lemma {:induction false} ConcatAlphanumeric(ss: seq<string>)
    requires forall k :: 0 <= k < |ss| ==> Alphanumeric(ss[k])
    ensures Alphanumeric(Concat(ss))
  {
    if ss != [] {
      ConcatAlphanumeric(ss[1..]);
    }
  }

  /** Initials consist of ASCII letters and digits only. */
  lemma InitialsAlphanumeric(fullName: string)
    ensures Alphanumeric(Initials(fullName))
  {
    var words := WordsInitials(Split(fullName, ' '));
    forall k | 0 <= k < |words| ensures Alphanumeric(words[k]) {
      DigitsAreDigits(Split(fullName, ' ')[k]);
    }
    ConcatAlphanumeric(words);
  }

  /** A name without spaces is a single word. */
  lemma InitialsOfWord(w: string)
    requires ' ' !in w
    ensures Initials(w) == WordInitials(w)
  {
    SplitNoSeparator(w, ' ');
    assert WordsInitials([w]) == [WordInitials(w)];
    var single := [WordInitials(w)];
    assert single[1..] == [];
    assert Concat(single) == single[0] + Concat(single[1..]);
  }

  /** A first and a last name made of letters give their two first letters ("John Smith" gives "JS"). */
  lemma InitialsOfTwoNames(first: string, last: string)
    requires first != [] && forall i :: 0 <= i < |first| ==> AsciiLetter(first[i])
    requires last != [] && forall i :: 0 <= i < |last| ==> AsciiLetter(last[i])
    ensures Initials(first + " " + last) == [first[0], last[0]]
  {
    InitialsOfLetters(first);
    InitialsOfLetters(last);
    InitialsPerWord(first, last);
  }

  /** A word made of letters has its first letter as initials. */
  lemma InitialsOfLetters(w: string)
    requires w != [] && forall i :: 0 <= i < |w| ==> AsciiLetter(w[i])
    ensures Initials(w) == [w[0]]
  {
    InitialsOfWord(w);
    NoDigits(w);
  }

  /** A word made of letters has no digits. */
  lemma {:induction false} NoDigits(w: string)
    requires forall i :: 0 <= i < |w| ==> AsciiLetter(w[i])
    ensures Digits(w) == ""
  {
    if w != [] {
      NoDigits(w[1..]);
    }
  }

  /** Digits are kept whole: "R2 D2" gives "R2D2". */
  lemma InitialsKeepDigits()
    ensures Initials("R2 D2") == "R2D2"
  {
    var first, last := "R2", "D2";
    assert Initials(first) == "R2" by {
      InitialsOfWord(first);
      assert first[1..] == "2" && "2"[1..] == "";
    }
    assert Initials(last) == "D2" by {
      InitialsOfWord(last);
      assert last[1..] == "2" && "2"[1..] == "";
    }
    assert Initials(first + " " + last) == Initials(first) + Initials(last) by {
      InitialsPerWord(first, last);
    }
    assert first + " " + last == "R2 D2";
  }

  // ---------------------------------------------------------------------------
  // Edit and delete controls
  // ---------------------------------------------------------------------------

  /**
   * The edit and delete controls appear for the OKR's owners and its
   * creator. The server applies no such test.
   */
  predicate CanEdit(okr: Okr, userId: string) {
    userId in okr.owners || okr.createdBy == userId
  }

  // ---------------------------------------------------------------------------
  // The "Created By" filter's options
  // ---------------------------------------------------------------------------

  /** The value of a creator option as the page builds it: the user's name. */
  function CreatorOptionAsWritten(m: Member): string {
    m.name
  }

  /** The value the creator test compares with `createdBy`, which holds a user id. */
  function CreatorOption(m: Member): string {
    m.id
  }

  /**
   * As written, choosing a creator compares their name with the creators'
   * ids, so it hides every OKR whose creator id is not that name: Ann's own
   * OKR disappears when Ann is chosen.
   */
  lemma CreatorFilterAsWrittenHidesOwnOkrs(okrs: seq<Okr>, m: Member)
    requires m.name != ALL
    requires forall i :: 0 <= i < |okrs| ==> okrs[i].createdBy != m.name
    ensures FilteredOkrs(okrs, NO_FILTER.(createdBy := CreatorOptionAsWritten(m))) == []
    ensures var ann := Member("u1", "Ann", "ann@example.com", "QA", "Lead", "Employee");
      var okr := Okr("o", "O", None, 0, Date(2024, 1, 1), Date(2024, 2, 1), TEAM, "QA", [], "u1", NOT_STARTED, []);
      !Matches(NO_FILTER.(createdBy := CreatorOptionAsWritten(ann)), okr)
  {
    var f := NO_FILTER.(createdBy := CreatorOptionAsWritten(m));
    var shown := FilteredOkrs(okrs, f);
    if shown != [] {
      FilterMembership((o: Okr) => Matches(f, o), okrs, shown[0]);
      assert false;
    }
  }

  /** With the id as the option's value, choosing a creator shows exactly the OKRs that user created. */
  lemma CreatorFilterSelectsCreated(okrs: seq<Okr>, m: Member)
    requires m.id != ALL
    ensures forall okr :: okr in FilteredOkrs(okrs, NO_FILTER.(createdBy := CreatorOption(m))) <==>
      okr in okrs && okr.createdBy == m.id
  {
    var f := NO_FILTER.(createdBy := CreatorOption(m));
    FilteredOkrsSpec(okrs, f);
  }
}
