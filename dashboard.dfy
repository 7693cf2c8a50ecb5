/**
 * The dashboard: its OKR and user filters, the months its progress chart
 * covers, the average progress per month and the overall average.
 */
module Dashboard {
  import opened Common
  import opened Dates
  import opened OkrSchema
  import opened Quarters
  import opened Progress
  import opened ClientUsers
  import OkrList

  const ALL: string := "all"

  /** The dashboard's `filters` state; an empty date input is `None`. */
  datatype DashFilter = DashFilter(
    category: string,
    department: string,
    quarter: string,
    startDate: Option<Date>,
    endDate: Option<Date>)

  const NO_FILTER: DashFilter := DashFilter(ALL, ALL, ALL, None, None)

  /**
   * The OKR filter: category, department, the quarter of the start date
   * (computed as `Math.floor((getMonth() + 3) / 3)`) and date containment.
   * Stored dates are real calendar days; the quarter test reads no other.
   */
  predicate Matches(f: DashFilter, okr: Okr) {
    && (f.category == ALL || okr.category == f.category)
    && (f.department == ALL || okr.department == f.department)
    && (f.quarter == ALL || (Valid(okr.startDate) && DashboardQuarter(okr.startDate) == f.quarter))
    && OkrList.MatchesDateRange(okr, f.startDate, f.endDate)
  }

  function FilteredOkrs(okrs: seq<Okr>, f: DashFilter): seq<Okr> {
    Filter((okr: Okr) => Matches(f, okr), okrs)
  }

  /** The list page's filter with the dashboard's five values and every other test off. */
  function AsListFilter(f: DashFilter): OkrList.ListFilter {
    OkrList.NO_FILTER.(department := f.department, category := f.category, quarter := f.quarter,
                       startDate := f.startDate, endDate := f.endDate)
  }

  /**
   * The dashboard keeps exactly the OKRs the list page keeps for the same
   * category, department, quarter and dates: its own quarter arithmetic
   * agrees with `getQuarter`.
   */
  lemma FilterAgreesWithList(okrs: seq<Okr>, f: DashFilter)
    requires forall i :: 0 <= i < |okrs| ==> Valid(okrs[i].startDate)
    ensures FilteredOkrs(okrs, f) == OkrList.FilteredOkrs(okrs, AsListFilter(f))
  {
    var p := (okr: Okr) => Matches(f, okr);
    var q := (okr: Okr) => OkrList.Matches(AsListFilter(f), okr);
    forall i | 0 <= i < |okrs| ensures p(okrs[i]) == q(okrs[i]) {
      DashboardQuarterAgrees(okrs[i].startDate);
    }
    FilterSamePredicate(p, q, okrs);
  }

  lemma {:induction false} FilterSamePredicate<T>(p: T -> bool, q: T -> bool, s: seq<T>)
    requires forall i :: 0 <= i < |s| ==> p(s[i]) == q(s[i])
    ensures Filter(p, s) == Filter(q, s)
  {
    if s != [] {
      FilterSamePredicate(p, q, s[1..]);
    }
  }

  /** The users panel: filtered by department only. */
  function FilteredUsers(users: seq<Member>, department: string): seq<Member> {
    Filter((u: Member) => department == ALL || u.department == department, users)
  }

  /** The user count shows exactly the users of the chosen department, or all of them. */
  lemma FilteredUsersSpec(users: seq<Member>, department: string)
    ensures forall u :: u in FilteredUsers(users, department) <==>
      u in users && (department == ALL || u.department == department)
    ensures FilteredUsers(users, ALL) == users
  {
    forall u ensures u in FilteredUsers(users, department) <==>
      u in users && (department == ALL || u.department == department)
    {
      FilterMembership((m: Member) => department == ALL || m.department == department, users, u);
    }
    FilterAll((m: Member) => ALL == ALL || m.department == ALL, users);
  }

  // ---------------------------------------------------------------------------
  // getFilteredMonths
  // ---------------------------------------------------------------------------

  const MONTHS: seq<string> := ["Jan", "Feb", "Mar", "Apr", "May", "Jun", "Jul", "Aug", "Sep", "Oct", "Nov", "Dec"]

  /** The position of a quarter name, 0 for Q1 to 3 for Q4 (the `quarterMap` lookup). */
  function QuarterPosition(quarter: string): nat
    requires quarter in QUARTER_NAMES
  {
    if quarter == "Q1" then 0 else if quarter == "Q2" then 1 else if quarter == "Q3" then 2 else 3
  }

  /** The date inputs and the quarter select can only hold what they offer. */
  predicate WellFormed(f: DashFilter) {
    && (f.startDate.Some? ==> Valid(f.startDate.value))
    && (f.endDate.Some? ==> Valid(f.endDate.value))
    && (f.quarter == ALL || f.quarter in QUARTER_NAMES)
  }

  /**
   * `getFilteredMonths`: with both dates, the months from the start month to
   * the end month, wrapping past December; otherwise with a quarter, its
   * three months; otherwise all twelve.
   */
  function FilteredMonths(f: DashFilter): seq<string>
    requires WellFormed(f)
  {
    if f.startDate.Some? && f.endDate.Some? then
      Wrapped(MONTHS, f.startDate.value.month - 1, f.endDate.value.month - 1)
    else if f.quarter != ALL then
      var k := QuarterPosition(f.quarter);
      MONTHS[3 * k..3 * k + 3]
    else MONTHS
  }

  /** The elements of `xs` from position s to position e, wrapping past the end once. */
  function Wrapped<T>(xs: seq<T>, s: nat, e: nat): seq<T>
    requires s < |xs| && e < |xs|
  {
    if s <= e then xs[s..e + 1] else xs[s..] + xs[..e + 1]
  }

  lemma ModBelow(a: int, n: int)
    requires 0 <= a < n
    ensures a % n == a
  {
  }

  lemma ModOnce(a: int, n: int)
    requires 0 < n <= a < 2 * n
    ensures a % n == a - n
  {
    assert a == 1 * n + (a - n);
  }

  lemma WrappedSpec<T>(xs: seq<T>, s: nat, e: nat)
    requires s < |xs| && e < |xs|
    ensures |Wrapped(xs, s, e)| == (e - s + |xs|) % |xs| + 1
    ensures forall k :: 0 <= k < |Wrapped(xs, s, e)| ==> Wrapped(xs, s, e)[k] == xs[(s + k) % |xs|]
  {
    var n := |xs|;
    var r := Wrapped(xs, s, e);
    if s > e {
      ModBelow(e - s + n, n);
      forall k | 0 <= k < |r| ensures r[k] == xs[(s + k) % n] {
        if k < n - s {
          ModBelow(s + k, n);
          assert r[k] == xs[s..][k];
        } else {
          ModOnce(s + k, n);
          assert r[k] == xs[..e + 1][k - (n - s)];
        }
      }
    } else {
      ModOnce(e - s + n, n);
      forall k | 0 <= k < |r| ensures r[k] == xs[(s + k) % n] {
        ModBelow(s + k, n);
      }
    }
  }

  /**
   * With both dates the chart runs month by month from the start month to
   * the end month, wrapping once past December, whatever quarter is chosen.
   */
  lemma MonthsBetweenDates(f: DashFilter)
    requires WellFormed(f) && f.startDate.Some? && f.endDate.Some?
    ensures var s := f.startDate.value.month - 1;
      var e := f.endDate.value.month - 1;
      var r := FilteredMonths(f);
      && |r| == (e - s + 12) % 12 + 1
      && (forall k :: 0 <= k < |r| ==> r[k] == MONTHS[(s + k) % 12])
      && r == FilteredMonths(f.(quarter := ALL))
  {
    WrappedSpec(MONTHS, f.startDate.value.month - 1, f.endDate.value.month - 1);
  }

  /**
   * Without both dates a chosen quarter shows its three months, each of which
   * `getQuarter` files under that quarter; with no quarter either, the chart
   * shows the whole year.
   */
  lemma MonthsWithoutDates(f: DashFilter)
    requires WellFormed(f) && (f.startDate.None? || f.endDate.None?)
    ensures f.quarter == ALL ==> FilteredMonths(f) == MONTHS
    ensures f.quarter != ALL ==>
      var k := QuarterPosition(f.quarter);
      && FilteredMonths(f) == [MONTHS[3 * k], MONTHS[3 * k + 1], MONTHS[3 * k + 2]]
      && forall m :: 3 * k + 1 <= m <= 3 * k + 3 ==> GetQuarter(Date(2024, m, 1)) == f.quarter
  {
    if f.quarter != ALL {
      var k := QuarterPosition(f.quarter);
      assert QuarterName(k + 1) == f.quarter;
      forall m | 3 * k + 1 <= m <= 3 * k + 3 ensures GetQuarter(Date(2024, m, 1)) == f.quarter {
        assert (m - 1) / 3 + 1 == k + 1;
      }
    }
  }

  /** Every month the chart shows is one of the twelve. */
  lemma FilteredMonthsAreMonths(f: DashFilter)
    requires WellFormed(f)
    ensures forall k :: 0 <= k < |FilteredMonths(f)| ==> FilteredMonths(f)[k] in MONTHS
  {
    if f.startDate.Some? && f.endDate.Some? {
      MonthsBetweenDates(f);
    } else {
      MonthsWithoutDates(f);
    }
  }

  // ---------------------------------------------------------------------------
  // Monthly and overall averages
  // ---------------------------------------------------------------------------

  /** `new Date(`${month} 1, 2024`).getMonth()`: the month's position in the year, from 0. */
  function MonthIndex(month: string): (r: nat)
    requires month in MONTHS
    ensures r < 12 && MONTHS[r] == month
  {
    IndexOf(MONTHS, month)
  }

  function IndexOf(s: seq<string>, x: string): (r: nat)
    requires x in s
    ensures r < |s| && s[r] == x
  {
    if s[0] == x then 0 else 1 + IndexOf(s[1..], x)
  }

  /** The OKRs running on the first day of the month in 2024 (the reference year). */
  function OkrsInMonth(okrs: seq<Okr>, month: string): seq<Okr>
    requires month in MONTHS
  {
    var day := FirstOfMonth(2024, MonthIndex(month) + 1);
    Filter((okr: Okr) => NotAfter(okr.startDate, day) && NotAfter(day, okr.endDate), okrs)
  }

  /** `calculateAverageProgressForMonth`: the rounded mean progress of the OKRs running on that day, or 0. */
  function AverageProgressForMonth(okrs: seq<Okr>, month: string): int
    requires month in MONTHS
  {
    MeanProgress(OkrsInMonth(okrs, month))
  }

  datatype MonthPoint = MonthPoint(month: string, progress: int)

  /** `months.map((month) => ({ month, progress: ... }))`: the chart's data. */
  function ProgressSeries(okrs: seq<Okr>, months: seq<string>): seq<MonthPoint>
    requires forall k :: 0 <= k < |months| ==> months[k] in MONTHS
  {
    seq(|months|, k requires 0 <= k < |months| => MonthPoint(months[k], AverageProgressForMonth(okrs, months[k])))
  }

  lemma {:induction false} FilterKeepsWithin(p: Okr -> bool, okrs: seq<Okr>, lo: int, hi: int)
    requires ProgressWithin(okrs, lo, hi)
    ensures ProgressWithin(Filter(p, okrs), lo, hi)
  {
    var r := Filter(p, okrs);
    forall i | 0 <= i < |r| ensures lo <= r[i].progress <= hi {
      FilterMembership(p, okrs, r[i]);
    }
  }

  /**
   * The chart has one point per shown month, in the same order, each the
   * average for its month; when every OKR's progress lies in lo..hi, so does
   * every point (0 counts for a month with no running OKR).
   */
  lemma ProgressSeriesSpec(okrs: seq<Okr>, f: DashFilter, lo: int, hi: int)
    requires WellFormed(f)
    requires lo <= 0 <= hi && ProgressWithin(okrs, lo, hi)
    ensures forall k :: 0 <= k < |FilteredMonths(f)| ==> FilteredMonths(f)[k] in MONTHS
    ensures var months := FilteredMonths(f);
      var series := ProgressSeries(okrs, months);
      && |series| == |months|
      && forall k :: 0 <= k < |series| ==>
        && series[k].month == months[k]
        && series[k].progress == AverageProgressForMonth(okrs, months[k])
        && lo <= series[k].progress <= hi
  {
    FilteredMonthsAreMonths(f);
    var months := FilteredMonths(f);
    forall k | 0 <= k < |months| ensures lo <= AverageProgressForMonth(okrs, months[k]) <= hi {
      var day := FirstOfMonth(2024, MonthIndex(months[k]) + 1);
      FilterKeepsWithin((okr: Okr) => NotAfter(okr.startDate, day) && NotAfter(day, okr.endDate), okrs, lo, hi);
      MeanProgressBounds(OkrsInMonth(okrs, months[k]), lo, hi);
    }
  }

  /** OKRs that all start in 2025 or later leave every month of the chart at 0. */
  lemma LaterOkrsLeaveMonthsEmpty(okrs: seq<Okr>, month: string)
    requires month in MONTHS
    requires forall i :: 0 <= i < |okrs| ==> okrs[i].startDate.year >= 2025
    ensures AverageProgressForMonth(okrs, month) == 0
  {
    var day := FirstOfMonth(2024, MonthIndex(month) + 1);
    FilterNone((okr: Okr) => NotAfter(okr.startDate, day) && NotAfter(day, okr.endDate), okrs);
  }

  /**
   * A month counts an OKR only if it runs on the 1st of that month: an OKR
   * of 2024 that starts after the 1st and ends within the same month counts
   * for no month of the chart, whatever its progress.
   */
  lemma MonthReadsItsFirstDay(okr: Okr, month: string)
    requires month in MONTHS
    requires okr.startDate.year == 2024 && okr.endDate.year == 2024
    requires okr.startDate.month == okr.endDate.month && okr.startDate.day > 1
    ensures AverageProgressForMonth([okr], month) == 0
  {
    var day := FirstOfMonth(2024, MonthIndex(month) + 1);
    FilterNone((o: Okr) => NotAfter(o.startDate, day) && NotAfter(day, o.endDate), [okr]);
  }
}
