/** Calendar quarters of dates: `getQuarter` and the quarter badges of an OKR's span. */
module Quarters {
  import opened Common
  import opened Dates

  /** "Q1" .. "Q4" for n = 1 .. 4 (any single digit is spelled the same way). */
  function QuarterName(n: int): string
    requires 0 <= n <= 9
  {
    "Q" + [('0' as int + n) as char]
  }

  const QUARTER_NAMES: seq<string> := ["Q1", "Q2", "Q3", "Q4"]

  /**
   * `getQuarter`: months 1-3 are Q1, 4-6 Q2, 7-9 Q3 and everything else Q4;
   * only the month is read. For a real month this is quarter (month - 1) / 3 + 1.
   */
  function GetQuarter(d: Date): (q: string)
    ensures q in QUARTER_NAMES
    ensures 1 <= d.month <= 12 ==> q == QuarterName((d.month - 1) / 3 + 1)
  {
    var month := d.month;
    if 1 <= month <= 3 then "Q1"
    else if 4 <= month <= 6 then "Q2"
    else if 7 <= month <= 9 then "Q3"
    else "Q4"
  }

  /** Two dates in the same calendar month (of any year) share their quarter. */
  lemma QuarterDependsOnMonthOnly(a: Date, b: Date)
    requires a.month == b.month
    ensures GetQuarter(a) == GetQuarter(b)
  {
  }

  /**
   * The dashboard's own quarter, `Q${Math.floor((date.getMonth() + 3) / 3)}`,
   * where getMonth counts months from 0.
   */
  function DashboardQuarter(d: Date): string
    requires Valid(d)
  {
    QuarterName((d.month - 1 + 3) / 3)
  }

  lemma DashboardQuarterAgrees(d: Date)
    requires Valid(d)
    ensures DashboardQuarter(d) == GetQuarter(d)
  {
  }

  // ---------------------------------------------------------------------------
  // getQuarterLabels
  // ---------------------------------------------------------------------------

  /** The dates the label loop visits: start, start + 3 months, ... while not after end. */
  function Samples(current: Date, end: Date): seq<Date>
    requires Valid(current) && Valid(end)
    decreases Ord(end) - Ord(current)
  {
    OrdMonotone(end, current);
    if NotAfter(current, end) then [current] + Samples(AddThreeMonths(current), end) else []
  }

  function QuartersOf(ds: seq<Date>): seq<string> {
    seq(|ds|, i requires 0 <= i < |ds| => GetQuarter(ds[i]))
  }

  /** What `getQuarterLabels` returns: the distinct quarters of the visited dates, first seen first. */
  function QuarterLabelsOf(start: Date, end: Date): seq<string>
    requires Valid(start) && Valid(end)
  {
    Dedup(QuartersOf(Samples(start, end)))
  }

  /**
   * `getQuarterLabels` (identical in the OKR list and OKR detail pages): walk
   * from the start date in steps of three months while the date is not after
   * the end date, collecting each new quarter label.
   */
  method QuarterLabels(start: Date, end: Date) returns (quarters: seq<string>)
    requires Valid(start) && Valid(end)
    ensures quarters == QuarterLabelsOf(start, end)
  {
    quarters := [];
    var current := start;
    while NotAfter(current, end)
      invariant Valid(current)
      invariant DedupInto(quarters, QuartersOf(Samples(current, end))) == QuarterLabelsOf(start, end)
      decreases Ord(end) - Ord(current)
    {
      OrdMonotone(end, current);
      var next := AddThreeMonths(current);
      var rest := Samples(next, end);
      assert Samples(current, end) == [current] + rest;
      assert QuartersOf([current] + rest) == [GetQuarter(current)] + QuartersOf(rest);
      var quarter := GetQuarter(current);
      if quarter !in quarters {
        quarters := quarters + [quarter];
      }
      current := next;
    }
  }

  lemma {:induction false} SamplesSpec(current: Date, end: Date)
    requires Valid(current) && Valid(end)
    decreases Ord(end) - Ord(current)
    ensures var s := Samples(current, end);
      && (s == [] <==> Before(end, current))
      && (s != [] ==> s[0] == current)
      && (forall i :: 0 <= i < |s| ==> Valid(s[i]) && NotAfter(current, s[i]) && NotAfter(s[i], end))
  {
    OrdMonotone(end, current);
    if NotAfter(current, end) {
      var next := AddThreeMonths(current);
      SamplesSpec(next, end);
      var s := Samples(current, end);
      forall i | 0 <= i < |s| ensures Valid(s[i]) && NotAfter(current, s[i]) && NotAfter(s[i], end) {
        if i > 0 {
          assert s[i] == Samples(next, end)[i - 1];
          OrdMonotone(current, next);
          OrdMonotone(next, s[i]);
          OrdMonotone(s[i], current);
        }
      }
    }
  }

  /**
   * The labels are distinct quarter names; there are none exactly when the
   * start is after the end; otherwise the first is the start date's quarter;
   * and a label appears exactly when some visited date lies in that quarter.
   */
  lemma QuarterLabelsSpec(start: Date, end: Date)
    requires Valid(start) && Valid(end)
    ensures var labels := QuarterLabelsOf(start, end);
      && NoDup(labels)
      && (forall q :: q in labels ==> q in QUARTER_NAMES)
      && (labels == [] <==> Before(end, start))
      && (labels != [] ==> labels[0] == GetQuarter(start))
      && (forall q :: q in labels <==> exists d :: d in Samples(start, end) && GetQuarter(d) == q)
  {
    var s := Samples(start, end);
    DedupSpec(QuartersOf(s));
    SamplesSpec(start, end);
    QuartersOfMembership(s);
  }

  /** A quarter is listed for a sequence of dates exactly when one of the dates lies in it. */
  lemma QuartersOfMembership(s: seq<Date>)
    ensures forall q :: q in QuartersOf(s) <==> exists d :: d in s && GetQuarter(d) == q
  {
    var qs := QuartersOf(s);
    forall q ensures q in qs <==> exists d :: d in s && GetQuarter(d) == q {
      if q in qs {
        var i :| 0 <= i < |qs| && qs[i] == q;
        assert s[i] in s;
      }
      if exists d :: d in s && GetQuarter(d) == q {
        var d :| d in s && GetQuarter(d) == q;
        var i :| 0 <= i < |s| && s[i] == d;
        assert qs[i] == q;
      }
    }
  }

  /**
   * The walk samples one day per quarter, so a span can miss quarters it
   * covers: March 31 moves to July 1, and an OKR from 2024-03-31 to 2024-06-30
   * gets only the Q1 badge; one from 2024-01-15 to 2024-04-10 also gets only Q1.
   */
  lemma QuarterLabelsSkipCoveredQuarters()
    ensures QuarterLabelsOf(Date(2024, 3, 31), Date(2024, 6, 30)) == ["Q1"]
    ensures QuarterLabelsOf(Date(2024, 1, 15), Date(2024, 4, 10)) == ["Q1"]
  {
    var a := Date(2024, 3, 31);
    assert AddThreeMonths(a) == Date(2024, 7, 1);
    assert Samples(Date(2024, 7, 1), Date(2024, 6, 30)) == [];
    assert Samples(a, Date(2024, 6, 30)) == [a];
    assert QuartersOf([a]) == ["Q1"];
    var b := Date(2024, 1, 15);
    assert AddThreeMonths(b) == Date(2024, 4, 15);
    assert Samples(Date(2024, 4, 15), Date(2024, 4, 10)) == [];
    assert Samples(b, Date(2024, 4, 10)) == [b];
    assert QuartersOf([b]) == ["Q1"];
  }
}
