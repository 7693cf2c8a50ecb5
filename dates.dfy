/**
 * Calendar dates as the JavaScript `Date` objects of the source use them:
 * compared chronologically, read by calendar month, and moved forward with
 * `setMonth(getMonth() + n)`, which lets a day past the end of the target
 * month spill into the following month. Times of day and time zones are not
 * modelled.
 */
module Dates {

  datatype Date = Date(year: int, month: int, day: int)

  predicate IsLeapYear(y: int) {
    (y % 4 == 0 && y % 100 != 0) || y % 400 == 0
  }

  function DaysInMonth(y: int, m: int): int
    requires 1 <= m <= 12
  {
    if m == 2 then (if IsLeapYear(y) then 29 else 28)
    else if m == 4 || m == 6 || m == 9 || m == 11 then 30
    else 31
  }

  /** A real calendar day: month 1..12 and a day that exists in that month. */
  predicate Valid(d: Date) {
    1 <= d.month <= 12 && 1 <= d.day <= DaysInMonth(d.year, d.month)
  }

  /** `a < b` on JavaScript dates. */
  predicate Before(a: Date, b: Date) {
    a.year < b.year
    || (a.year == b.year && a.month < b.month)
    || (a.year == b.year && a.month == b.month && a.day < b.day)
  }

  /** `a <= b` on JavaScript dates. */
  predicate NotAfter(a: Date, b: Date) {
    !Before(b, a)
  }

  /** A number that increases with the date (31 slots per month, 12 months per year). */
  function Ord(d: Date): int {
    d.year * 372 + (d.month - 1) * 31 + (d.day - 1)
  }

  lemma OrdMonotone(a: Date, b: Date)
    requires Valid(a) && Valid(b)
    ensures Before(a, b) <==> Ord(a) < Ord(b)
  {
    if a.year < b.year {
      assert Ord(a) < (a.year + 1) * 372 <= Ord(b);
    } else if b.year < a.year {
      assert Ord(b) < (b.year + 1) * 372 <= Ord(a);
    }
  }

  /** The first day of the month after (y, m). */
  function FirstOfNextMonth(y: int, m: int): Date
    requires 1 <= m <= 12
  {
    if m == 12 then Date(y + 1, 1, 1) else Date(y, m + 1, 1)
  }

  /**
   * `d.setMonth(d.getMonth() + 3)`: the same day three months later, or, when
   * that month is too short, the corresponding day early in the month after it
   * (March 31 becomes July 1).
   */
  function AddThreeMonths(d: Date): (r: Date)
    requires Valid(d)
    ensures Valid(r) && Before(d, r)
    ensures Ord(r) >= Ord(d) + 93
    ensures r.year == d.year || r.year == d.year + 1
    ensures var m := (d.month + 2) % 12 + 1;
      var y := d.year + (d.month + 2) / 12;
      && (d.day <= DaysInMonth(y, m) ==> r == Date(y, m, d.day))
      && (d.day > DaysInMonth(y, m) ==> (r.month - d.month) % 12 == 4 && 1 <= r.day <= 3 && r.day == d.day - DaysInMonth(y, m))
    ensures ((r.month - d.month) % 12 == 3 && r.day == d.day)
      || ((r.month - d.month) % 12 == 4 && 28 < d.day && 1 <= r.day <= 3)
  {
    var index := d.month - 1 + 3;
    var y := d.year + index / 12;
    var m := index % 12 + 1;
    var length := DaysInMonth(y, m);
    if d.day <= length then Date(y, m, d.day)
    else
      var next := FirstOfNextMonth(y, m);
      Date(next.year, next.month, d.day - length)
  }

  /** The first day of a month, `new Date(year, month - 1, 1)`. */
  function FirstOfMonth(year: int, month: int): (r: Date)
    requires 1 <= month <= 12
    ensures Valid(r)
  {
    Date(year, month, 1)
  }
}
