/**
 * Calendar dates as Python's `datetime.date` has them: the proleptic
 * Gregorian calendar on the years 1 to 9999, ordered lexicographically by
 * (year, month, day).  Subtracting days below 0001-01-01 raises
 * `OverflowError` in Python; here it gives `None`.
 */
module Dates {
  import opened Wrappers

  datatype Date = Date(year: int, month: int, day: int)

  const MinYear: int := 1
  const MaxYear: int := 9999

  predicate IsLeapYear(y: int) {
    y % 4 == 0 && (y % 100 != 0 || y % 400 == 0)
  }

  function DaysInMonth(y: int, m: int): (n: int)
    requires 1 <= m <= 12
    ensures 28 <= n <= 31
    ensures n == 29 <==> m == 2 && IsLeapYear(y)
  {
    if m == 2 then (if IsLeapYear(y) then 29 else 28)
    else if m == 4 || m == 6 || m == 9 || m == 11 then 30
    else 31
  }

  function DaysInYear(y: int): int {
    if IsLeapYear(y) then 366 else 365
  }

  /** A date Python can represent. */
  predicate Valid(d: Date) {
    MinYear <= d.year <= MaxYear && 1 <= d.month <= 12 && 1 <= d.day <= DaysInMonth(d.year, d.month)
  }

  /** `a <= b` on `datetime.date`. */
  predicate Le(a: Date, b: Date) {
    a.year < b.year || (a.year == b.year && (a.month < b.month || (a.month == b.month && a.day <= b.day)))
  }

  /** `a < b` on `datetime.date`. */
  predicate Lt(a: Date, b: Date) {
    Le(a, b) && a != b
  }

  lemma LeTransitive(a: Date, b: Date, c: Date)
    requires Le(a, b) && Le(b, c)
    ensures Le(a, c)
  {
  }

  // ---------------------------------------------------------------------
  // Day numbers (`date.toordinal()`): 0001-01-01 is day 1.

  /** Number of days in the years before `y`. */
  function DaysBeforeYear(y: int): (n: nat)
    requires MinYear <= y
    ensures y > MinYear ==> n >= 365
    decreases y
  {
    if y == MinYear then 0 else DaysBeforeYear(y - 1) + DaysInYear(y - 1)
  }

  /** Number of days in year `y` before the first of month `m`. */
  function DaysBeforeMonth(y: int, m: int): (n: nat)
    requires 1 <= m <= 12
    ensures m > 1 ==> n >= 31
  {
    var leap := if IsLeapYear(y) && m > 2 then 1 else 0;
    leap + (match m
      case 1 => 0   case 2 => 31  case 3 => 59  case 4 => 90
      case 5 => 120 case 6 => 151 case 7 => 181 case 8 => 212
      case 9 => 243 case 10 => 273 case 11 => 304 case _ => 334)
  }

  function Ordinal(d: Date): (n: int)
    requires Valid(d)
    ensures n >= 1
    ensures n == 1 <==> d == Date(MinYear, 1, 1)
  {
    DaysBeforeYear(d.year) + DaysBeforeMonth(d.year, d.month) + d.day
  }

  // ---------------------------------------------------------------------
  // The date operations the ranking queries use.

  /** `d.replace(day=1)`. */
  function FirstOfMonth(d: Date): (r: Date)
    requires Valid(d)
    ensures Valid(r) && r.day == 1 && Le(r, d)
    ensures r.year == d.year && r.month == d.month
  {
    d.(day := 1)
  }

  /** `d - timedelta(days=1)`; `None` where Python raises `OverflowError`. */
  function PreviousDay(d: Date): (r: Option<Date>)
    requires Valid(d)
    ensures r.None? <==> d == Date(MinYear, 1, 1)
    ensures r.Some? ==> Valid(r.value) && Lt(r.value, d)
  {
    if d.day > 1 then Some(d.(day := d.day - 1))
    else if d.month > 1 then Some(Date(d.year, d.month - 1, DaysInMonth(d.year, d.month - 1)))
    else if d.year > MinYear then Some(Date(d.year - 1, 12, 31))
    else None
  }

  /** Month lengths add up: the first of month `m` comes one month after the first of month `m - 1`. */
  lemma DaysBeforeMonthStep(y: int, m: int)
    requires 2 <= m <= 12
    ensures DaysBeforeMonth(y, m) == DaysBeforeMonth(y, m - 1) + DaysInMonth(y, m - 1)
  {
  }

  /** December 31st is the last day of the year. */
  lemma DaysBeforeDecember(y: int)
    ensures DaysBeforeMonth(y, 12) + 31 == DaysInYear(y)
  {
  }

  /** The day before is exactly one day number earlier. */
  lemma PreviousDayOrdinal(d: Date)
    requires Valid(d) && PreviousDay(d).Some?
    ensures Ordinal(PreviousDay(d).value) == Ordinal(d) - 1
  {
    if d.day == 1 {
      if d.month > 1 {
        DaysBeforeMonthStep(d.year, d.month);
      } else {
        DaysBeforeDecember(d.year - 1);
        assert DaysBeforeYear(d.year) == DaysBeforeYear(d.year - 1) + DaysInYear(d.year - 1);
      }
    }
  }

  /** `d - timedelta(days=n)`; `None` where Python raises `OverflowError`. */
  function MinusDays(d: Date, n: nat): (r: Option<Date>)
    requires Valid(d)
    ensures r.Some? ==> Valid(r.value) && Le(r.value, d)
    ensures r.Some? && n > 0 ==> Lt(r.value, d)
    decreases n
  {
    if n == 0 then Some(d)
    else match PreviousDay(d)
      case None => None
      case Some(p) =>
        var r := MinusDays(p, n - 1);
        assert r.Some? ==> Le(r.value, p) && Lt(p, d);
        r
  }

  /** Subtracting `n` days succeeds exactly when the day number stays positive, and lowers it by `n`. */
  lemma {:induction false} MinusDaysOrdinal(d: Date, n: nat)
    requires Valid(d)
    ensures MinusDays(d, n).Some? <==> Ordinal(d) - n >= 1
    ensures MinusDays(d, n).Some? ==> Ordinal(MinusDays(d, n).value) == Ordinal(d) - n
    decreases n
  {
    if n > 0 {
      match PreviousDay(d)
      case None =>
        assert Ordinal(d) == 1;
      case Some(p) =>
        assert MinusDays(d, n) == MinusDays(p, n - 1);
        PreviousDayOrdinal(d);
        MinusDaysOrdinal(p, n - 1);
    }
  }

  /**
   * The earliest first occurrence a long-term problem may have: the first
   * day of the month before `today`'s month, computed as
   * `(today.replace(day=1) - timedelta(days=1)).replace(day=1)`.
   */
  function MinFirstOccurrence(today: Date): (r: Option<Date>)
    requires Valid(today)
    ensures r.None? <==> today.year == MinYear && today.month == 1
    ensures r.Some? ==> Valid(r.value) && r.value.day == 1 && Lt(r.value, today)
    ensures r.Some? && today.month == 1 ==> r.value.year == today.year - 1 && r.value.month == 12
    ensures r.Some? && today.month > 1 ==> r.value.year == today.year && r.value.month == today.month - 1
  {
    match PreviousDay(FirstOfMonth(today))
    case None => None
    case Some(lastOfPrevious) => Some(FirstOfMonth(lastOfPrevious))
  }
}
