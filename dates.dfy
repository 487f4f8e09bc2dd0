/** Calendar dates of the proleptic Gregorian calendar, a day count that
    orders them, weekdays, and the ISO 8601 "YYYY-MM-DD" text form that
    both the backend and the frontend use for date fields. */
module Dates {
  import opened Common
  import opened Strings

  datatype Date = Date(year: int, month: int, day: int)

  predicate IsLeapYear(y: int) {
    y % 4 == 0 && (y % 100 != 0 || y % 400 == 0)
  }

  function DaysInMonth(y: int, m: int): int {
    if m == 2 then (if IsLeapYear(y) then 29 else 28)
    else if m == 4 || m == 6 || m == 9 || m == 11 then 30
    else 31
  }

  predicate Valid(d: Date) {
    1 <= d.year && 1 <= d.month <= 12 && 1 <= d.day <= DaysInMonth(d.year, d.month)
  }

  /** A date the calendar has. */
  type ValidDate = d: Date | Valid(d) witness Date(1, 1, 1)

  function YearLength(y: int): int {
    if IsLeapYear(y) then 366 else 365
  }

  /** Days from 0001-01-01 to the first day of year `y`. */
  function DaysBeforeYear(y: int): nat
    requires y >= 1
  {
    if y == 1 then 0 else DaysBeforeYear(y - 1) + YearLength(y - 1)
  }

  /** Days from the first of January to the first day of month `m`. */
  function DaysBeforeMonth(y: int, m: int): nat
    requires 1 <= m <= 12
  {
    var leap := if IsLeapYear(y) && m > 2 then 1 else 0;
    leap + (
      if m == 1 then 0 else if m == 2 then 31 else if m == 3 then 59
      else if m == 4 then 90 else if m == 5 then 120 else if m == 6 then 151
      else if m == 7 then 181 else if m == 8 then 212 else if m == 9 then 243
      else if m == 10 then 273 else if m == 11 then 304 else 334)
  }

  /** The number of days since 0001-01-01; it orders dates chronologically. */
  function DayIndex(d: Date): nat
    requires Valid(d)
  {
    DaysBeforeYear(d.year) + DaysBeforeMonth(d.year, d.month) + d.day - 1
  }

  /** Chronological order, compared field by field as Python compares
      dates. */
  predicate Before(a: Date, b: Date) {
    a.year < b.year || (a.year == b.year && (a.month < b.month || (a.month == b.month && a.day < b.day)))
  }

  lemma DayInYear(d: Date)
    requires Valid(d)
    ensures DaysBeforeMonth(d.year, d.month) + d.day <= YearLength(d.year)
  {
  }

  lemma {:induction false} DaysBeforeYearMonotone(a: int, b: int)
    requires 1 <= a <= b
    ensures DaysBeforeYear(a) + (if a < b then YearLength(a) else 0) <= DaysBeforeYear(b)
    decreases b - a
  {
    if a < b {
      DaysBeforeYearMonotone(a, b - 1);
    }
  }

  /** The field-by-field order is the order of the day count. */
  lemma BeforeIsDayOrder(a: Date, b: Date)
    requires Valid(a) && Valid(b)
    ensures Before(a, b) <==> DayIndex(a) < DayIndex(b)
  {
    DayInYear(a);
    DayInYear(b);
    if a.year < b.year {
      DaysBeforeYearMonotone(a.year, b.year);
    } else if b.year < a.year {
      DaysBeforeYearMonotone(b.year, a.year);
    } else if a.month < b.month {
      assert DaysBeforeMonth(a.year, a.month) + DaysInMonth(a.year, a.month) <= DaysBeforeMonth(a.year, b.month);
    } else if b.month < a.month {
      assert DaysBeforeMonth(a.year, b.month) + DaysInMonth(a.year, b.month) <= DaysBeforeMonth(a.year, a.month);
    }
  }

  /** Day of the week with Sunday as 0 (JavaScript's `getDay()`);
      0001-01-01 was a Monday. */
  function Weekday(d: Date): (w: nat)
    requires Valid(d)
    ensures w < 7
  {
    (DayIndex(d) + 1) % 7
  }

  /** The following calendar day. */
  function NextDay(d: Date): (r: Date)
    requires Valid(d)
    ensures Valid(r)
    ensures DayIndex(r) == DayIndex(d) + 1
  {
    if d.day < DaysInMonth(d.year, d.month) then d.(day := d.day + 1)
    else if d.month < 12 then Date(d.year, d.month + 1, 1)
    else Date(d.year + 1, 1, 1)
  }

  /** The preceding calendar day; 0001-01-01 has none. */
  function PrevDay(d: Date): (r: Date)
    requires Valid(d) && DayIndex(d) > 0
    ensures Valid(r)
    ensures DayIndex(r) + 1 == DayIndex(d)
  {
    if d.day > 1 then d.(day := d.day - 1)
    else if d.month > 1 then Date(d.year, d.month - 1, DaysInMonth(d.year, d.month - 1))
    else
      assert d.year > 1;
      Date(d.year - 1, 12, 31)
  }

  /** The date `n` days later. */
  function AddDays(d: Date, n: nat): (r: Date)
    requires Valid(d)
    ensures Valid(r)
    ensures DayIndex(r) == DayIndex(d) + n
    decreases n
  {
    if n == 0 then d
    else
      var next := NextDay(d);
      AddDays(next, n - 1)
  }

  /** The date `n` days earlier, when there is one. */
  function SubDays(d: Date, n: nat): (r: Date)
    requires Valid(d) && n <= DayIndex(d)
    ensures Valid(r)
    ensures DayIndex(r) + n == DayIndex(d)
    decreases n
  {
    if n == 0 then d
    else
      var prev := PrevDay(d);
      SubDays(prev, n - 1)
  }

  /** Two valid dates with the same day count are the same date. */
  lemma {:induction false} DayIndexInjective(a: Date, b: Date)
    requires Valid(a) && Valid(b) && DayIndex(a) == DayIndex(b)
    ensures a == b
    decreases DayIndex(a)
  {
    if DayIndex(a) > 0 {
      DayIndexInjective(PrevDay(a), PrevDay(b));
      assert NextDay(PrevDay(a)) == a by { NextPrev(a); }
      assert NextDay(PrevDay(b)) == b by { NextPrev(b); }
    } else {
      FirstDay(a);
      FirstDay(b);
    }
  }

  lemma NextPrev(d: Date)
    requires Valid(d) && DayIndex(d) > 0
    ensures NextDay(PrevDay(d)) == d
  {
    if d.day == 1 && d.month == 1 {
      assert DaysBeforeYear(d.year) == DaysBeforeYear(d.year - 1) + YearLength(d.year - 1);
    }
  }

  lemma FirstDay(d: Date)
    requires Valid(d) && DayIndex(d) == 0
    ensures d == Date(1, 1, 1)
  {
  }

  /** Python's `date.isoformat()`: "YYYY-MM-DD" with zero padding. */
  function IsoDate(d: Date): (s: string)
    requires Valid(d)
  {
    ZeroPad(d.year, 4) + "-" + ZeroPad(d.month, 2) + "-" + ZeroPad(d.day, 2)
  }

  predicate AllDigits(s: string) {
    forall i :: 0 <= i < |s| ==> IsDigit(s[i])
  }

  /** Reads a "YYYY-MM-DD" string; anything else, or a day the calendar
      does not have, gives `None`. */
  function ParseIsoDate(s: string): (r: Option<Date>)
    ensures r.Some? ==> Valid(r.value)
  {
    if |s| == 10 && s[4] == '-' && s[7] == '-' &&
       AllDigits(s[..4]) && AllDigits(s[5..7]) && AllDigits(s[8..])
    then
      var d := Date(ParseDigits(s[..4]), ParseDigits(s[5..7]), ParseDigits(s[8..]));
      if Valid(d) then Some(d) else None
    else None
  }

  /** Reading back the text of a four-digit-year date gives the date. */
  lemma IsoDateRoundTrip(d: Date)
    requires Valid(d) && d.year <= 9999
    ensures ParseIsoDate(IsoDate(d)) == Some(d)
  {
    var y, m, dd := ZeroPad(d.year, 4), ZeroPad(d.month, 2), ZeroPad(d.day, 2);
    ZeroPadRoundTrip(d.year, 4);
    ZeroPadRoundTrip(d.month, 2);
    ZeroPadRoundTrip(d.day, 2);
    var s := IsoDate(d);
    assert s == y + "-" + m + "-" + dd;
    assert s[..4] == y && s[5..7] == m && s[8..] == dd;
  }

  /** Distinct dates have distinct texts, so a date can be used as a
      dictionary key through its text. */
  lemma IsoDateInjective(a: Date, b: Date)
    requires Valid(a) && Valid(b) && a.year <= 9999 && b.year <= 9999
    requires IsoDate(a) == IsoDate(b)
    ensures a == b
  {
    IsoDateRoundTrip(a);
    IsoDateRoundTrip(b);
  }
}
