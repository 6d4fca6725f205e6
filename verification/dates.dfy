/**
 Calendar dates as the dashboard sees them once the date column has been
 parsed: a day with no time of day, compared chronologically.
 */
module Dates {

  datatype Date = Date(year: nat, month: nat, day: nat)

  predicate IsLeapYear(y: nat)
  {
    y % 4 == 0 && (y % 100 != 0 || y % 400 == 0)
  }

  function DaysInMonth(y: nat, m: nat): nat
    requires 1 <= m <= 12
  {
    if m == 2 then (if IsLeapYear(y) then 29 else 28)
    else if m == 4 || m == 6 || m == 9 || m == 11 then 30
    else 31
  }

  /**
   A day the date parser can represent: a real day of the Gregorian calendar
   between 22 September 1677 and 11 April 2262. Its timestamps are
   nanoseconds in a signed 64-bit count from 1970, which reach from shortly
   after midnight on 21 September 1677 to shortly before midnight on
   11 April 2262; a whole day at midnight outside that span does not parse.
   */
  predicate Valid(d: Date)
  {
    && 1 <= d.month <= 12
    && 1 <= d.day <= DaysInMonth(d.year, d.month)
    && NotAfter(Date(1677, 9, 22), d)
    && NotAfter(d, Date(2262, 4, 11))
  }

  /** The dates the date parser produces. */
  type ValidDate = d: Date | Valid(d) witness Date(1970, 1, 1)

  /** Chronological order, inclusive: year first, then month, then day. */
  predicate NotAfter(a: Date, b: Date)
  {
    || a.year < b.year
    || (a.year == b.year && a.month < b.month)
    || (a.year == b.year && a.month == b.month && a.day <= b.day)
  }

  /** `a` lies in an earlier calendar month than `b`. */
  predicate MonthBefore(a: Date, b: Date)
  {
    a.year < b.year || (a.year == b.year && a.month < b.month)
  }
}
