/**
 * The parsed timestamp with its calendar fields already broken out, as pandas'
 * Timestamp exposes them through the .dt accessors, and the order sort_values
 * uses on a datetime column.
 */
module Timestamps {

  type Month = m: int | 1 <= m <= 12 witness 1
  type Day = d: int | 1 <= d <= 31 witness 1
  type Hour = h: int | 0 <= h <= 23
  type Minute = m: int | 0 <= m <= 59
  type Second = s: int | 0 <= s <= 59
  type Nanosecond = n: int | 0 <= n < 1000000000

  datatype Timestamp = Timestamp(
    year: int, month: Month, day: Day,
    hour: Hour, minute: Minute, second: Second, nanosecond: Nanosecond)

  /** The value of .dt.date: the calendar day of a timestamp. */
  datatype Date = Date(year: int, month: Month, day: Day)

  function DateOf(t: Timestamp): Date
  {
    Date(t.year, t.month, t.day)
  }

  /** The value of .dt.month_name() (English locale). */
  function MonthName(m: Month): string
  {
    if m == 1 then "January" else if m == 2 then "February" else if m == 3 then "March"
    else if m == 4 then "April" else if m == 5 then "May" else if m == 6 then "June"
    else if m == 7 then "July" else if m == 8 then "August" else if m == 9 then "September"
    else if m == 10 then "October" else if m == 11 then "November" else "December"
  }

  /** Chronological order: a is at or before b. */
  predicate NotAfter(a: Timestamp, b: Timestamp)
  {
    if a.year != b.year then a.year < b.year
    else if a.month != b.month then a.month < b.month
    else if a.day != b.day then a.day < b.day
    else if a.hour != b.hour then a.hour < b.hour
    else if a.minute != b.minute then a.minute < b.minute
    else if a.second != b.second then a.second < b.second
    else a.nanosecond <= b.nanosecond
  }

  /** Chronological order is a total order on timestamps. */
  lemma NotAfterTotalOrder(a: Timestamp, b: Timestamp, c: Timestamp)
    ensures NotAfter(a, a)
    ensures NotAfter(a, b) || NotAfter(b, a)
    ensures NotAfter(a, b) && NotAfter(b, a) ==> a == b
    ensures NotAfter(a, b) && NotAfter(b, c) ==> NotAfter(a, c)
  {
  }

  /** A timestamp at or before another is in the same year or an earlier one. */
  lemma NotAfterYear(a: Timestamp, b: Timestamp)
    requires NotAfter(a, b)
    ensures a.year <= b.year
  {
  }
}
