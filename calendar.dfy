/**
  The calendar checks the timestamp decoding relies on: a proleptic
  Gregorian date with years -9999..9999, a time of day with whole seconds,
  and a date-time labelled UTC.
*/
module Calendar {

  import opened Base

  /** A date and time of day in UTC. */
  datatype UtcDateTime = UtcDateTime(year: int, month: nat, day: nat, hour: nat, minute: nat, second: nat)

  predicate IsLeapYear(year: int) {
    year % 4 == 0 && (year % 100 != 0 || year % 400 == 0)
  }

  /** The Gregorian rule: every fourth year, except centuries, except every fourth century. */
  lemma LeapYearRule(year: int)
    ensures IsLeapYear(year) ==> year % 4 == 0
    ensures year % 400 == 0 ==> IsLeapYear(year)
    ensures year % 100 == 0 && year % 400 != 0 ==> !IsLeapYear(year)
    ensures year % 4 == 0 && year % 100 != 0 ==> IsLeapYear(year)
  {
  }

  function DaysInMonth(year: int, month: nat): (n: nat)
    requires 1 <= month <= 12
    ensures 28 <= n <= 31
    ensures month == 2 ==> (n == 29 <==> IsLeapYear(year))
  {
    if month == 2 then (if IsLeapYear(year) then 29 else 28)
    else if month in {4, 6, 9, 11} then 30
    else 31
  }

  predicate ValidDate(year: int, month: nat, day: nat) {
    && -9999 <= year <= 9999
    && 1 <= month <= 12
    && 1 <= day <= DaysInMonth(year, month)
  }

  /**
    The bounds a valid date keeps: a month 1..12, a day 1..31, at most 30 in
    the short months and at most 29 in February, 29 only in a leap year; and
    the first 28 days of every month of a year in range are valid.
  */
  lemma ValidDateBounds(year: int, month: nat, day: nat)
    ensures ValidDate(year, month, day) ==> 1 <= month <= 12 && 1 <= day <= 31
    ensures ValidDate(year, month, day) && month in {4, 6, 9, 11} ==> day <= 30
    ensures ValidDate(year, month, day) && month == 2 ==> day <= 29 && (day == 29 ==> IsLeapYear(year))
    ensures -9999 <= year <= 9999 && 1 <= month <= 12 && 1 <= day <= 28 ==> ValidDate(year, month, day)
  {
  }

  predicate ValidTime(hour: nat, minute: nat, second: nat) {
    hour < 24 && minute < 60 && second < 60
  }

  /** A valid time of day lies within the seconds of one day. */
  lemma ValidTimeBound(hour: nat, minute: nat, second: nat)
    ensures ValidTime(hour, minute, second) ==> hour * 3600 + minute * 60 + second < 86400
  {
  }

  predicate Valid(t: UtcDateTime) {
    ValidDate(t.year, t.month, t.day) && ValidTime(t.hour, t.minute, t.second)
  }

  /**
    A month number, a calendar date and a time of day, each checked, then
    put together as a UTC date-time; any failed check gives `None`.
  */
  function NewUtc(year: int, month: nat, day: nat, hour: nat, minute: nat, second: nat): (r: Option<UtcDateTime>)
    ensures r.Some? <==> ValidDate(year, month, day) && ValidTime(hour, minute, second)
    ensures r.Some? ==> Valid(r.value)
    ensures r.Some? ==> r.value == UtcDateTime(year, month, day, hour, minute, second)
  {
    if !(1 <= month <= 12) then None
    else if !ValidDate(year, month, day) then None
    else if !ValidTime(hour, minute, second) then None
    else Some(UtcDateTime(year, month, day, hour, minute, second))
  }
}
