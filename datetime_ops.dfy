/**
 * DateTimeRuleExpressionGrammar.DateTimeFunctions: month names, the current instant, and the
 * day-of-year distance with its 365-day wrap. The clock is a parameter.
 */
module DateTimeOps {
  import opened Common
  import opened Values

  const MonthNames: seq<string> :=
    ["January", "February", "March", "April", "May", "June",
     "July", "August", "September", "October", "November", "December"]

  /** The `switch` on `Month`: a name for 1..12, None where the source throws. */
  function MonthName(month: int): (r: Option<string>)
    ensures r.Some? <==> 1 <= month <= 12
    ensures r.Some? ==> r.value == MonthNames[month - 1]
  {
    if month == 1 then Some("January")
    else if month == 2 then Some("February")
    else if month == 3 then Some("March")
    else if month == 4 then Some("April")
    else if month == 5 then Some("May")
    else if month == 6 then Some("June")
    else if month == 7 then Some("July")
    else if month == 8 then Some("August")
    else if month == 9 then Some("September")
    else if month == 10 then Some("October")
    else if month == 11 then Some("November")
    else if month == 12 then Some("December")
    else None
  }

  /** The twelve months get twelve different names. */
  lemma MonthNamesDistinct(a: int, b: int)
    requires 1 <= a <= 12 && 1 <= b <= 12 && a != b
    ensures MonthName(a) != MonthName(b)
  {
  }

  /** `MonthOf`: the empty string for no date, otherwise the month's name (None: it throws). */
  function MonthOf(eventDate: Option<Date>): (r: Option<string>)
    ensures eventDate.None? ==> r == Some("")
    ensures eventDate.Some? ==> r == MonthName(eventDate.value.month)
  {
    match eventDate
    case None => Some("")
    case Some(d) => MonthName(d.month)
  }

  /**
   * The day arithmetic of `DayRangeFromDate`: looking forwards, the days since the event day
   * (wrapping into last year); looking backwards, the days until it (wrapping into next year).
   */
  function DayRange(eventDay: int, currentDay: int, lookForwards: bool): int {
    if lookForwards then
      (if currentDay < eventDay then currentDay + 365 else currentDay) - eventDay
    else
      (if currentDay > eventDay then eventDay + 365 else eventDay) - currentDay
  }

  /** For day-of-year values (1..366) the range lies in 0..365, and equal days give 0. */
  lemma DayRangeBounds(eventDay: int, currentDay: int, lookForwards: bool)
    requires 1 <= eventDay <= 366 && 1 <= currentDay <= 366
    ensures 0 <= DayRange(eventDay, currentDay, lookForwards) <= 365
    ensures eventDay == currentDay ==> DayRange(eventDay, currentDay, lookForwards) == 0
  {
  }

  /** Within a 365-day year the range is the distance modulo 365 in the chosen direction. */
  lemma DayRangeIsModular(eventDay: int, currentDay: int)
    requires 1 <= eventDay <= 365 && 1 <= currentDay <= 365
    ensures DayRange(eventDay, currentDay, true) == (currentDay - eventDay) % 365
    ensures DayRange(eventDay, currentDay, false) == (eventDay - currentDay) % 365
  {
  }

  /** Forwards and backwards ranges between different days add up to one year. */
  lemma DayRangeDirectionsSum(eventDay: int, currentDay: int)
    requires eventDay != currentDay
    ensures DayRange(eventDay, currentDay, true) + DayRange(eventDay, currentDay, false) == 365
  {
  }

  /**
   * `DayRangeFromDate(eventDate, lookForwards)` with `DateTime.Now` given as `localNow`: NaN for
   * no date, otherwise the day range between the event's and today's day of the year.
   */
  function DayRangeFromDate(eventDate: Option<Date>, lookForwards: bool, localNow: Date): (r: Num)
    ensures eventDate.None? <==> r == NaN
    ensures eventDate.Some? ==> r == Finite(DayRange(eventDate.value.dayOfYear, localNow.dayOfYear, lookForwards) as real)
  {
    match eventDate
    case None => NaN
    case Some(d) => Finite(DayRange(d.dayOfYear, localNow.dayOfYear, lookForwards) as real)
  }
}
