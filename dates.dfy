/**
 * Calendar dates and the holiday oracle. A date is kept abstract (month
 * and day of the selected year); which weekday it is and whether it is a
 * public holiday are supplied from outside.
 */
module Dates {
  datatype Date = Date(month: nat, day: nat)

  /** The weekday of each date (0 Monday .. 6 Sunday) and the set of public holidays. */
  datatype Calendar = Calendar(weekday: Date -> nat, holidays: set<Date>)

  /** `dt.weekday() >= 5 or date in kr_holidays`: Saturday, Sunday or a holiday. */
  predicate NonWorking(cal: Calendar, d: Date)
  {
    cal.weekday(d) >= 5 || d in cal.holidays
  }
}
