/**
 * Calendar dates as Python ordinals: date(1, 1, 1) is day 1 and every later
 * day adds one, so comparing and subtracting dates is integer arithmetic.
 */
module Dates {

  /** The ordinal of 1970-01-01, the epoch of the civil-calendar formulas below. */
  const UnixEpoch: int := 719163

  /** Ordinal of the proleptic Gregorian date year-month-day (days-from-civil). */
  function DayNumber(year: int, month: int, day: int): int
  {
    var y := if month <= 2 then year - 1 else year;
    var era := y / 400;
    var yoe := y - era * 400;
    var doy := (153 * (if month > 2 then month - 3 else month + 9) + 2) / 5 + day - 1;
    var doe := yoe * 365 + yoe / 4 - yoe / 100 + doy;
    era * 146097 + doe - 719468 + UnixEpoch
  }

  /** The calendar year of an ordinal (civil-from-days), Python's `date.year`. */
  function YearOf(ordinal: int): int
  {
    var z := ordinal - UnixEpoch + 719468;
    var era := z / 146097;
    var doe := z - era * 146097;
    var yoe := (doe - doe / 1460 + doe / 36524 - doe / 146096) / 365;
    var doy := doe - (365 * yoe + yoe / 4 - yoe / 100);
    var mp := (5 * doy + 2) / 153;
    var month := if mp < 10 then mp + 3 else mp - 9;
    yoe + era * 400 + (if month <= 2 then 1 else 0)
  }

  /** 0001-01-01, the earliest date Python can represent. */
  const FirstDay: int := 1

  /** 2017-01-03, the first day of the indicative-rate history. */
  const MinDate: int := 736332

  lemma MinDateIsJanuaryThird2017()
    ensures DayNumber(2017, 1, 3) == MinDate
  {
  }
}
