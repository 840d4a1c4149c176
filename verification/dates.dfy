/**
 * Calendar days as integers: day 0 is 1970-01-01 and a turn's ISO `date` text is its day
 * number plus, when the text carries a 'T' time suffix, the minutes past midnight it names.
 * Time zones are not modelled: a day is the same day in UTC and in local time.
 */
module Dates {

  import opened Wrappers
  import opened Strings

  /** A turn's `date`: its calendar day and the time of day of a 'T' suffix, if any. */
  datatype TurnDate = TurnDate(day: int, time: Option<nat>)

  /** `new Date(date).getTime()`, in minutes. */
  function Instant(d: TurnDate): int {
    d.day * 1440 + d.time.GetOr(0)
  }

  /**
   * The raw text comparison `date < bound` against a 'YYYY-MM-DD' bound: the day text is a
   * prefix of the date text, so only an earlier day compares smaller.
   */
  predicate TextBefore(d: TurnDate, boundDay: int) {
    d.day < boundDay
  }

  /**
   * The raw text comparison `date > bound` against a 'YYYY-MM-DD' bound: a later day, or the
   * bound's own day followed by a time suffix (a proper extension compares greater).
   */
  predicate TextAfter(d: TurnDate, boundDay: int) {
    d.day > boundDay || (d.day == boundDay && d.time.Some?)
  }

  /** `getDay()`: 0 is Sunday; 1970-01-01 was a Thursday. */
  function JsWeekday(day: int): (w: int)
    ensures 0 <= w < 7
  {
    (day + 4) % 7
  }

  /** Weekdays repeat every seven days. */
  lemma WeekdayPeriodic(day: int)
    ensures JsWeekday(day + 7) == JsWeekday(day)
  {
  }

  datatype CivilDate = CivilDate(year: int, month: int, dayOfMonth: int)

  /** The proleptic Gregorian date of a day number (H. Hinnant's `civil_from_days`). */
  function CivilFromDays(days: int): (c: CivilDate)
    ensures 1 <= c.month <= 12 && 1 <= c.dayOfMonth <= 31
  {
    var z := days + 719468;
    var era := z / 146097;
    var doe := z - era * 146097;
    var yoe := (doe - doe / 1460 + doe / 36524 - doe / 146096) / 365;
    var doy := doe - (365 * yoe + yoe / 4 - yoe / 100);
    var mp := (5 * doy + 2) / 153;
    var d := doy - (153 * mp + 2) / 5 + 1;
    var m := if mp < 10 then mp + 3 else mp - 9;
    CivilDate(if m <= 2 then yoe + era * 400 + 1 else yoe + era * 400, m, d)
  }

  /** A year as date-fns `yyyy` and `toISOString` print it: at least four digits. */
  function YearText(y: int): string {
    if y < 0 then "-" + PadStart(NatToString(-y), 4, '0') else PadStart(NatToString(y), 4, '0')
  }

  /** `format(date, 'yyyy-MM-dd')`, also the day part of `toISOString()`. */
  function IsoDayText(day: int): string {
    var c := CivilFromDays(day);
    YearText(c.year) + "-" + Pad2(c.month) + "-" + Pad2(c.dayOfMonth)
  }

  /** `format(date, 'dd/MM/yyyy')`. */
  function SlashDayText(day: int): string {
    var c := CivilFromDays(day);
    Pad2(c.dayOfMonth) + "/" + Pad2(c.month) + "/" + YearText(c.year)
  }
}
