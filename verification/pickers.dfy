/**
 * The two pickers of the forms: the time picker turns 'HH:MM' text into a time of day and
 * back, the date picker passes 'YYYY-MM-DD' text through and prints its bounds.
 */
module Pickers {

  import opened Wrappers
  import opened Strings
  import opened Dates

  // ---------------------------------------------------------------- time picker

  /**
   * The picker's `Date`: an invalid date (an hour or minute that `parseInt` reads as NaN),
   * or a time of day in minutes past midnight.
   */
  datatype PickedTime = InvalidTime | ClockTime(minuteOfDay: int)

  /** The `Date` built by `setHours(h, m, 0, 0)` on today: hours and minutes past 23:59 roll over into other days. */
  function SetHours(h: Option<int>, m: Option<int>): (t: PickedTime)
    ensures t.ClockTime? <==> h.Some? && m.Some?
    ensures t.ClockTime? ==> 0 <= t.minuteOfDay < 1440 && (t.minuteOfDay - (h.value * 60 + m.value)) % 1440 == 0
  {
    if h.None? || m.None? then InvalidTime else ClockTime((h.value * 60 + m.value) % 1440)
  }

  /**
   * `timeValue`: no date for a null or empty value; otherwise the text split on ':' and each
   * of the first two pieces read with `parseInt(_, 10)` (a missing piece is NaN).
   */
  function ParseTime(value: Option<string>): (t: Option<PickedTime>)
    ensures t.None? <==> value.None? || value.value == []
  {
    if value.None? || value.value == [] then None
    else
      var parts := Split(value.value, ':');
      var minutes := if |parts| >= 2 then ParseIntJs(parts[1]) else None;
      Some(SetHours(ParseIntJs(parts[0]), minutes))
  }

  /** `handleChange`: 'HH:MM' with both fields padded to two digits, null for no pick. */
  function FormatTime(t: Option<PickedTime>): (s: Option<string>)
    ensures t.None? <==> s.None?
    ensures t.Some? && t.value.ClockTime? && 0 <= t.value.minuteOfDay < 1440 ==>
      |s.value| == 5 && s.value[2] == ':' &&
      AllDigits(s.value[..2]) && DigitsValue(s.value[..2]) == t.value.minuteOfDay / 60 &&
      AllDigits(s.value[3..]) && DigitsValue(s.value[3..]) == t.value.minuteOfDay % 60
  {
    match t
    case None => None
    case Some(InvalidTime) => Some("NaN:NaN")
    case Some(ClockTime(minute)) =>
      var h := minute % 1440 / 60;
      var m := minute % 60;
      Pad2Shape(h);
      Pad2Shape(m);
      var s := Pad2(h) + ":" + Pad2(m);
      assert s[..2] == Pad2(h) && s[3..] == Pad2(m);
      Some(s)
  }

  /** A well-formed, in-range two-digit 'HH:MM' comes back unchanged from the picker. */
  lemma TimeRoundTrip(h: nat, m: nat)
    requires h < 24 && m < 60
    ensures FormatTime(ParseTime(Some(Pad2(h) + ":" + Pad2(m)))) == Some(Pad2(h) + ":" + Pad2(m))
  {
    ParseTwoDigitTime(h, m);
    ClockArithmetic(h, m);
    FormatClock(h * 60 + m);
  }

  lemma FormatClock(t: int)
    ensures FormatTime(Some(ClockTime(t))) == Some(Pad2(t % 1440 / 60) + ":" + Pad2(t % 60))
  {
  }

  lemma ParseTwoDigitTime(h: nat, m: nat)
    requires h < 24 && m < 60
    ensures ParseTime(Some(Pad2(h) + ":" + Pad2(m))) == Some(ClockTime(h * 60 + m))
  {
    Pad2Shape(h);
    Pad2Shape(m);
    var a, b := Pad2(h), Pad2(m);
    NoSeparatorInDigits(a, ':');
    NoSeparatorInDigits(b, ':');
    SplitTwo(a, b, ':');
    ParseIntOfDigits(a);
    ParseIntOfDigits(b);
    var parts := Split(a + ":" + b, ':');
    assert parts[0] == a && parts[1] == b;
    assert ParseIntJs(a) == Some(h);
    assert ParseIntJs(b) == Some(m);
    SetHoursInRange(h, m);
  }

  lemma SetHoursInRange(h: int, m: int)
    requires 0 <= h < 24 && 0 <= m < 60
    ensures SetHours(Some(h), Some(m)) == ClockTime(h * 60 + m)
  {
    ClockArithmetic(h, m);
  }

  lemma ClockArithmetic(h: nat, m: nat)
    requires h < 24 && m < 60
    ensures (h * 60 + m) % 1440 == h * 60 + m
    ensures (h * 60 + m) % 1440 / 60 == h && (h * 60 + m) % 60 == m
  {
  }

  lemma NoSeparatorInDigits(s: string, sep: char)
    requires AllDigits(s) && !IsDigit(sep)
    ensures sep !in s
  {
  }

  /** Splitting two separator-free pieces joined by the separator gives the two pieces. */
  lemma {:induction false} SplitTwo(a: string, b: string, sep: char)
    requires sep !in a && sep !in b
    ensures Split(a + [sep] + b, sep) == [a, b]
    decreases |a|
  {
    if a == [] {
      assert a + [sep] + b == [sep] + b;
      SplitNone(b, sep);
    } else {
      assert (a + [sep] + b)[1..] == a[1..] + [sep] + b;
      SplitTwo(a[1..], b, sep);
      assert a == [a[0]] + a[1..];
    }
  }

  lemma {:induction false} SplitNone(s: string, sep: char)
    requires sep !in s
    ensures Split(s, sep) == [s]
    decreases |s|
  {
    if s != [] {
      SplitNone(s[1..], sep);
      assert s == [s[0]] + s[1..];
    }
  }

  // ---------------------------------------------------------------- date picker

  /**
   * `getMinDateString`/`getMaxDateString`: no bound without a date; otherwise the year as
   * `String(year)` (not padded), the month and the day padded to two digits.
   */
  function BoundText(d: Option<int>): (s: Option<string>)
    ensures d.None? <==> s.None?
    ensures d.Some? && 1000 <= CivilFromDays(d.value).year <= 9999 ==> s == Some(IsoDayText(d.value))
  {
    if d.None? then None
    else
      var c := CivilFromDays(d.value);
      FourDigitYear(c.year);
      Some(IntToString(c.year) + "-" + Pad2(c.month) + "-" + Pad2(c.dayOfMonth))
  }

  lemma FourDigitYear(y: int)
    ensures 1000 <= y <= 9999 ==> IntToString(y) == YearText(y)
  {
    if 1000 <= y <= 9999 {
      NatToStringLength(y);
    }
  }

  lemma {:induction false} NatToStringLength(n: nat)
    ensures n >= 1000 ==> |NatToString(n)| >= 4
    decreases n
  {
    if n >= 10 {
      NatToStringLength(n / 10);
      if n >= 1000 {
        assert |NatToString(n / 10)| >= 3 by {
          NatToStringAtLeast3(n / 10);
        }
      }
    }
  }

  lemma NatToStringAtLeast3(n: nat)
    requires n >= 100
    ensures |NatToString(n)| >= 3
  {
    assert |NatToString(n / 10 / 10)| >= 1;
  }

  /** `handleChange`: an emptied input gives null, any other text passes through. */
  function DateChange(input: string): (v: Option<string>)
    ensures v.None? <==> input == []
    ensures v.Some? ==> v.value == input
  {
    if input == [] then None else Some(input)
  }

  /** The input shows `value || ''`. */
  function DateDisplay(value: Option<string>): (shown: string)
    ensures value.Some? ==> shown == value.value
    ensures value.None? ==> shown == []
  {
    value.GetOr("")
  }

  /** What the input shows comes back unchanged through `handleChange` and the display. */
  lemma DateInputRoundTrip(input: string)
    ensures DateDisplay(DateChange(input)) == input
  {
  }
}
