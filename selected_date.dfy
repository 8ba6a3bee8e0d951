/** The date the Dashboard, Attendance and Sales & Expenses pages work on: the
    start of today in local time, replaced when a date is picked in the date
    input. The clock reading `now` and the time zone `offset` (local time minus
    UTC, in milliseconds) are parameters. */
module SelectedDate {
  import opened Backend
  import opened Strings
  import opened Calendar
  import opened DateUtils

  /** `const d = new Date(); d.setHours(0, 0, 0, 0)` (section 21.4.4.22 of
      ECMA-262): the local midnight that starts the local day of `now`. It lies
      on the same local day, at most `now` and less than a day before it, and it
      is valid whenever the day before `now` is. */
  function LocalStartOfDay(now: int, offset: int): (d: Date)
    requires InRange(now)
    ensures Valid(d)
    ensures d.At? ==> Day(d.ms + offset) == Day(now + offset)
    ensures d.At? ==> d.ms <= now < d.ms + MsPerDay
    ensures InRange(now - MsPerDay) ==> d.At?
  {
    LocalMidnight(Day(now + offset), offset)
  }

  /** The date input's `onChange`: an empty value (a cleared input) keeps the
      selected date, any other value is parsed as a local date. */
  function NextSelectedDate(current: Date, value: string, offset: int): (d: Date)
    ensures Valid(current) ==> Valid(d)
  {
    if value == "" then current else ParseDateInput(value, offset)
  }

  /** Picking a well-formed date from year 100 on, at or west of UTC, makes the
      date input show that date; clearing the input changes nothing. */
  lemma PickedDateShown(current: Date, s: string, offset: int)
    requires WellFormedDateInput(s) && DigitsValue(s[..4]) >= 100
    requires -MsPerDay < offset <= 0
    ensures FormatDateInput(NextSelectedDate(current, s, offset)) == Some(s)
    ensures NextSelectedDate(current, "", offset) == current
  {
    FormatParseRoundTrip(s, offset);
  }

  /** The key of today's start, under which the day's records are read and
      written: the key of today's local day at or west of UTC, and of the day
      before east of UTC. Keyed by the local day instead, it is today's key
      at every offset. */
  lemma StartOfDayKey(now: int, offset: int)
    requires InRange(now)
    ensures InRange(now - MsPerDay) ==> DateToBigIntNs(LocalStartOfDay(now, offset)).Some?
    ensures LocalStartOfDay(now, offset).At? && -MsPerDay < offset <= 0 ==>
      DateToBigIntNs(LocalStartOfDay(now, offset)) == Some(DayKey(Day(now + offset)))
    ensures LocalStartOfDay(now, offset).At? && 0 < offset < MsPerDay ==>
      DateToBigIntNs(LocalStartOfDay(now, offset)) == Some(DayKey(PreviousDay(Day(now + offset))))
    ensures LocalStartOfDay(now, offset).At? ==>
      LocalDayKey(LocalStartOfDay(now, offset), offset) == Some(DayKey(Day(now + offset)))
  {
    var start := LocalStartOfDay(now, offset);
    if start.At? {
      assert start == At(LocalMidnightTime(Day(now + offset), offset));
      LocalKeyOfLocalMidnight(Day(now + offset), offset);
      if -MsPerDay < offset < MsPerDay {
        KeyOfLocalMidnight(Day(now + offset), offset);
      }
    }
  }
}
