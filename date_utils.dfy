/** frontend/src/lib/dateUtils.ts: the day key under which attendance and
    financial records are stored (UTC midnight in nanoseconds), and the
    `YYYY-MM-DD` value of a date input. The browser's time zone is a fixed
    `offset` in milliseconds (local time minus UTC). */
module DateUtils {
  import opened Backend
  import opened Strings
  import opened Calendar

  const NsPerMs: int := 1_000_000
  const NsPerDay: int := 86_400_000_000_000

  /** A JavaScript `Date`: a time value in milliseconds, or the invalid date (NaN). */
  datatype Date = At(ms: int) | InvalidDate

  /** The time values a `Date` can hold (section 21.4.1.1 of ECMA-262). */
  predicate InRange(t: int) {
    -MaxTimeValue <= t <= MaxTimeValue
  }

  /** Every date a `Date` operation produces: the invalid date, or a time
      value in range. */
  predicate Valid(d: Date) {
    d.At? ==> InRange(d.ms)
  }

  /** The TimeClip operation for integral time values. */
  function TimeClip(t: int): (d: Date)
    ensures Valid(d)
    ensures d.At? <==> InRange(t)
    ensures d.At? ==> d.ms == t
  {
    if InRange(t) then At(t) else InvalidDate
  }

  /** `setUTCHours(0, 0, 0, 0)` (section 21.4.4.30) on a copy of the date:
      MakeDate(Day(t), 0), clipped; the invalid date stays invalid. */
  function SetUtcMidnight(d: Date): Date {
    match d
    case InvalidDate => InvalidDate
    case At(t) => TimeClip(Day(t) * MsPerDay)
  }

  /** `BigInt` division truncates toward zero. */
  function TruncDiv(a: int, b: int): int
    requires b > 0
  {
    if a >= 0 then a / b else -((-a) / b)
  }

  /** `dateToBigIntNs`: the UTC midnight of the date's day, in nanoseconds.
      `None` is the RangeError that `BigInt(NaN)` throws for an invalid date.
      The key is a whole number of days, at most the date's instant and less
      than a day before it, so it is determined by the date's UTC day. */
  function DateToBigIntNs(d: Date): (r: Option<int>)
    ensures d.At? && InRange(d.ms) ==> r.Some?
    ensures d.InvalidDate? ==> r.None?
    ensures r.Some? ==> r.value % NsPerDay == 0
    ensures r.Some? ==> d.At? && r.value <= d.ms * NsPerMs < r.value + NsPerDay
  {
    if d.InvalidDate? then None
    else
      MidnightInRange(d.ms);
      match SetUtcMidnight(d)
      case InvalidDate => None
      case At(m) => Some(m * NsPerMs)
  }

  /** The UTC midnight of a valid time value is valid. */
  lemma MidnightInRange(t: int)
    ensures Day(t) * MsPerDay <= t < Day(t) * MsPerDay + MsPerDay
    ensures InRange(t) ==> InRange(Day(t) * MsPerDay)
  {
    var w := TimeWithinDay(t);
    if InRange(t) {
      assert Day(t) >= -100_000_000;
    }
  }

  /** `bigIntNsToDate`: whole milliseconds of the nanosecond count (truncated,
      as BigInt division does), read back as a time value. */
  function BigIntNsToDate(ns: int): (d: Date)
    ensures Valid(d)
  {
    TimeClip(TruncDiv(ns, NsPerMs))
  }

  /** Two valid dates get the same key exactly when they fall on the same UTC day. */
  lemma SameKeyIffSameDay(a: int, b: int)
    requires InRange(a) && InRange(b)
    ensures DateToBigIntNs(At(a)) == DateToBigIntNs(At(b)) <==> Day(a) == Day(b)
  {
    var ka := DateToBigIntNs(At(a)).value;
    var kb := DateToBigIntNs(At(b)).value;
    assert ka == Day(a) * NsPerDay;
    assert kb == Day(b) * NsPerDay;
    if Day(a) < Day(b) {
      assert ka < kb;
    } else if Day(b) < Day(a) {
      assert kb < ka;
    }
  }

  /** The key never decreases as the instant moves forward. */
  lemma KeyMonotone(a: int, b: int)
    requires InRange(a) && InRange(b) && a <= b
    ensures DateToBigIntNs(At(a)).value <= DateToBigIntNs(At(b)).value
  {
    assert Day(a) <= Day(b);
    assert DateToBigIntNs(At(a)).value == Day(a) * NsPerDay;
    assert DateToBigIntNs(At(b)).value == Day(b) * NsPerDay;
  }

  /** Reading a key back gives the UTC midnight of the original date, in milliseconds. */
  lemma KeyToDate(t: int)
    requires InRange(t)
    ensures BigIntNsToDate(DateToBigIntNs(At(t)).value) == At(Day(t) * MsPerDay)
  {
    var day := Day(t);
    assert DateToBigIntNs(At(t)).value == (day * MsPerDay) * NsPerMs;
    TruncDivExact(day * MsPerDay);
  }

  lemma TruncDivExact(k: int)
    ensures TruncDiv(k * NsPerMs, NsPerMs) == k
  {
    if k < 0 {
      assert -(k * NsPerMs) == (-k) * NsPerMs;
    }
  }

  /** Normalising twice is normalising once. */
  lemma KeyIdempotent(t: int)
    requires InRange(t)
    ensures DateToBigIntNs(BigIntNsToDate(DateToBigIntNs(At(t)).value)) == DateToBigIntNs(At(t))
  {
    KeyToDate(t);
    var m := Day(t) * MsPerDay;
    assert Day(m) == Day(t);
  }

  /** The key of day number `day`: its UTC midnight in nanoseconds. */
  function DayKey(day: int): int {
    day * NsPerDay
  }

  /** A valid date's key is the key of its UTC day. */
  lemma KeyOfInstant(t: int)
    requires InRange(t)
    ensures DateToBigIntNs(At(t)) == Some(DayKey(Day(t)))
  {
    MidnightInRange(t);
  }

  /** `Number(s)` (section 7.1.4.1.1), restricted to integer literals: the
      surrounding white space is ignored, the empty string is 0, an optionally
      signed run of decimal digits is its value. Every other string is NaN
      (`None`) here, including the decimal, exponent, hexadecimal, binary,
      octal and `Infinity` forms that `Number` reads; a date input's value never holds
      them. */
  function StringToNumber(s: string): (r: Option<int>)
    ensures Trim(s) == [] ==> r == Some(0)
  {
    var t := Trim(s);
    if t == [] then Some(0)
    else if (t[0] == '+' || t[0] == '-') && |t| > 1 && AllDigits(t[1..]) then
      Some(if t[0] == '-' then -(DigitsValue(t[1..]) as int) else DigitsValue(t[1..]))
    else if AllDigits(t) then Some(DigitsValue(t))
    else None
  }

  /** A non-empty digit string reads as its decimal value. */
  lemma NumberOfDigits(s: string)
    requires s != [] && AllDigits(s)
    ensures StringToNumber(s) == Some(DigitsValue(s))
  {
    TrimUnchanged(s);
  }

  /** The day number of the instant `w` milliseconds after the start of `day`. */
  lemma DayOfShifted(day: int, w: int)
    requires 0 <= w < MsPerDay
    ensures Day(day * MsPerDay + w) == day
  {
  }

  /** `new Date(y, m, d)` reads years 0 to 99 as 1900 to 1999 (section 21.4.2.1). */
  function FullYear(y: int): int {
    if 0 <= y <= 99 then 1900 + y else y
  }

  /** The UTC time value of the local midnight that starts `day`: MakeDate(day, 0)
      turned into UTC by subtracting the offset (the MakeDate and UTC operations). */
  function LocalMidnightTime(day: int, offset: int): int {
    day * MsPerDay - offset
  }

  /** The local midnight that starts `day`, clipped by TimeClip.
      When valid, its local day is `day`. */
  function LocalMidnight(day: int, offset: int): (d: Date)
    ensures Valid(d)
    ensures d.At? ==> Day(d.ms + offset) == day
  {
    DayOfShifted(day, 0);
    TimeClip(LocalMidnightTime(day, offset))
  }

  /** `new Date(year, month, date)` (section 21.4.2.1): the local midnight of
      MakeDay(year, month, date) after the two-digit-year mapping. */
  function LocalDate(year: int, month: int, date: int, offset: int): (d: Date)
    ensures d.At? ==> Day(d.ms + offset) == MakeDay(FullYear(year), month, date)
  {
    LocalMidnight(MakeDay(FullYear(year), month, date), offset)
  }

  /** The first three `-`-separated pieces of a date string read with `Number`,
      the second one turned into a month index (`m - 1`); `None` when a piece is
      missing (`undefined`, which reads as NaN) or is not a number. */
  function DateInputFields(value: string): (r: Option<(int, int, int)>)
  {
    var parts := Split(value, '-');
    if |parts| < 3 then None
    else
      Fields(StringToNumber(parts[0]), StringToNumber(parts[1]), StringToNumber(parts[2]))
  }

  /** `m - 1`: the month number of a date string as the zero-based month index
      that `new Date` takes. */
  function MonthIndex(m: int): int {
    m - 1
  }

  /** The year, the month index and the date when all three pieces are numbers. */
  function Fields(y: Option<int>, m: Option<int>, d: Option<int>): Option<(int, int, int)> {
    if y.Some? && m.Some? && d.Some? then Some((y.value, MonthIndex(m.value), d.value)) else None
  }

  lemma FieldsOfSome(y: int, m: int, d: int)
    ensures Fields(Some(y), Some(m), Some(d)) == Some((y, MonthIndex(m), d))
  {
  }

  /** `parseDateInput`: `new Date(y, m - 1, d)` of the pieces; NaN pieces give the
      invalid date. */
  function ParseDateInput(value: string, offset: int): (d: Date)
    ensures Valid(d)
  {
    match DateInputFields(value)
    case None => InvalidDate
    case Some((y, month, d)) => LocalDate(y, month, d, offset)
  }

  /** `formatDateInput`: the part of `toISOString()` before the 'T'; `None` is the
      RangeError that `toISOString` throws for the invalid date. */
  function FormatDateInput(d: Date): Option<string> {
    match d
    case InvalidDate => None
    case At(t) => Some(Split(IsoString(t), 'T')[0])
  }

  /** The formatted value of a date is the calendar date of its UTC day. */
  lemma FormatIsUtcCalendarDate(t: int)
    ensures FormatDateInput(At(t)) == Some(IsoDate(CivilFromDay(Day(t))))
  {
    var date := IsoDate(CivilFromDay(Day(t)));
    var time := IsoTime(TimeWithinDay(t));
    NoTInIsoDate(CivilFromDay(Day(t)));
    assert IsoString(t) == date + ['T'] + time;
    SplitFirst(date, 'T', time);
  }

  /** The digit layout of a `YYYY-MM-DD` date-input value. */
  predicate DateInputShape(s: string) {
    |s| == 10 && s[4] == '-' && s[7] == '-' &&
    AllDigits(s[..4]) && AllDigits(s[5..7]) && AllDigits(s[8..])
  }

  /** A `YYYY-MM-DD` value naming a real calendar date, as a date input holds
      for a four-digit year. */
  predicate WellFormedDateInput(s: string) {
    DateInputShape(s) && 1 <= DigitsValue(s[5..7]) <= 12 &&
    1 <= DigitsValue(s[8..]) <= DaysInMonth(DigitsValue(s[..4]), MonthIndex(DigitsValue(s[5..7])))
  }

  lemma SplitDateInput(s: string)
    requires DateInputShape(s)
    ensures |Split(s, '-')| == 3
    ensures Split(s, '-')[0] == s[..4] && Split(s, '-')[1] == s[5..7] && Split(s, '-')[2] == s[8..]
  {
    NotInDigits('-', s[..4]);
    NotInDigits('-', s[5..7]);
    NotInDigits('-', s[8..]);
    assert s == s[..4] + ['-'] + (s[5..7] + ['-'] + s[8..]);
    SplitFirst(s[..4], '-', s[5..7] + ['-'] + s[8..]);
    SplitFirst(s[5..7], '-', s[8..]);
    SplitWithout(s[8..], '-');
  }

  /** A value with the digit layout splits into its year, its month index and its day. */
  lemma FieldsOfDateInput(s: string)
    requires DateInputShape(s)
    ensures DateInputFields(s) == Some((DigitsValue(s[..4]), MonthIndex(DigitsValue(s[5..7])), DigitsValue(s[8..])))
  {
    SplitDateInput(s);
    NumberOfDigits(s[..4]);
    NumberOfDigits(s[5..7]);
    NumberOfDigits(s[8..]);
    FieldsOfNumbers(s, DigitsValue(s[..4]), DigitsValue(s[5..7]), DigitsValue(s[8..]));
  }

  lemma FieldsOfNumbers(value: string, y: int, m: int, d: int)
    requires |Split(value, '-')| >= 3
    requires StringToNumber(Split(value, '-')[0]) == Some(y)
    requires StringToNumber(Split(value, '-')[1]) == Some(m)
    requires StringToNumber(Split(value, '-')[2]) == Some(d)
    ensures DateInputFields(value) == Some((y, MonthIndex(m), d))
  {
    FieldsOfSome(y, m, d);
  }

  /** Writing the year, month and day of a `YYYY-MM-DD` value back gives the value. */
  lemma IsoDateOfInput(s: string)
    requires DateInputShape(s) && DigitsValue(s[5..7]) >= 1
    ensures IsoDate(CivilDate(DigitsValue(s[..4]), MonthIndex(DigitsValue(s[5..7])), DigitsValue(s[8..]))) == s
  {
    var year, month, date := s[..4], s[5..7], s[8..];
    DigitsValueBound(year);
    PadDigitsValue(year);
    PadDigitsValue(month);
    PadDigitsValue(date);
    assert MonthIndex(DigitsValue(month)) + 1 == DigitsValue(month);
    assert s == year + "-" + month + "-" + date;
  }

  /** Four digits read as at most 9999. */
  lemma FourDigits(s: string)
    requires |s| == 4 && AllDigits(s)
    ensures DigitsValue(s) <= 9999
  {
    DigitsValueBound(s);
    assert Pow10(4) == 10_000;
  }

  /** Days from the start of year 0 to the end of year 9999, for any month and
      any date up to 31. */
  lemma FourDigitYearDays(y: int, m: int, d: int)
    requires 0 <= y <= 9999 && 0 <= m < 12 && 1 <= d <= 31
    ensures -719_528 <= MakeDay(y, m, d) <= 2_932_897
  {
    MakeDayWithinYear(y, m, d);
    assert MonthStart(m, IsLeapYear(y)) <= 335;
    DayFromYearStep(y);
    DayFromYearMonotone(0, y);
    DayFromYearMonotone(y + 1, 10000);
    assert DayFromYear(0) == -719_528;
    assert DayFromYear(10000) == 2_932_897;
  }

  /** Local midnight of such a day is a valid time value in every time zone
      less than a day from UTC. */
  lemma LocalMidnightInRange(day: int, offset: int)
    requires -719_528 <= day <= 2_932_897 && -MsPerDay < offset < MsPerDay
    ensures LocalMidnight(day, offset) == At(LocalMidnightTime(day, offset))
  {
    assert day * MsPerDay == day * 86_400_000;
  }

  /** Both parses of a value whose pieces read as `y`, `m` and `d`. */
  lemma ParseOfFields(value: string, offset: int, y: int, m: int, d: int)
    requires DateInputFields(value) == Some((y, m, d))
    ensures ParseDateInput(value, offset) == LocalDate(y, m, d, offset)
    ensures ParseDateInputFullYear(value, offset) == LocalMidnight(MakeDay(y, m, d), offset)
  {
  }

  /** A value with the digit layout, a month from 1 to 12 and a date from 1 to 31
      parses to a valid date: the local midnight of MakeDay, after years 0 to 99
      are mapped to 1900 to 1999 (or with the year kept as written). */
  lemma ParsedLocalMidnight(s: string, offset: int, y: int, m: int, d: int)
    requires DateInputShape(s) && DateInputFields(s) == Some((y, m, d))
    requires 0 <= m < 12 && 1 <= d <= 31 && -MsPerDay < offset < MsPerDay
    ensures ParseDateInput(s, offset) == At(LocalMidnightTime(MakeDay(FullYear(y), m, d), offset))
    ensures ParseDateInputFullYear(s, offset) == At(LocalMidnightTime(MakeDay(y, m, d), offset))
  {
    ParseOfFields(s, offset, y, m, d);
    FieldsOfDateInput(s);
    FourDigits(s[..4]);
    FourDigitYearDays(FullYear(y), m, d);
    FourDigitYearDays(y, m, d);
    LocalMidnightInRange(MakeDay(FullYear(y), m, d), offset);
    LocalMidnightInRange(MakeDay(y, m, d), offset);
  }

  /** A valid date whose day is the day a well-formed value names is formatted
      as that value. */
  lemma CalendarDateOfDay(s: string, y: int, m: int, d: int)
    requires WellFormedDateInput(s) && DateInputFields(s) == Some((y, m, d))
    ensures IsoDate(CivilFromDay(MakeDay(y, m, d))) == s
  {
    FieldsOfDateInput(s);
    CivilOfMakeDay(y, m, d);
    IsoDateOfInput(s);
  }

  /** The UTC day of the local midnight of `day`: `day` itself at or west of UTC,
      the day before east of UTC. */
  lemma DayOfLocalMidnight(day: int, offset: int)
    requires -MsPerDay < offset < MsPerDay
    ensures offset <= 0 ==> Day(LocalMidnightTime(day, offset)) == day
    ensures offset > 0 ==> Day(LocalMidnightTime(day, offset)) == day - 1
  {
    if offset <= 0 {
      DayOfShifted(day, -offset);
    } else {
      assert day * MsPerDay - offset == (day - 1) * MsPerDay + (MsPerDay - offset);
      DayOfShifted(day - 1, MsPerDay - offset);
    }
  }

  /** Round trip at or west of UTC: a well-formed value from year 100 on is
      formatted back unchanged. */
  lemma FormatParseRoundTrip(s: string, offset: int)
    requires WellFormedDateInput(s) && DigitsValue(s[..4]) >= 100
    requires -MsPerDay < offset <= 0
    ensures FormatDateInput(ParseDateInput(s, offset)) == Some(s)
  {
    FieldsOfDateInput(s);
    RoundTripOfFields(s, offset, DigitsValue(s[..4]), MonthIndex(DigitsValue(s[5..7])), DigitsValue(s[8..]));
  }

  lemma RoundTripOfFields(s: string, offset: int, y: int, m: int, d: int)
    requires WellFormedDateInput(s) && DateInputFields(s) == Some((y, m, d)) && y >= 100
    requires -MsPerDay < offset <= 0
    ensures FormatDateInput(ParseDateInput(s, offset)) == Some(s)
  {
    FieldsOfDateInput(s);
    ParsedLocalMidnight(s, offset, y, m, d);
    assert FullYear(y) == y;
    DayOfLocalMidnight(MakeDay(y, m, d), offset);
    FormatIsUtcCalendarDate(LocalMidnightTime(MakeDay(y, m, d), offset));
    CalendarDateOfDay(s, y, m, d);
  }

  /** As written, east of UTC the date input shows the calendar date of the day
      before the one chosen: local midnight is still the previous UTC day, and
      `toISOString` formats the UTC day. */
  lemma ShownDateEastOfUtc(s: string, offset: int, y: int, m: int, d: int)
    requires WellFormedDateInput(s) && DateInputFields(s) == Some((y, m, d)) && y >= 100
    requires 0 < offset < MsPerDay
    ensures FormatDateInput(ParseDateInput(s, offset)) == Some(IsoDate(CivilFromDay(PreviousDay(MakeDay(y, m, d)))))
  {
    FieldsOfDateInput(s);
    ParsedLocalMidnight(s, offset, y, m, d);
    assert FullYear(y) == y;
    FormatEastMidnight(MakeDay(y, m, d), offset);
  }

  function PreviousDay(day: int): int {
    day - 1
  }

  /** East of UTC, a local midnight is formatted as the previous calendar date. */
  lemma FormatEastMidnight(day: int, offset: int)
    requires 0 < offset < MsPerDay
    ensures FormatDateInput(At(LocalMidnightTime(day, offset))) == Some(IsoDate(CivilFromDay(PreviousDay(day))))
  {
    DayOfLocalMidnight(day, offset);
    FormatIsUtcCalendarDate(LocalMidnightTime(day, offset));
  }

  /** The key of a valid local midnight: the key of its day at or west of
      UTC, and of the day before east of UTC. */
  lemma KeyOfLocalMidnight(day: int, offset: int)
    requires -MsPerDay < offset < MsPerDay && InRange(LocalMidnightTime(day, offset))
    ensures offset <= 0 ==> DateToBigIntNs(At(LocalMidnightTime(day, offset))) == Some(DayKey(day))
    ensures offset > 0 ==> DateToBigIntNs(At(LocalMidnightTime(day, offset))) == Some(DayKey(PreviousDay(day)))
  {
    DayOfLocalMidnight(day, offset);
    KeyOfInstant(LocalMidnightTime(day, offset));
  }

  /** As written, the records of a picked date from year 100 on are stored
      under the key of the day it names at or west of UTC, and under the key
      of the day before east of UTC. */
  lemma KeyOfPickedDate(s: string, offset: int, y: int, m: int, d: int)
    requires WellFormedDateInput(s) && DateInputFields(s) == Some((y, m, d)) && y >= 100
    requires -MsPerDay < offset < MsPerDay
    ensures offset <= 0 ==> DateToBigIntNs(ParseDateInput(s, offset)) == Some(DayKey(MakeDay(y, m, d)))
    ensures offset > 0 ==> DateToBigIntNs(ParseDateInput(s, offset)) == Some(DayKey(PreviousDay(MakeDay(y, m, d))))
  {
    FieldsOfDateInput(s);
    ParsedLocalMidnight(s, offset, y, m, d);
    assert FullYear(y) == y;
    KeyOfLocalMidnight(MakeDay(y, m, d), offset);
  }

  /** Keeping the year as typed does not move the key: east of UTC the picked
      date is still stored under the key of the day before. */
  lemma KeyOfPickedDateFullYear(s: string, offset: int, y: int, m: int, d: int)
    requires WellFormedDateInput(s) && DateInputFields(s) == Some((y, m, d))
    requires -MsPerDay < offset < MsPerDay
    ensures offset <= 0 ==> DateToBigIntNs(ParseDateInputFullYear(s, offset)) == Some(DayKey(MakeDay(y, m, d)))
    ensures offset > 0 ==> DateToBigIntNs(ParseDateInputFullYear(s, offset)) == Some(DayKey(PreviousDay(MakeDay(y, m, d))))
  {
    FieldsOfDateInput(s);
    ParsedLocalMidnight(s, offset, y, m, d);
    KeyOfLocalMidnight(MakeDay(y, m, d), offset);
  }

  /** Choosing 1 March 2024 in India (UTC+05:30) stores the day's records
      under the key of 29 February 2024. */
  lemma EastOfUtcStoresPreviousDay()
    ensures DateToBigIntNs(ParseDateInput("2024-03-01", 19_800_000)) == Some(DayKey(MakeDay(2024, 1, 29)))
  {
    Input20240301();
    FieldsOfDateInput("2024-03-01");
    KeyOfPickedDate("2024-03-01", 19_800_000, 2024, 2, 1);
    DayBefore20240301();
  }

  lemma DayBefore20240301()
    ensures PreviousDay(MakeDay(2024, 2, 1)) == MakeDay(2024, 1, 29)
  {
    assert MonthStart(2, IsLeapYear(2024)) == MonthStart(1, IsLeapYear(2024)) + 29;
  }

  lemma Input20240301()
    ensures DateInputShape("2024-03-01")
    ensures DigitsValue("2024-03-01"[..4]) == 2024
    ensures DigitsValue("2024-03-01"[5..7]) == 3
    ensures DigitsValue("2024-03-01"[8..]) == 1
  {
    assert "2024-03-01"[..4] == "2024" && "2024-03-01"[5..7] == "03" && "2024-03-01"[8..] == "01";
    assert "2024"[..3] == "202" && "202"[..2] == "20" && "20"[..1] == "2" && "2"[..0] == "";
    assert "03"[..1] == "0" && "0"[..0] == "";
    assert "01"[..1] == "0";
  }

  /** The day before 1 March 2024 is 29 February 2024. */
  lemma LeapDay2024()
    ensures CivilFromDay(PreviousDay(MakeDay(2024, 2, 1))) == CivilDate(2024, 1, 29)
  {
    CivilOfDayInYear(PreviousDay(MakeDay(2024, 2, 1)), 2024, 1, 29);
  }

  /** Choosing 1 March 2024 in India (UTC+05:30) shows 29 February 2024. */
  lemma EastOfUtcShowsPreviousDay()
    ensures FormatDateInput(ParseDateInput("2024-03-01", 19_800_000)) == Some("2024-02-29")
  {
    Input20240301();
    FieldsOfDateInput("2024-03-01");
    ShownDateEastOfUtc("2024-03-01", 19_800_000, 2024, 2, 1);
    LeapDay2024();
    IsoDate20240229();
  }

  lemma Pads20240229()
    ensures Pad(2024, 4) == "2024" && Pad(2, 2) == "02" && Pad(29, 2) == "29"
  {
    assert Pad(2, 1) == "2" && Pad(20, 2) == "20" && Pad(202, 3) == "202" && Pad(0, 1) == "0";
  }

  lemma IsoDate20240229()
    ensures IsoDate(CivilDate(2024, 1, 29)) == "2024-02-29"
  {
    Pads20240229();
    assert "2024" + "-" + "02" + "-" + "29" == "2024-02-29";
  }

  /** As written, a year from 0 to 99 typed into the date input comes back as
      1900 to 1999: `new Date(y, m, d)` reads two-digit years as 19yy. */
  lemma ShownDateTwoDigitYear(s: string, offset: int, y: int, m: int, d: int)
    requires DateInputShape(s) && DateInputFields(s) == Some((y, m, d))
    requires 0 <= y <= 99 && 0 <= m < 12 && 1 <= d <= 31
    requires -MsPerDay < offset <= 0
    ensures FullYear(y) == 1900 + y
    ensures FormatDateInput(ParseDateInput(s, offset)) == Some(IsoDate(CivilFromDay(MakeDay(FullYear(y), m, d))))
  {
    ParsedLocalMidnight(s, offset, y, m, d);
    DayOfLocalMidnight(MakeDay(FullYear(y), m, d), offset);
    FormatIsUtcCalendarDate(LocalMidnightTime(MakeDay(FullYear(y), m, d), offset));
  }

  lemma Input00500301()
    ensures DateInputShape("0050-03-01")
    ensures DigitsValue("0050-03-01"[..4]) == 50
    ensures DigitsValue("0050-03-01"[5..7]) == 3
    ensures DigitsValue("0050-03-01"[8..]) == 1
  {
    assert "0050-03-01"[..4] == "0050" && "0050-03-01"[5..7] == "03" && "0050-03-01"[8..] == "01";
    assert "0050"[..3] == "005" && "005"[..2] == "00" && "00"[..1] == "0" && "0"[..0] == "";
    assert "03"[..1] == "0";
    assert "01"[..1] == "0";
  }

  /** Choosing 1 March of the year 50 shows 1 March 1950. */
  lemma TwoDigitYearBecomes19xx()
    ensures FormatDateInput(ParseDateInput("0050-03-01", 0)) == Some("1950-03-01")
  {
    Input00500301();
    FieldsOfDateInput("0050-03-01");
    ShownDateTwoDigitYear("0050-03-01", 0, 50, 2, 1);
    CivilOfMakeDay(1950, 2, 1);
    IsoDate19500301();
  }

  lemma Pads19500301()
    ensures Pad(1950, 4) == "1950" && Pad(3, 2) == "03" && Pad(1, 2) == "01"
  {
    assert Pad(1, 1) == "1" && Pad(19, 2) == "19" && Pad(195, 3) == "195" && Pad(0, 1) == "0";
  }

  lemma IsoDate19500301()
    ensures IsoDate(CivilDate(1950, 2, 1)) == "1950-03-01"
  {
    Pads19500301();
    assert "1950" + "-" + "03" + "-" + "01" == "1950-03-01";
  }

  /** The local calendar date of a time value, written `YYYY-MM-DD`. */
  function LocalCalendarDate(t: int, offset: int): string {
    IsoDate(CivilFromDay(Day(t + offset)))
  }

  /** What the date input is evidently meant to show: the local calendar date
      of the date, as `getFullYear`, `getMonth` and `getDate` give it. */
  function FormatLocalDateInput(d: Date, offset: int): Option<string> {
    match d
    case InvalidDate => None
    case At(t) => Some(LocalCalendarDate(t, offset))
  }

  /** `parseDateInput` with the year taken as written, as `setFullYear` would:
      the local midnight of MakeDay(y, m - 1, d). */
  function ParseDateInputFullYear(value: string, offset: int): (d: Date)
    ensures Valid(d)
  {
    match DateInputFields(value)
    case None => InvalidDate
    case Some((y, month, d)) => LocalMidnight(MakeDay(y, month, d), offset)
  }

  /** The local calendar date of the local midnight of `day` is `day`'s, at every offset. */
  lemma LocalDateOfLocalMidnight(day: int, offset: int)
    ensures LocalCalendarDate(LocalMidnightTime(day, offset), offset) == IsoDate(CivilFromDay(day))
  {
    LocalDayOfLocalMidnight(day, offset);
  }

  lemma LocalDayOfLocalMidnight(day: int, offset: int)
    ensures Day(LocalMidnightTime(day, offset) + offset) == day
  {
    DayOfShifted(day, 0);
    assert LocalMidnightTime(day, offset) + offset == day * MsPerDay + 0;
  }

  /** What the key is evidently meant to be: the key of the date's local
      calendar day, the day the date input names. */
  function LocalDayKey(d: Date, offset: int): Option<int> {
    match d
    case InvalidDate => None
    case At(t) => Some(DayKey(Day(t + offset)))
  }

  /** The local day key of a picked date, with the year kept as typed, is the
      key of the day the value names, in every time zone less than a day
      from UTC. */
  lemma CorrectedKeyOfPickedDate(s: string, offset: int, y: int, m: int, d: int)
    requires WellFormedDateInput(s) && DateInputFields(s) == Some((y, m, d))
    requires -MsPerDay < offset < MsPerDay
    ensures LocalDayKey(ParseDateInputFullYear(s, offset), offset) == Some(DayKey(MakeDay(y, m, d)))
  {
    FieldsOfDateInput(s);
    ParsedLocalMidnight(s, offset, y, m, d);
    LocalKeyOfLocalMidnight(MakeDay(y, m, d), offset);
  }

  lemma LocalKeyOfLocalMidnight(day: int, offset: int)
    ensures LocalDayKey(At(LocalMidnightTime(day, offset)), offset) == Some(DayKey(day))
  {
    LocalDayOfLocalMidnight(day, offset);
  }

  /** With both corrections, every well-formed value with a four-digit year
      survives the round trip in every time zone less than a day from UTC. */
  lemma CorrectedRoundTrip(s: string, offset: int)
    requires WellFormedDateInput(s)
    requires -MsPerDay < offset < MsPerDay
    ensures FormatLocalDateInput(ParseDateInputFullYear(s, offset), offset) == Some(s)
  {
    FieldsOfDateInput(s);
    CorrectedRoundTripOfFields(s, offset, DigitsValue(s[..4]), MonthIndex(DigitsValue(s[5..7])), DigitsValue(s[8..]));
  }

  lemma CorrectedRoundTripOfFields(s: string, offset: int, y: int, m: int, d: int)
    requires WellFormedDateInput(s) && DateInputFields(s) == Some((y, m, d))
    requires -MsPerDay < offset < MsPerDay
    ensures FormatLocalDateInput(ParseDateInputFullYear(s, offset), offset) == Some(s)
  {
    FieldsOfDateInput(s);
    ParsedLocalMidnight(s, offset, y, m, d);
    LocalDateOfLocalMidnight(MakeDay(y, m, d), offset);
    CalendarDateOfDay(s, y, m, d);
  }
}
