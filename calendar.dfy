/** The time-value arithmetic of ECMA-262 (2022 edition), section 21.4.1:
    days, years, months and dates of a time value, `MakeDay`, and the date part
    of the Date Time String Format that `toISOString` writes. */
module Calendar {
  import opened Strings

  const MsPerDay: int := 86_400_000

  /** The largest magnitude of a valid time value: 100,000,000 days either side
      of the epoch (section 21.4.1.1). */
  const MaxTimeValue: int := 8_640_000_000_000_000

  /** Day(t) = floor(t / msPerDay) (section 21.4.1.2). Dafny's `/` with a positive
      divisor rounds toward negative infinity, as the floor requires. */
  function Day(t: int): int {
    t / MsPerDay
  }

  /** TimeWithinDay(t) = t modulo msPerDay, never negative. */
  function TimeWithinDay(t: int): (w: int)
    ensures 0 <= w < MsPerDay
    ensures t == Day(t) * MsPerDay + w
  {
    t % MsPerDay
  }

  predicate IsLeapYear(y: int) {
    y % 4 == 0 && (y % 100 != 0 || y % 400 == 0)
  }

  /** DaysInYear(y) (section 21.4.1.3). */
  function DaysInYear(y: int): int {
    if IsLeapYear(y) then 366 else 365
  }

  /** DayFromYear(y): the day number of the first day of year y (section 21.4.1.3). */
  function DayFromYear(y: int): int {
    365 * (y - 1970) + (y - 1969) / 4 - (y - 1901) / 100 + (y - 1601) / 400
  }

  /** Consecutive years are exactly one year's length apart. */
  lemma DayFromYearStep(y: int)
    ensures DayFromYear(y + 1) == DayFromYear(y) + DaysInYear(y)
  {
    var q4, q100, q400 := (y - 1969) / 4, (y - 1901) / 100, (y - 1601) / 400;
    assert DayFromYear(y) == 365 * (y - 1970) + q4 - q100 + q400;
    LeapCountStep(y);
    CenturyCountStep(y);
    QuadCenturyCountStep(y);
    assert DayFromYear(y + 1) == 365 * (y - 1970) + 365 + (y - 1968) / 4 - (y - 1900) / 100 + (y - 1600) / 400;
  }

  lemma LeapCountStep(y: int)
    ensures (y - 1968) / 4 - (y - 1969) / 4 == if y % 4 == 0 then 1 else 0
  {
  }

  lemma CenturyCountStep(y: int)
    ensures (y - 1900) / 100 - (y - 1901) / 100 == if y % 100 == 0 then 1 else 0
  {
  }

  lemma QuadCenturyCountStep(y: int)
    ensures (y - 1600) / 400 - (y - 1601) / 400 == if y % 400 == 0 then 1 else 0
  {
  }

  lemma {:induction false} DayFromYearMonotone(a: int, b: int)
    requires a <= b
    ensures DayFromYear(a) <= DayFromYear(b)
    decreases b - a
  {
    if a < b {
      DayFromYearStep(a);
      DayFromYearMonotone(a + 1, b);
    }
  }

  /** The year holding `day`, searched upward from year `y`. */
  function YearAtOrAfter(day: int, y: int): (r: int)
    requires DayFromYear(y) <= day
    ensures DayFromYear(r) <= day < DayFromYear(r + 1)
    decreases day - DayFromYear(y)
  {
    DayFromYearStep(y);
    if day < DayFromYear(y + 1) then y else YearAtOrAfter(day, y + 1)
  }

  /** The year holding `day`, searched downward from year `y`. */
  function YearAtOrBefore(day: int, y: int): (r: int)
    requires day < DayFromYear(y + 1)
    ensures DayFromYear(r) <= day < DayFromYear(r + 1)
    decreases DayFromYear(y) - day
  {
    DayFromYearStep(y - 1);
    if DayFromYear(y) <= day then y else YearAtOrBefore(day, y - 1)
  }

  /** YearFromTime (section 21.4.1.3), on day numbers: the year whose days
      include `day`. */
  function YearFromDay(day: int): (y: int)
    ensures DayFromYear(y) <= day < DayFromYear(y + 1)
  {
    if day >= 0 then YearAtOrAfter(day, 1970) else YearAtOrBefore(day, 1969)
  }

  /** Only one year contains a given day. */
  lemma OneYearPerDay(day: int, a: int, b: int)
    requires DayFromYear(a) <= day < DayFromYear(a + 1)
    requires DayFromYear(b) <= day < DayFromYear(b + 1)
    ensures a == b
  {
    if a < b {
      DayFromYearMonotone(a + 1, b);
    } else if b < a {
      DayFromYearMonotone(b + 1, a);
    }
  }

  /** The day within the year on which month `m` (0 = January) starts; month 12
      stands for the end of the year (the table of section 21.4.1.4). */
  function MonthStart(m: int, leap: bool): (d: int)
    requires 0 <= m <= 12
    ensures d == 0 <==> m == 0
  {
    var days := [0, 31, 59, 90, 120, 151, 181, 212, 243, 273, 304, 334, 365][m];
    if leap && m >= 2 then days + 1 else days
  }

  lemma MonthStartMonotone(a: int, b: int, leap: bool)
    requires 0 <= a < b <= 12
    ensures MonthStart(a, leap) + 28 <= MonthStart(b, leap)
  {
  }

  lemma YearLength(y: int)
    ensures MonthStart(12, IsLeapYear(y)) == DaysInYear(y)
  {
  }

  /** The month holding day `d` of the year, searched upward from month `m`. */
  function MonthAtOrAfter(d: int, leap: bool, m: int): (r: int)
    requires 0 <= m < 12 && MonthStart(m, leap) <= d < MonthStart(12, leap)
    ensures m <= r < 12 && MonthStart(r, leap) <= d < MonthStart(r + 1, leap)
    decreases 12 - m
  {
    if d < MonthStart(m + 1, leap) then m else MonthAtOrAfter(d, leap, m + 1)
  }

  /** Only one month contains a given day of the year. */
  lemma OneMonthPerDay(d: int, leap: bool, a: int, b: int)
    requires 0 <= a < 12 && MonthStart(a, leap) <= d < MonthStart(a + 1, leap)
    requires 0 <= b < 12 && MonthStart(b, leap) <= d < MonthStart(b + 1, leap)
    ensures a == b
  {
    if a + 1 < b + 1 {
      if a + 1 < b {
        MonthStartMonotone(a + 1, b, leap);
      }
    } else if b + 1 < a + 1 {
      if b + 1 < a {
        MonthStartMonotone(b + 1, a, leap);
      }
    }
  }

  /** The number of days in month `m` (0 = January) of year `y`. */
  function DaysInMonth(y: int, m: int): (n: int)
    requires 0 <= m < 12
    ensures 28 <= n <= 31
  {
    MonthStartMonotone(m, m + 1, IsLeapYear(y));
    MonthStart(m + 1, IsLeapYear(y)) - MonthStart(m, IsLeapYear(y))
  }

  /** A calendar date; `month` counts from 0, as MonthFromTime does. */
  datatype CivilDate = CivilDate(year: int, month: int, date: int)

  /** YearFromTime, MonthFromTime and DateFromTime (sections 21.4.1.3 to 21.4.1.5)
      of any time value on the given day: the year that holds the day, and the
      month and date whose offsets add up to the day's place in that year. */
  function CivilFromDay(day: int): (c: CivilDate)
    ensures DayFromYear(c.year) <= day < DayFromYear(c.year + 1)
    ensures 0 <= c.month < 12 && 1 <= c.date <= DaysInMonth(c.year, c.month)
    ensures day == DayFromYear(c.year) + MonthStart(c.month, IsLeapYear(c.year)) + c.date - 1
  {
    var y := YearFromDay(day);
    var leap := IsLeapYear(y);
    DayFromYearStep(y);
    YearLength(y);
    var within := day - DayFromYear(y);
    var m := MonthAtOrAfter(within, leap, 0);
    CivilDate(y, m, within - MonthStart(m, leap) + 1)
  }

  /** MakeDay(year, month, date), the MakeDay operation, for integer arguments: the
      month may run past either end of the year and the date past either end
      of the month; both carry into the next larger unit. */
  function MakeDay(year: int, month: int, date: int): int {
    var ym := year + month / 12;
    var mn := month % 12;
    DayFromYear(ym) + MonthStart(mn, IsLeapYear(ym)) + date - 1
  }

  /** Within a year, MakeDay is the year's first day plus the month's offset. */
  lemma MakeDayWithinYear(y: int, m: int, d: int)
    requires 0 <= m < 12
    ensures MakeDay(y, m, d) == DayFromYear(y) + MonthStart(m, IsLeapYear(y)) + d - 1
  {
    assert m / 12 == 0 && m % 12 == m;
  }

  /** A real calendar date survives MakeDay followed by the decomposition. */
  lemma CivilOfMakeDay(y: int, m: int, d: int)
    requires 0 <= m < 12 && 1 <= d <= DaysInMonth(y, m)
    ensures CivilFromDay(MakeDay(y, m, d)) == CivilDate(y, m, d)
  {
    MakeDayWithinYear(y, m, d);
    CivilOfDayInYear(MakeDay(y, m, d), y, m, d);
  }

  lemma CivilOfDayInYear(day: int, y: int, m: int, d: int)
    requires 0 <= m < 12 && 1 <= d <= DaysInMonth(y, m)
    requires day == DayFromYear(y) + MonthStart(m, IsLeapYear(y)) + d - 1
    ensures CivilFromDay(day) == CivilDate(y, m, d)
  {
    DayWithinYearBound(y, m, d);
    CivilYear(day, y);
    CivilMonth(day, y, m);
  }

  lemma DayWithinYearBound(y: int, m: int, d: int)
    requires 0 <= m < 12 && 1 <= d <= DaysInMonth(y, m)
    ensures 0 <= MonthStart(m, IsLeapYear(y)) + d - 1 < DaysInYear(y)
  {
    YearLength(y);
    if m + 1 < 12 {
      MonthStartMonotone(m + 1, 12, IsLeapYear(y));
    }
  }

  lemma CivilYear(day: int, y: int)
    requires DayFromYear(y) <= day < DayFromYear(y) + DaysInYear(y)
    ensures CivilFromDay(day).year == y
  {
    DayFromYearStep(y);
    OneYearPerDay(day, CivilFromDay(day).year, y);
  }

  lemma CivilMonth(day: int, y: int, m: int)
    requires 0 <= m < 12 && CivilFromDay(day).year == y
    requires MonthStart(m, IsLeapYear(y)) <= day - DayFromYear(y) < MonthStart(m + 1, IsLeapYear(y))
    ensures CivilFromDay(day).month == m
  {
    var c := CivilFromDay(day);
    OneMonthPerDay(day - DayFromYear(y), IsLeapYear(y), c.month, m);
  }

  /** The decomposition followed by MakeDay gives the day back. */
  lemma MakeDayOfCivil(day: int)
    ensures var c := CivilFromDay(day); MakeDay(c.year, c.month, c.date) == day
  {
    var c := CivilFromDay(day);
    MakeDayWithinYear(c.year, c.month, c.date);
  }

  /** The year field of the Date Time String Format: four digits for years 0 to
      9999, otherwise a sign and six digits (the expanded years of the
      Date Time String Format). */
  function YearString(y: int): (s: string)
    ensures 0 <= y <= 9999 ==> s == Pad(y, 4)
  {
    if 0 <= y <= 9999 then Pad(y, 4)
    else (if y < 0 then "-" else "+") + Pad(if y < 0 then -y else y, 6)
  }

  /** `YYYY-MM-DD`, the calendar-date part of the Date Time String Format. */
  function IsoDate(c: CivilDate): string
    requires 0 <= c.month && 0 <= c.date
  {
    YearString(c.year) + "-" + Pad(c.month + 1, 2) + "-" + Pad(c.date, 2)
  }

  /** The calendar-date part holds no letter `T`. */
  lemma NoTInIsoDate(c: CivilDate)
    requires 0 <= c.month && 0 <= c.date
    ensures 'T' !in IsoDate(c)
  {
    var y := YearString(c.year);
    NotInDigits('T', Pad(c.month + 1, 2));
    NotInDigits('T', Pad(c.date, 2));
    if 0 <= c.year <= 9999 {
      NotInDigits('T', y);
    } else {
      NotInDigits('T', y[1..]);
      assert y == [y[0]] + y[1..];
    }
  }

  /** `HH:mm:ss.sssZ`, the time part, for `w` milliseconds into the day. */
  function IsoTime(w: int): string
    requires 0 <= w
  {
    Pad(w / 3_600_000, 2) + ":" + Pad(w / 60_000 % 60, 2) + ":" +
      Pad(w / 1000 % 60, 2) + "." + Pad(w % 1000, 3) + "Z"
  }

  /** The string `toISOString` returns for time value `t`:
      `YYYY-MM-DDTHH:mm:ss.sssZ` (section 21.4.4.36). */
  function IsoString(t: int): string {
    IsoDate(CivilFromDay(Day(t))) + "T" + IsoTime(TimeWithinDay(t))
  }
}
