# KM Foods staff & sales manager: a Dafny model of the front end's logic

KM Foods runs a burger outlet with two shifts a day, morning and evening. Its
web front end has five parts:

- a dashboard of today's figures;
- an attendance board where staff sign in and out for a shift;
- a staff list with an add form and a name search;
- a sales & expenses page with one form per shift;
- the navigation bar around them.

Records live in a remote backend, keyed by a day: the UTC midnight of the
chosen date, counted in nanoseconds. This project models the logic of those
pages and of the date helpers they share.

**Date helpers.** The model covers how a date becomes a day key
(`dateToBigIntNs`) and how a key becomes a date again (`bigIntNsToDate`). It
also covers how a date input's `YYYY-MM-DD` text is parsed into a local date
(`parseDateInput`) and how a date is written back into the input
(`formatDateInput`). These follow ECMA-262's `Date` arithmetic, with the
browser's time zone as a fixed offset.

**Pages.** The model covers:

- the dashboard's counts and sums;
- the attendance map, the shift filter and its fallback;
- the one action each row offers, and the sign-in and sign-out requests;
- the staff partition and the case-insensitive search;
- the add-staff validation, form reset and error classification;
- the shift forms: how they are filled from records, how their text is parsed
  on save, and the totals shown;
- the navigation highlight rule and the mobile menu.

**Form of the model.** Pure computations are functions, with lemmas about
them. Each page's React state is a class whose methods are the state updates
the page performs. The loop that builds the attendance map is a method with a
loop invariant, proved against a specification function.

Files, one module each:

| file | module |
|---|---|
| `backend.dfy` | the record types the backend exchanges |
| `lists.dfy` | `filter` and its laws |
| `strings.dfy` | `trim`, `toLowerCase`, `includes`, `startsWith`, `split`, decimal digits |
| `calendar.dfy` | ECMA-262 day, year and month arithmetic, `MakeDay`, the ISO date string |
| `numbers.dfy` | `parseFloat` and `Math.round` |
| `date_utils.dfy` | the date helpers |
| `selected_date.dfy` | the selected date the three dated pages share |
| `dashboard.dfy`, `attendance.dfy`, `staff_management.dfy`, `sales_expenses.dfy`, `app_layout.dfy` | the pages |

## Model

| member | source | states |
|---|---|---|
| DateUtils.DateToBigIntNs | frontend/src/lib/dateUtils.ts:5-9 | A valid date gets a key; the invalid date gets none (the RangeError of `BigInt(NaN)`). The key is a whole number of days, at most the date's instant and less than one day before it. |
| DateUtils.MidnightInRange | frontend/src/lib/dateUtils.ts:5-9 | The UTC midnight of an instant lies within one day before it, and it is a valid time value whenever the instant is. |
| DateUtils.SameKeyIffSameDay | frontend/src/lib/dateUtils.ts:5-9 | Two valid dates get the same key if and only if they fall on the same UTC day. |
| DateUtils.KeyMonotone | frontend/src/lib/dateUtils.ts:5-9 | A later instant never gets a smaller key. |
| DateUtils.KeyToDate | frontend/src/lib/dateUtils.ts:14-16 | Reading a key back gives exactly the UTC midnight of the original date. |
| DateUtils.KeyIdempotent | frontend/src/lib/dateUtils.ts:5-16 | Keying the date that a key reads back as gives the same key again. |
| DateUtils.KeyOfInstant | frontend/src/lib/dateUtils.ts:5-9 | The key of a valid instant is the key of its UTC day. |
| DateUtils.StringToNumber | frontend/src/lib/dateUtils.ts:37 | `Number` of a blank piece is 0. |
| DateUtils.NumberOfDigits | frontend/src/lib/dateUtils.ts:37 | A non-empty run of digits reads as its decimal value. |
| DateUtils.LocalMidnight | frontend/src/lib/dateUtils.ts:38 | A valid local midnight of a day falls on that day in local time. |
| DateUtils.LocalDate | frontend/src/lib/dateUtils.ts:38 | `new Date(y, m, d)`, when valid, falls in local time on MakeDay of the year (with 0-99 read as 1900-1999), month and date. |
| DateUtils.FormatIsUtcCalendarDate | frontend/src/lib/dateUtils.ts:29-31 | The formatted value of a valid date is the calendar date of its UTC day. |
| DateUtils.SplitDateInput | frontend/src/lib/dateUtils.ts:37 | A `YYYY-MM-DD` value splits on `-` into exactly its year, month and day digits. |
| DateUtils.FieldsOfDateInput | frontend/src/lib/dateUtils.ts:36-38 | A `YYYY-MM-DD` value yields its year, its month minus one, and its day. |
| DateUtils.IsoDateOfInput | frontend/src/lib/dateUtils.ts:30 | Writing the year, month and day read from a `YYYY-MM-DD` value back out in ISO form gives the value. |
| DateUtils.ParsedLocalMidnight | frontend/src/lib/dateUtils.ts:36-39 | A well-laid-out value parses to a valid local midnight, in every time zone less than a day from UTC. This holds for both the as-written and the corrected year handling. |
| DateUtils.CalendarDateOfDay | frontend/src/lib/dateUtils.ts:29-39 | The calendar date of the day a well-formed value names is written as that value. |
| DateUtils.DayOfLocalMidnight | frontend/src/lib/dateUtils.ts:38 | Local midnight falls on the same UTC day at or west of UTC, and on the previous UTC day east of it. |
| DateUtils.KeyOfLocalMidnight | frontend/src/lib/dateUtils.ts:5-9 | A valid local midnight is keyed under its own day at or west of UTC, and under the day before east of UTC. |
| DateUtils.KeyOfPickedDate | frontend/src/lib/dateUtils.ts:5-9 | A well-formed value from year 100 on, once parsed, is keyed under the day it names at or west of UTC, and under the day before east of UTC. |
| DateUtils.KeyOfPickedDateFullYear | frontend/src/lib/dateUtils.ts:5-9 | Keeping the year as typed leaves the key as it is: east of UTC the parsed value is still keyed under the day before. |
| DateUtils.EastOfUtcStoresPreviousDay | frontend/src/lib/dateUtils.ts:5-9 | Choosing 2024-03-01 at UTC+05:30 keys the day's records under 2024-02-29. |
| DateUtils.FormatParseRoundTrip | frontend/src/lib/dateUtils.ts:29-39 | At or west of UTC, formatting the parse of a well-formed value from year 100 on gives the value back. |
| DateUtils.ShownDateEastOfUtc | frontend/src/lib/dateUtils.ts:29-39 | East of UTC, formatting the parse of a well-formed value gives the calendar date of the day before. |
| DateUtils.FormatEastMidnight | frontend/src/lib/dateUtils.ts:29-31 | East of UTC, any local midnight is formatted as the previous calendar date. |
| DateUtils.EastOfUtcShowsPreviousDay | frontend/src/lib/dateUtils.ts:29-39 | Choosing 2024-03-01 at UTC+05:30 makes the input show 2024-02-29. |
| DateUtils.LeapDay2024 | frontend/src/lib/dateUtils.ts:30 | The day before 1 March 2024 is 29 February 2024. |
| DateUtils.ShownDateTwoDigitYear | frontend/src/lib/dateUtils.ts:36-39 | At or west of UTC, a year from 0 to 99 comes back as 1900 to 1999. |
| DateUtils.TwoDigitYearBecomes19xx | frontend/src/lib/dateUtils.ts:36-39 | Choosing 0050-03-01 at UTC makes the input show 1950-03-01. |
| DateUtils.LocalDateOfLocalMidnight | frontend/src/lib/dateUtils.ts:29-31 | The corrected formatting (local calendar date) of a local midnight names that day, at every offset. |
| DateUtils.CorrectedRoundTrip | frontend/src/lib/dateUtils.ts:29-39 | With both corrections, every well-formed four-digit-year value survives the round trip in every time zone less than a day from UTC. |
| DateUtils.CorrectedKeyOfPickedDate | frontend/src/lib/dateUtils.ts:5-9 | Keyed by its local calendar day, the parse of every well-formed value, with the year kept as typed, gets the key of the day the value names, in every time zone less than a day from UTC. |
| DateUtils.LocalKeyOfLocalMidnight | frontend/src/lib/dateUtils.ts:5-9 | Keyed by its local calendar day, a local midnight gets the key of its own day at every offset. |
| Calendar.YearFromDay | frontend/src/lib/dateUtils.ts:30 | The year found for a day is the year whose span holds that day. |
| Calendar.OneYearPerDay | frontend/src/lib/dateUtils.ts:30 | No two years hold the same day. |
| Calendar.DayFromYearStep | frontend/src/lib/dateUtils.ts:30 | Consecutive years start exactly one year's length apart. |
| Calendar.CivilFromDay | frontend/src/lib/dateUtils.ts:30 | Splitting a day into year, month and date gives a real calendar date, and that date adds back up to the day. |
| Calendar.CivilOfMakeDay | frontend/src/lib/dateUtils.ts:38 | Splitting MakeDay of a real calendar date gives that date back. |
| Calendar.MakeDayOfCivil | frontend/src/lib/dateUtils.ts:38 | MakeDay of a day's split gives the day back. |
| Calendar.NoTInIsoDate | frontend/src/lib/dateUtils.ts:30 | The date part of the ISO string has no `T`, so `split('T')[0]` is exactly that date part. |
| Strings.Trim | frontend/src/pages/StaffManagement.tsx:42 | `trim` removes the leading and trailing white space and nothing else. The result is empty exactly when the input is all white space. |
| Strings.Lower | frontend/src/pages/StaffManagement.tsx:38 | `toLowerCase` lower-cases every character in place. |
| Strings.NatToString | frontend/src/pages/SalesExpenses.tsx:22-28 | `toString` of a natural number writes decimal digits, with no leading zero, that read back as the number. |
| Lists.Filter | frontend/src/pages/StaffManagement.tsx:34-35 | `filter` keeps exactly the elements that pass the test. |
| Lists.FilterSplits | frontend/src/pages/StaffManagement.tsx:34-35 | Two complementary filters split a list: their multisets and their lengths add up to the list's. |
| Numbers.ParseFloat | frontend/src/pages/SalesExpenses.tsx:53 | `parseFloat` reads a number only from text that holds a digit. |
| Numbers.Round | frontend/src/pages/SalesExpenses.tsx:54 | `Math.round` is within one half of its argument; halves are rounded up. |
| Numbers.ParseFloatOfIntString | frontend/src/pages/SalesExpenses.tsx:22-28 | `parseFloat` reads back every integer that `toString` writes. |
| Numbers.ParseFloatOfDecimal | frontend/src/pages/SalesExpenses.tsx:53 | `parseFloat` reads `i.f` as the digits without the point, scaled down by ten for each fraction digit. |
| Numbers.DecimalPrefixOfDecimal | frontend/src/pages/SalesExpenses.tsx:53 | A decimal `i.f` with no exponent is read whole. |
| Numbers.DecimalPrefixOfDigits | frontend/src/pages/SalesExpenses.tsx:53 | A run of digits alone is read as its value. |
| SelectedDate.LocalStartOfDay | frontend/src/pages/Attendance.tsx:18-22 | `setHours(0, 0, 0, 0)` of now falls on now's local day, at most now and less than a day before it. It is valid whenever the day before now is. |
| SelectedDate.StartOfDayKey | frontend/src/pages/Dashboard.tsx:12-14 | Today's start has a key whenever yesterday is a valid date. That key is today's local day at or west of UTC and the day before east of UTC. Keyed by its local day instead, it is today at every offset. |
| SelectedDate.PickedDateShown | frontend/src/pages/Attendance.tsx:91-93 | At or west of UTC, a picked date from year 100 on is shown back in the input. Clearing the input keeps the selected date. |
| Dashboard.Summarize | frontend/src/pages/Dashboard.tsx:21-34 | Staff on the morning and evening shifts together number at most those present, who number at most the records. Active staff number at most all staff. Total cash is cash plus online sales. |
| Dashboard.SumAppend | frontend/src/pages/Dashboard.tsx:29-32 | A sum over two lists one after the other is the sum of their sums. |
| Dashboard.SumRemove | frontend/src/pages/Dashboard.tsx:29-32 | Removing a record from a list removes its amount from the sum. |
| Dashboard.MultisetRemove | frontend/src/pages/Dashboard.tsx:29-32 | Removing the record at a position removes one copy of it from the list's multiset. |
| Dashboard.SumPermutation | frontend/src/pages/Dashboard.tsx:29-32 | The sums do not depend on the order the records arrive in. |
| Dashboard.SumOfSum | frontend/src/pages/Dashboard.tsx:31 | Summing two fields separately and adding the sums gives the sum of the per-record totals. |
| Dashboard.TodayKey | frontend/src/pages/Dashboard.tsx:12-14 | Today's queries run under a key whenever yesterday is a valid date. It is the key of today's local day at or west of UTC, and of the day before east of UTC. |
| Dashboard.SummaryOfNoRecords | frontend/src/pages/Dashboard.tsx:29-32 | With no records, cash sales, online sales, total cash and expenses are all 0. |
| Dashboard.SummaryAdditive | frontend/src/pages/Dashboard.tsx:29-32 | Cash sales, online sales, total cash and expenses each add up over a split of the records. |
| Dashboard.SummaryOrderIndependent | frontend/src/pages/Dashboard.tsx:29-32 | Cash sales, online sales, total cash and expenses each ignore the order of the records. |
| Dashboard.SummaryCashIsTakings | frontend/src/pages/Dashboard.tsx:29-31 | Total cash is the sum over the records of each record's cash and online sales. |
| Dashboard.PresentCounts | frontend/src/pages/Dashboard.tsx:21-27 | A record adds one to a shift's count if and only if it is of that shift, signed in and not signed out. It adds one to the total present if and only if it is signed in. |
| Dashboard.ActiveCount | frontend/src/pages/Dashboard.tsx:34 | The active count and the deactivated staff together make up the whole staff list. |
| Attendance.LastByIdKeys | frontend/src/pages/Attendance.tsx:35-39 | The map has a key for a staff id if and only if some record carries that id. |
| Attendance.LastByIdLastWins | frontend/src/pages/Attendance.tsx:35-39 | A record that no later record overrides is the one the map holds for its id. |
| Attendance.BuildAttendanceMap | frontend/src/pages/Attendance.tsx:35-39 | The loop builds exactly the map from each id to the last record that carries it. |
| Attendance.FilteredStaff | frontend/src/pages/Attendance.tsx:41-46 | An active staff member is kept if and only if the filter is "all", or their record exists and is of the filter's shift. |
| Attendance.FilteredStaffSublist | frontend/src/pages/Attendance.tsx:41-46 | The filtered list keeps the active staff's order, and under "all" it is all of them. |
| Attendance.DisplayedStaffFallback | frontend/src/pages/Attendance.tsx:144 | The rows shown keep the active staff's order. There are rows if and only if some staff are active. A filter nobody matches shows everybody. |
| Attendance.OneActionPerRow | frontend/src/pages/Attendance.tsx:186-228 | Every row offers exactly one action: sign-in before signing in, sign-out while signed in, Completed after signing out. The In button is enabled if and only if a shift is picked. |
| Attendance.CountsOf | frontend/src/pages/Attendance.tsx:74-76 | The morning and evening counts add up to the number of records. The present count is at most the number of records. |
| Attendance.AttendancePage.constructor | frontend/src/pages/Attendance.tsx:18-24 | The page starts at the local start of today, with the "all" filter and no shift picked. |
| Attendance.AttendancePage.ChooseDate | frontend/src/pages/Attendance.tsx:91-93 | The selected date becomes the parsed date, or stays when the input is cleared. Nothing else changes. |
| Attendance.AttendancePage.SetFilter | frontend/src/pages/Attendance.tsx:116 | Only the filter changes. |
| Attendance.AttendancePage.SelectShift | frontend/src/pages/Attendance.tsx:189-192 | Only that row's picked shift changes. |
| Attendance.AttendancePage.HandleSignIn | frontend/src/pages/Attendance.tsx:48-61 | A request is sent if and only if a shift is picked, with the day key and that shift. Only a successful call clears that row's pick, and other rows are untouched. |
| Attendance.AttendancePage.HandleSignOut | frontend/src/pages/Attendance.tsx:63-70 | The request names the row's staff member and the selected day's key, a whole number of days. |
| StaffManagement.ActiveInactivePartition | frontend/src/pages/StaffManagement.tsx:34-35 | Active and deactivated staff split the list: together they hold every record as often as it occurs, and none is in both. |
| StaffManagement.Search | frontend/src/pages/StaffManagement.tsx:37-39 | A staff member is listed if and only if they are active and their lower-cased name contains the lower-cased search. |
| StaffManagement.SearchSublist | frontend/src/pages/StaffManagement.tsx:37-39 | The result keeps the active staff's order. The empty search lists all of them. |
| StaffManagement.ContainsLower | frontend/src/pages/StaffManagement.tsx:38 | Lower-casing keeps every occurrence of a query. |
| StaffManagement.SearchIgnoresCase | frontend/src/pages/StaffManagement.tsx:37-39 | Queries differing only in letter case give the same list. A name containing the query as typed is always found. |
| StaffManagement.PluralEnding | frontend/src/pages/StaffManagement.tsx:75-78 | The noun takes an "s" if and only if the count is not 1. The deactivated line appears if and only if the count is positive. |
| StaffManagement.EmptyListTruthful | frontend/src/pages/StaffManagement.tsx:147-151 | "No active staff members yet" is shown only when no staff are active. The no-match message is shown only when a search is typed. |
| StaffManagement.DuplicateMessages | frontend/src/pages/StaffManagement.tsx:54-58 | Any message containing "duplicate" or "already exists" is reported as a clashing id. |
| StaffManagement.ShortMessageNotDuplicate | frontend/src/pages/StaffManagement.tsx:54-58 | A message shorter than nine characters is a generic failure. |
| StaffManagement.StaffForm.constructor | frontend/src/pages/StaffManagement.tsx:30-32 | The form starts with an empty name, the staff role and an empty search. |
| StaffManagement.StaffForm.SetName | frontend/src/pages/StaffManagement.tsx:96 | Only the name changes. |
| StaffManagement.StaffForm.SetRole | frontend/src/pages/StaffManagement.tsx:103 | Only the role changes. |
| StaffManagement.StaffForm.SetSearch | frontend/src/pages/StaffManagement.tsx:138 | Only the search changes. |
| StaffManagement.StaffForm.HandleAdd | frontend/src/pages/StaffManagement.tsx:41-61 | A blank name sends nothing and changes nothing. Otherwise the trimmed name and the role are sent. Success resets the form; failure keeps it and classifies the error. |
| SalesExpenses.FirstOfShift | frontend/src/pages/SalesExpenses.tsx:46-47 | `find` stops at the first record of the shift, or at the end of the list. |
| SalesExpenses.FindShift | frontend/src/pages/SalesExpenses.tsx:46-47 | `find` finds nothing if and only if no record is of that shift. What it finds is a record of that shift from the list. |
| SalesExpenses.ParseVal | frontend/src/pages/SalesExpenses.tsx:52-55 | The saved amount is never negative. It is the nearest whole number of a non-negative reading, and 0 for NaN or a negative reading. |
| SalesExpenses.ParseValOfIntString | frontend/src/pages/SalesExpenses.tsx:22-55 | An amount written into a form reads back unchanged, with negatives becoming 0. |
| SalesExpenses.SaveRecordForm | frontend/src/pages/SalesExpenses.tsx:22-71 | A record with no negative amount, written into a form and saved, is saved with the same amounts. |
| SalesExpenses.SaveAfterPopulate | frontend/src/pages/SalesExpenses.tsx:45-71 | Saving a shift right after the forms are filled resubmits its first stored record under the day key, or zeros when there is none. |
| SalesExpenses.NumOrZeroOfIntString | frontend/src/pages/SalesExpenses.tsx:73-77 | The totals read a written amount back as that amount. |
| SalesExpenses.Totals | frontend/src/pages/SalesExpenses.tsx:85-92 | Revenue is the sum of the two shift totals. Net profit is revenue less expenses. |
| SalesExpenses.TotalsOfRecordForms | frontend/src/pages/SalesExpenses.tsx:85-92 | The totals of forms filled from records are the records' amounts summed. |
| SalesExpenses.DigitsAgree | frontend/src/pages/SalesExpenses.tsx:52-55 | For a field of digits only (blank, or with leading zeros), `parseFloat(v) \|\| 0` and `parseVal` read the same amount: the digits' value, 0 when blank. |
| SalesExpenses.DigitFormAgrees | frontend/src/pages/SalesExpenses.tsx:52-65 | Each field of a form of digits counts in the totals as exactly the amount saving that form submits for it. |
| SalesExpenses.TotalsOfDigitForms | frontend/src/pages/SalesExpenses.tsx:85-91 | For two forms whose fields hold digits only, typed or blank, the totals shown are the sums of the amounts saving each shift would submit, and the profit is their revenue less expenses. |
| SalesExpenses.LeadingZeroTyped | frontend/src/pages/SalesExpenses.tsx:52-55 | A typed "05" beside blank fields is counted as 5 and saved as 5. |
| SalesExpenses.TotalsShowUnsavedValues | frontend/src/pages/SalesExpenses.tsx:52-92 | The totals show "-5" as -5 and "2.4" as 2.4, but saving stores 0 and 2. |
| SalesExpenses.SalesPage.constructor | frontend/src/pages/SalesExpenses.tsx:31-38 | The page starts at the local start of today with both forms empty. |
| SalesExpenses.SalesPage.ChooseDate | frontend/src/pages/SalesExpenses.tsx:40-50 | The selected date becomes the parsed date, or stays when the input is cleared. When the day key changes, the populate effect refills both forms from the new day's records (emptied while they load). When the key stays, the forms are kept. |
| SalesExpenses.SalesPage.Populate | frontend/src/pages/SalesExpenses.tsx:45-50 | Each form becomes its shift's first stored record, written out, or empty. The selected date is kept. |
| SalesExpenses.FormFor | frontend/src/pages/SalesExpenses.tsx:46-49 | A shift's populated form is empty exactly when no record of that shift is stored. |
| SalesExpenses.SalesPage.Edit | frontend/src/pages/SalesExpenses.tsx:227 | Only the edited input of the edited shift changes. |
| SalesExpenses.SalesPage.HandleSave | frontend/src/pages/SalesExpenses.tsx:57-71 | The submitted record carries the day key, the shift, and that shift's form amounts parsed, all of them non-negative. |
| AppLayout.Highlights | frontend/src/components/AppLayout.tsx:37-38 | There is one highlight flag per navigation item, each given by the item's active test. |
| AppLayout.ActiveRule | frontend/src/components/AppLayout.tsx:38 | Dashboard is highlighted exactly on "/", every other item on paths it starts. The open mobile menu highlights the same items as the desktop bar. |
| AppLayout.AtMostOneActive | frontend/src/components/AppLayout.tsx:6-11 | No path highlights two items. |
| AppLayout.OwnRouteHighlighted | frontend/src/components/AppLayout.tsx:6-38 | On each item's own route, that item and only that item is highlighted. |
| AppLayout.Layout.constructor | frontend/src/components/AppLayout.tsx:14 | The mobile menu starts closed. |
| AppLayout.Layout.ToggleMenu | frontend/src/components/AppLayout.tsx:59 | The menu button flips the menu. |
| AppLayout.Layout.FollowMobileLink | frontend/src/components/AppLayout.tsx:74 | Following a mobile link closes the menu. |

The pages keep `parseDateInput`, `formatDateInput` and `dateToBigIntNs` as
written, because that is what they call. The corrected definitions
(`ParseDateInputFullYear`, `FormatLocalDateInput`, `LocalDayKey`) appear only
in the Findings below.

## Left out

- **Time zone.** The browser's time zone is one fixed offset, in milliseconds,
  less than a day from UTC. Daylight-saving changes are not modelled.
- **Clock.** The clock reading (`new Date()`) is a parameter.
- **Staff ids.** The id `generateStaffId` draws is a parameter, because it
  comes from `Math.random` and the clock.
- **Backend.** The backend and the react-query hooks are left out: fetching,
  caching, loading flags and `isPending`. The records a query returns are
  parameters. Each call's outcome (success, or failure with a message) is a
  parameter of the handler that makes it.
- **Toasts and markup.** Toasts, icons, styling, badges and the JSX layout are
  not modelled. Which toast `handleAdd` shows is modelled, as a notice value.
- **Display-only helpers.** `formatTime`, `formatDateDisplay` and
  `formatCurrency` (frontend/src/lib/dateUtils.ts:21-24 and 44-59) depend on
  the host's `Intl` locale data, and their results are only displayed.
- **handleDeactivate** (frontend/src/pages/StaffManagement.tsx:63-70) only
  calls the backend and shows a toast. There is no page state for it to
  change.
- Strings.Lower: lower-cases ASCII letters only. Full Unicode case
  mapping is not modelled.
- Numbers.ParseFloat:
  - it works on exact reals, with no double rounding and no overflow to
    Infinity;
  - the "Infinity" spelling is not read;
  - values are not rounded to doubles, so the totals are exact sums.
- **Number conversion.** `Number(bigint)` in the dashboard sums and in
  `recordToForm` is exact. Loss of precision above 2^53 and exponent notation
  from 1e21 on are not modelled.
- DateUtils.StringToNumber: reads only blank pieces and optionally signed runs of
  decimal digits. The decimal, exponent, hexadecimal, binary (`0b1`), octal (`0o7`) and
  `Infinity` forms that `Number` also reads are NaN here; a date input's value never holds them.
- SalesExpenses.ParseVal: a reading large enough to become Infinity
  (where `BigInt` would throw) is not modelled.
- **Rendering precondition.** `HandleSave`, `HandleSignIn` and `HandleSignOut`
  require the selected date to have a day key. For the invalid date,
  `dateToBigIntNs` throws during render, so no button exists to press.
- **Round-trip scope.** The date round trip is proved only at or west of UTC
  and only from year 100 on. Outside that, see Findings. Only four-digit years
  are modelled: a date input can also hold a year from 10000 on, which
  `toISOString` writes with a sign and six digits (`+010000-01-01`); such
  values are not modelled.

## Findings

| source | as written | input that shows it | evidently intended | confidence | as-written member | corrected member |
|---|---|---|---|---|---|---|
| frontend/src/lib/dateUtils.ts:29-39 | `formatDateInput` writes the UTC calendar date (`toISOString`) of the local midnight `parseDateInput` builds. | "2024-03-01" picked at UTC+05:30 is shown as "2024-02-29". | The input shows the local date that was picked, in every time zone. | not executed | DateUtils.EastOfUtcShowsPreviousDay | DateUtils.CorrectedRoundTrip |
| frontend/src/lib/dateUtils.ts:5-9 | `dateToBigIntNs` keys the UTC day of the local midnight `parseDateInput` builds, so east of UTC a picked date's records are stored under the day before. The text correction above leaves this key as it is. | "2024-03-01" picked at UTC+05:30 is stored under the key of 2024-02-29. | Records are stored under the local day that was picked. | not executed | DateUtils.EastOfUtcStoresPreviousDay | DateUtils.CorrectedKeyOfPickedDate |
| frontend/src/lib/dateUtils.ts:36-39 | `new Date(y, m - 1, d)` reads years 0-99 as 1900-1999. | "0050-03-01" is shown as "1950-03-01". | The year is kept as typed, as `setFullYear` would do. | not executed | DateUtils.TwoDigitYearBecomes19xx | DateUtils.CorrectedRoundTrip |
