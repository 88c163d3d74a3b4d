# Perpetual calendar dates, modelled in Dafny

The three scripts `scripts/alpha.py`, `scripts/bravo.py` and `scripts/charlie.py` each
define `generate_perpetual_calendar_dates(start_date, end_date)`. The function walks the
Gregorian days from `start_date` to `end_date` and builds one record per day for a
perpetual calendar:

- December 21 is the **Year Day**, outside the week and season structure.
- June 21 of a Gregorian leap year is the **Leap Day**, also outside that structure.
- Every other day has a position `days_into_cycle` in a 364-day cycle. The cycle has four
  seasons of thirteen seven-day weeks, with the day names Solis … Ignis.
- The position is counted from the *anchor*. The anchor is December 22, 2024 at first,
  and after that the day after the latest Year Day the walk has passed.
  A day the walk reaches before its first Year Day is therefore counted from 2024-12-22,
  and its slot depends on where the walk started (see "## Findings").

The three scripts differ only in these points:

- the season names: Florea…Frigida, Alpha…Delta, or Hunter…Water Bearer;
- the labels of the two extra days;
- how they deduct Leap Days from the day count since the anchor:
  - alpha.py deducts nothing;
  - bravo.py and charlie.py scan every day from the anchor and deduct those that pass a
    test whose parentheses Python groups differently from what the authors intended;
- alpha.py only: a preamble that builds the first December 22 on or after `start_date`:
  in `start_date`'s own year, or in the next year when `start_date` is past December 22.
  It raises ValueError for starts from 9999-12-23 to 9999-12-31.

The model is organised as follows:

- `Gregorian` is the part of Python's `datetime.date` the walk uses:
  - validity, ordinals (both the sum of year lengths and Python's closed form), and
    comparison;
  - the day after a date, which raises OverflowError on 9999-12-31;
  - the weekday.
- `Cycle` maps a cycle position to its day name, overall week, season and week in
  season, and back again.
- `LeapScan` is the inner scan loop, with three test modes:
  - no deduction (alpha.py);
  - the quirky test as written (bravo.py, charlie.py);
  - the intended test (June 21 of a leap year).
- `PerpetualCalendar` holds:
  - the loop body as the method `ClassifyDay`;
  - the walk as the method `GenerateCalendar`, proved against the functional
    specification `Calendar`/`Outcome` (the outer loop's invariant ties the list built so
    far to the records of the remaining steps);
  - the script-specific constants as a `Config`.
- `PerpetualYear` relates `days_into_cycle` to the *intended* position of a day, which is
  the days since the December 22 that opens its perpetual year, minus one once the Leap
  Day has passed. It also states where seasons begin and end.
- `CalendarWalk` states what the whole walk produces, record by record.
- `Alpha`, `Bravo` and `Charlie` fix each script's settings. Each proves the script's own
  demo run and its behaviour around Leap Days and years divisible by 400.

Dates are `Date(year, month, day)` triples. Python's exceptions are the `Error` values
`DateOverflow` (OverflowError) and `YearOutOfRange` (ValueError).

## Model

| member | source | states |
|---|---|---|
| Gregorian.Succ | scripts/bravo.py:116 | `date + timedelta(days=1)` on a valid date other than 9999-12-31 is a valid, strictly later date |
| Gregorian.IsLeapYear | scripts/bravo.py:23 | `is_leap_year_gregorian`: divisible by 4 and not by 100, or divisible by 400 |
| Gregorian.DaysInMonth | scripts/bravo.py:116 | the length of each month `datetime.date` accepts, 28 to 31 days, with February 29 in leap years only |
| Gregorian.Valid | scripts/bravo.py:116 | the dates `datetime.date` accepts: years 1 to 9999, months 1 to 12, days within the month. Stepping past 9999-12-31 leaves this range (OverflowError), and so does building December 22 of year 10000 at scripts/alpha.py:24 (ValueError) |
| Gregorian.Ordinal | scripts/bravo.py:75 | `date.toordinal()`, with 0001-01-01 as 1, so `(current_date - perpetual_start_anchor).days` (also scripts/alpha.py:94) is a difference of ordinals |
| Gregorian.Before | scripts/bravo.py:22 | Python's `<` on dates, lexicographic on year, month and day; the walk's `current_date <= end_date` is its negation with the operands swapped, and the scan's `<` at scripts/bravo.py:84 is the relation itself |
| Gregorian.Weekday | scripts/bravo.py:107 | the weekday behind `strftime("%A")`, counted from Monday as 0; it lies in 0 to 6 |
| Gregorian.DayAfter | scripts/bravo.py:116 | the date reached after `i` steps of the walk is valid and its ordinal is `i` more than the start's |
| Gregorian.OrdinalSucc | scripts/bravo.py:116 | stepping one day increases the ordinal by exactly one, so `(a - b).days` counts steps |
| Gregorian.DaysBeforeYearClosedForm | scripts/bravo.py:75 | the ordinal as a sum of Gregorian year lengths agrees with Python's closed form `365p + p/4 - p/100 + p/400`, so ordinal differences are `(a - b).days` |
| Gregorian.OrdinalOrder | scripts/bravo.py:22 | Python's date comparison agrees with the comparison of ordinals, both directions, and equal dates are exactly those with equal ordinals |
| Gregorian.OrdinalBounds | scripts/bravo.py:116 | every valid date has an ordinal from 1 to 3652059, and only 9999-12-31 has the largest |
| Gregorian.OrdinalInjective | scripts/bravo.py:75 | two valid dates with the same ordinal are the same date |
| Gregorian.MaxDateLatest | scripts/bravo.py:22 | no valid date comes after 9999-12-31 |
| Gregorian.WeekdaySucc | scripts/bravo.py:107 | the `std_weekday` of consecutive days advances by one modulo seven |
| Gregorian.KnownWeekdays | scripts/bravo.py:20 | 0001-01-01 is a Monday; the anchor 2024-12-22 has ordinal 739242 and is a Sunday |
| LeapScan.CountScanHits | scripts/bravo.py:82-88 | the inner `while temp_date < current_date` loop (also scripts/charlie.py:53-59) returns the number of days from the anchor up to, not including, the current date that pass the test |
| LeapScan.IsLeapDay | scripts/bravo.py:41 | the Leap Day is June 21 of a Gregorian leap year |
| LeapScan.Hit | scripts/bravo.py:85-86 | the test each scanned day faces, per script: none in alpha.py, the expression as Python binds it in bravo.py and charlie.py (also scripts/charlie.py:56-57), and the Leap-Day test in the corrected model |
| LeapScan.ScanCount | scripts/bravo.py:82-88 | the value `leap_days_to_subtract` ends with: the number of days from the anchor up to, not including, the current date that pass the test |
| LeapScan.ScanSnoc | scripts/bravo.py:84-88 | extending the scanned range by one day adds exactly that day's test result |
| LeapScan.ScanSplit | scripts/bravo.py:82-88 | the scan over two adjacent ranges counts the hits of each range |
| LeapScan.QuirkOutside400 | scripts/bravo.py:85-86 | in a year not divisible by 400, the test as written holds exactly on the Leap Day |
| LeapScan.QuirkCountsLeapDays | scripts/bravo.py:82-88 | when no year from the first scanned day's to the end date's is divisible by 400, the scan as written counts exactly the Leap Days |
| LeapScan.EpochOffsets | scripts/bravo.py:41 | June 21 and December 21 of `y + 1` lie 181 and 364 days after December 22 of `y`, one more in a leap year |
| LeapScan.LeapDaysInEpoch | scripts/bravo.py:82-88 | with the intended test, the scan from December 22 of `y` over `k` days counts 1 exactly when `y + 1` is a leap year and its Leap Day, 182 days on, has been passed, and 0 otherwise |
| LeapScan.LeapDaysSinceEpochStart | scripts/bravo.py:82-88 | the same count, stated for an end date within the perpetual year |
| LeapScan.LeapDayOfEpoch | scripts/bravo.py:41 | among the 365 days from December 22 of `y`, a day is a Leap Day if and only if `y + 1` is a leap year and the day is 182 days on |
| LeapScan.NewYearOrdinal | scripts/bravo.py:75 | January 1 is ten days after the preceding December 22 |
| LeapScan.QuirkQuietDecember | scripts/bravo.py:85-86 | from December 22 to the end of a year not divisible by 400, the test as written deducts nothing |
| LeapScan.QuirkCountsNewYearsDay | scripts/bravo.py:85-86 | the test as written counts January 1 of a year divisible by 400, which is not a Leap Day, so the quirky scan's count up to January 2 is 1 where the intended count is 0 |
| LeapScan.QuirkLoudDecember | scripts/bravo.py:85-86 | in a year divisible by 400, the test as written counts all ten days from December 22 to December 31, where the intended test counts none |
| LeapScan.QuirkDecemberRun | scripts/bravo.py:84-88 | in a year divisible by 400, the scan as written from December 22 up to December `k` counts every day it passes |
| Cycle.Locate | scripts/bravo.py:92-101 | each cycle position gives a day index 0 to 6, an overall week 1 to 52, a season 0 to 3 and a week in season 1 to 13, with overall week = 13·season + week in season and position = 7·(week − 1) + day index |
| Cycle.Position | scripts/bravo.py:95-101 | a slot's position lies in the 364-day cycle |
| Cycle.LocatePosition | scripts/bravo.py:92-101 | every valid slot is the slot of its position, so every day name, season and week is reachable |
| Cycle.LocateInjective | scripts/bravo.py:92-101 | distinct cycle positions give distinct slots |
| Cycle.PositionLocate | scripts/bravo.py:92-101 | every position is recovered from its slot, the inverse direction |
| Cycle.EndSlots | scripts/bravo.py:92-101 | position 0 is the first day name of Week 1 of the first season; position 363 is the last day name of Week 52, Week 13 of the fourth season |
| Cycle.SeasonStartSlot | scripts/bravo.py:95-101 | season `k` begins at position 91·k, on the first day name of Week 13·k + 1 |
| Cycle.CycleShift | scripts/bravo.py:90 | shifting the day count by `k` shifts its position by `k`, modulo 364 |
| PerpetualCalendar.CycleDays | scripts/bravo.py:90 | `days_into_cycle` lies in 0 to 363 even for a date before the anchor, because Python's `%` with a positive divisor is never negative |
| PerpetualCalendar.Deducted | scripts/bravo.py:82-90 | the Leap Days subtracted from the day count: none in alpha.py (scripts/alpha.py:94), the scan's count in bravo.py and charlie.py |
| PerpetualCalendar.ExtraRecord | scripts/bravo.py:105-114 | the dict appended for a Year Day or Leap Day: date, English weekday, no day name, season or week, `perpetual_extra_day` true and the day's label |
| PerpetualCalendar.RegularRecord | scripts/bravo.py:105-114 | the dict appended for a regular day: date, English weekday, the slot's day name, season and week in season, `perpetual_extra_day` false and no label |
| PerpetualCalendar.IsYearDay | scripts/bravo.py:34 | the Year Day is December 21 of any year |
| PerpetualCalendar.NextAnchor | scripts/bravo.py:34-39 | the anchor moves to the day after a Year Day, which is a valid date, and stays put on every other day |
| PerpetualCalendar.Classify | scripts/bravo.py:23-114 | the record one pass of the loop body builds: a Year Day record, else a Leap Day record, else the day name, season and week of the slot of `days_into_cycle` |
| PerpetualCalendar.Steps | scripts/bravo.py:22-116 | the days from `current_date` to `end_date` with the anchor in effect on each; every date and anchor in it is valid, and it stops at 9999-12-31 |
| PerpetualCalendar.Calendar | scripts/bravo.py:22-118 | the list returned: one record per step of the walk from `start_date` under the 2024-12-22 anchor |
| PerpetualCalendar.Outcome | scripts/bravo.py:3-118 | the result of a call: ValueError from the preamble (scripts/alpha.py:22-24) for starts past 9999-12-22, else OverflowError when the walk reaches 9999-12-31, else `Calendar` |
| PerpetualCalendar.ClassifyShape | scripts/bravo.py:34-101 | a record holds the day's date and English weekday. It is extra exactly on a Year Day or a Leap Day, with that day's label and no perpetual day, season or week. Otherwise it has all three, taken from the slot of the day's cycle position |
| PerpetualCalendar.ClassifyDay | scripts/bravo.py:23-114 | one pass of the loop body produces the record `Classify` describes and moves the anchor to the day after a Year Day, otherwise keeps it |
| PerpetualCalendar.WalkStep | scripts/bravo.py:105-116 | appending the current day's record and walking on from the next day, under the next anchor, gives the walk from the current day |
| PerpetualCalendar.RecordsCons | scripts/bravo.py:105-114 | the records of a walk are, in order, the record of its first step followed by those of the rest |
| PerpetualCalendar.GenerateCalendar | scripts/bravo.py:3-118 | the walk returns exactly `Outcome`: the alpha.py preamble's ValueError, or OverflowError when the walk must step past 9999-12-31, or else the list `Calendar` specifies |
| PerpetualYear.IntendedPosition | scripts/bravo.py:44-49 | the intended position (days since the start of the day's perpetual year, less the Leap Day once passed) lies in the cycle |
| PerpetualYear.EpochStartSucc | scripts/bravo.py:34-39 | the day after any day other than the Year Day belongs to the same perpetual year |
| PerpetualYear.EpochBounds | scripts/bravo.py:34-39 | a day other than the Year Day lies 0 to 363 days after the start of its perpetual year, or 0 to 364 when that year contains a Leap Day |
| PerpetualYear.EpochEnd | scripts/bravo.py:34-39 | a day of the perpetual year opening on December 22 of `y` comes before the Year Day closing it |
| PerpetualYear.CycleStep | scripts/bravo.py:82-90 | from one day to the next, `days_into_cycle` advances by one modulo 364, less one when the scan deducts the day; a day before the anchor is never deducted |
| PerpetualYear.DeductedStep | scripts/bravo.py:82-88 | the count up to the next day is the count up to this day, plus one if this day passes the test and is not before the anchor |
| PerpetualYear.CorrectedLeapDayKeepsCycle | scripts/bravo.py:44-49 | with the intended test, June 22 of a leap year takes the slot right after June 20's, as the comment at the Leap Day promises |
| PerpetualYear.QuirkLeapDayKeepsCycle | scripts/bravo.py:82-90 | the test as written also keeps June 22 right after June 20 in leap years not divisible by 400 |
| PerpetualYear.UndeductedLeapDaySkipsSlot | scripts/alpha.py:94 | without a deduction, June 22 of a leap year is two slots after June 20, so the Leap Day uses up a slot |
| PerpetualYear.UndeductedDecember20Wraps | scripts/alpha.py:94 | without a deduction, December 20 before a leap year's Year Day is 364 days after the start of its perpetual year and wraps to position 0 |
| PerpetualYear.QuirkStallsIn400Years | scripts/bravo.py:85-86 | in a year divisible by 400, the test as written deducts every day past the anchor, so the position stays fixed from day to day |
| PerpetualYear.QuirkCarriesIntoNextYear | scripts/bravo.py:85-86 | anchored at December 22 of a year divisible by 400, the scan as written puts January 1 of the next year at position 0, where the intended test and the intended position put it at 10 |
| PerpetualYear.QuirkMatchesCorrected | scripts/bravo.py:82-90 | when no year from the anchor's to the date's is divisible by 400, the position as written equals the position under the intended test |
| PerpetualYear.CorrectedPosition | scripts/bravo.py:90 | anchored at the start of its perpetual year, the intended test puts every regular day at its intended position |
| PerpetualYear.EpochDeduction | scripts/bravo.py:82-88 | the intended scan from the start of a day's perpetual year deducts one Leap Day once the day is past it, and none otherwise |
| PerpetualYear.NoLeapDayInDecember | scripts/bravo.py:85-86 | the intended scan over days of a single December deducts nothing |
| PerpetualYear.IntendedPositionsDistinct | scripts/bravo.py:44-49 | two different regular days of one perpetual year have different intended positions |
| PerpetualYear.IntendedPositionsCovered | scripts/bravo.py:92-101 | every position 0 to 363 is the intended position of a regular day of every perpetual year |
| PerpetualYear.EpochWithin | scripts/bravo.py:34-39 | the days from December 22 of `y` up to, not including, the next Year Day form one perpetual year |
| PerpetualYear.QuirkRepeatsSlot | scripts/bravo.py:85-86 | in a year divisible by 400, two consecutive regular days get the same day name, season and week under the test as written |
| PerpetualYear.SeasonOpens | scripts/bravo.py:92-101 | seasons 2 to 4 open on Solis of their Week 1 (Week 14, 27, 40 overall): on March 22 in a leap year and March 23 otherwise, on June 22, and on September 21 |
| PerpetualYear.OpeningPosition | scripts/bravo.py:92-101 | the opening day of season `k` is at intended position 91·k |
| PerpetualYear.OpeningOffset | scripts/bravo.py:75 | how many days after the preceding December 22 each season opens, with the Leap Day counted |
| PerpetualYear.LastRegularDay | scripts/bravo.py:92-101 | December 20 is at the last position, 363, the last day name of Week 13 of the fourth season, in leap and common years |
| PerpetualYear.JuneSolsticeOpensThirdSeason | scripts/bravo.py:48 | the last regular day before June 22 (June 20 in a leap year, June 21 otherwise) is Ignis of Week 26; June 22 is Solis of Week 27, Week 1 of the third season |
| PerpetualYear.LastDayBeforeJuneSolstice | scripts/bravo.py:48 | the last regular day before June 22 is at intended position 181, and June 22 at 182 |
| PerpetualYear.NewYearIntendedPositions | scripts/bravo.py:75 | January 1 and January 2 are at intended positions 10 and 11 of the perpetual year that opened on the preceding December 22 |
| PerpetualYear.QuirkNewYearPositions | scripts/bravo.py:85-90 | counted from December 22 before a year divisible by 400, the scan as written puts January 1 and January 2 both at position 10, although January 2's intended position is 11 |
| CalendarWalk.AnchorAfter | scripts/bravo.py:20-39 | the value of `perpetual_start_anchor` after `i` passes of the loop from a given anchor: always a valid date |
| CalendarWalk.AnchorStep | scripts/bravo.py:34-39 | the anchor moves to the day after a Year Day and otherwise stays |
| CalendarWalk.AnchorWithoutYearDay | scripts/bravo.py:20 | until the walk meets a Year Day, the initial anchor 2024-12-22 stays in effect |
| CalendarWalk.AnchorAfterLatestYearDay | scripts/bravo.py:39 | after a Year Day, the anchor is the day after the latest Year Day the walk has passed |
| CalendarWalk.StepsLength | scripts/bravo.py:22 | the walk takes one step per day from start to end inclusive, and none when start is later |
| CalendarWalk.StepsTail | scripts/bravo.py:116 | past its first day, the walk is the walk from the next day under the next anchor |
| CalendarWalk.StepsEntry | scripts/bravo.py:22-116 | the `i`-th step is the date `i` days after the start, with the anchor the walk has reached by then |
| CalendarWalk.CalendarEntry | scripts/bravo.py:22-116 | the `i`-th record classifies the date `i` days after the start, under the anchor in effect on it |
| CalendarWalk.CalendarDates | scripts/bravo.py:105-118 | the list has one record per day from start to end. It is empty if and only if start is after end. Record `i` is for the date `i` days after the start, so the dates ascend strictly |
| CalendarWalk.CalendarEnds | scripts/bravo.py:22 | a non-empty list starts with the start date's record and ends with the end date's |
| CalendarWalk.RecordDate | scripts/bravo.py:106 | each record carries the date of its step |
| CalendarWalk.AnchorDayOpensCycle | scripts/bravo.py:37-39 | a December 22 classified under itself as anchor is the first day name of Week 1 of the first season |
| CalendarWalk.YearDayStartsCycle | scripts/bravo.py:37-39 | the day after a Year Day of the walk is a regular day: the first day name of Week 1 of the first season |
| CalendarWalk.NoYearDayBefore | scripts/bravo.py:34 | no Year Day lies strictly between a date and the Year Day before it |
| CalendarWalk.AnchorClosedForm | scripts/bravo.py:34-39 | on a date the walk reaches, the anchor is the start of the date's perpetual year once the walk has passed the preceding Year Day, and the initial anchor until then |
| CalendarWalk.CalendarPosition | scripts/bravo.py:75-101 | once the walk has passed the Year Day before a regular day, the day's record comes from its position counted from the start of its perpetual year, wherever the walk began |
| CalendarWalk.CorrectedCalendarIsPerpetual | scripts/bravo.py:44-49 | with the intended test, every regular day past the walk's first Year Day gets the slot of its intended position |
| CalendarWalk.LateStartDrifts | scripts/bravo.py:20 | walked alone, January 1, 2026 is counted from 2024-12-22 and comes out in slot 11, Aquae of Week 2, for every script, where its intended position is 10 |
| CalendarWalk.DeductedBefore2026 | scripts/bravo.py:75-88 | from 2024-12-22 to January 1, 2026 are 375 days, and no script deducts any of them |
| CalendarWalk.AnchoredCalendar | scripts/bravo.py:15-20 | the calendar the anchor comments describe: the walk anchored at the December 22 that opens the start's perpetual year |
| CalendarWalk.AnchoredCalendarIsPerpetual | scripts/bravo.py:15-20 | with the intended scan, the anchored walk gives every regular day its intended slot from the first record on, whatever the start |
| CalendarWalk.AnchoredNewYear | scripts/bravo.py:15-20 | the anchored walk with the intended scan puts January 1, 2026, walked alone, at position 10, Terrae of Week 2 |
| CalendarWalk.EpochStartOfWalk | scripts/bravo.py:34-39 | until the walk passes the Year Day before a day, that day lies in the perpetual year of the walk's start |
| CalendarWalk.QuirkCalendarIsPerpetual | scripts/bravo.py:82-90 | with the test as written, the same holds on every day whose perpetual year touches no year divisible by 400 |
| CalendarWalk.QuirkCalendarRepeatsSlot | scripts/bravo.py:85-86 | with the test as written, two consecutive regular days of a year divisible by 400, past the walk's first Year Day, get identical day name, season and week |
| CalendarWalk.RepeatedSlot | scripts/bravo.py:85-86 | the two records behind `QuirkCalendarRepeatsSlot` |
| CalendarWalk.UndeductedCalendarWrapsDecember20 | scripts/alpha.py:94 | without a deduction, December 20 of a leap year past the walk's first Year Day comes out as the first day name of Week 1 of the first season |
| CalendarWalk.SeasonOpeningRecords | scripts/bravo.py:92-101 | where the scan keeps the cycle, each season past the walk's first Year Day begins on its opening day, with the first day name of its Week 1 |
| CalendarWalk.YearEndRecord | scripts/bravo.py:92-101 | where the scan keeps the cycle, December 20 past the walk's first Year Day is the last day name of Week 13 of the fourth season |
| CalendarWalk.QuirkNewYearRecords | scripts/bravo.py:85-86 | walking from the Year Day before a year divisible by 400, January 1 and January 2 both get the fourth day name of Week 2 of the first season |
| CalendarWalk.CorrectedNewYearRecords | scripts/bravo.py:44-49 | with the intended test, January 1 and January 2 get the fourth and fifth day names of Week 2 of the first season, in every year |
| CalendarWalk.CalendarRecord | scripts/bravo.py:25-101 | the `i`-th record, by the kind of its date: a Year Day or Leap Day record with its label, or a regular record with all three perpetual fields in range |
| CalendarWalk.SuccessAvoidsMaxDate | scripts/bravo.py:116 | a successful walk never contains 9999-12-31, because stepping past it raises OverflowError |
| CalendarWalk.EmptyRangeGivesNoRecords | scripts/bravo.py:22 | a start after the end returns an empty list, not an error (alpha.py's preamble aside) |
| CalendarWalk.YearDayToYearDay | scripts/bravo.py:22-116 | a walk from the Year Day of `y1` to that of a later `y2` succeeds. It has one record per day of years `y1 + 1` to `y2`, plus one. It opens and closes on a Year Day, and its second record is the first day name of Week 1 of the first season |
| CalendarWalk.DemoRun | scripts/bravo.py:121-122 | the scripts' own range, 2025-12-21 to 2029-12-21, succeeds with 1462 records |
| Alpha.GeneratePerpetualCalendarDates | scripts/alpha.py:3-122 | ValueError exactly when the start is after 9999-12-22. Otherwise OverflowError exactly when the walk must step past an end of 9999-12-31. Otherwise the calendar with no Leap-Day deduction |
| Alpha.DemoOutput | scripts/alpha.py:125-126 | the demo run has 1462 records, opens with the Winter Solstice Year Day and continues with Solis of Week 1 of Florea |
| Alpha.December20Wraps | scripts/alpha.py:94 | December 20 of a leap year past the first Year Day comes out as Solis of Week 1 of Florea |
| Alpha.CorrectedDecember20 | scripts/alpha.py:85-89 | with the Leap Day deducted, as the comment at the Leap Day intends, December 20 is always Ignis of Week 13 of Frigida |
| Bravo.GeneratePerpetualCalendarDates | scripts/bravo.py:3-118 | no start is rejected; the walk fails, with OverflowError, exactly when it must step past an end of 9999-12-31 |
| Bravo.DemoOutput | scripts/bravo.py:121-122 | the demo run has 1462 records, opens with the December Solstice Year Day and continues with Solis of Week 1 of Alpha |
| Bravo.SeasonsOpenOnTime | scripts/bravo.py:92-101 | Beta, Gamma and Delta each open on Solis of their Week 1, on their opening days past the walk's first Year Day, wherever no year divisible by 400 is involved |
| Bravo.NewYear400Repeats | scripts/bravo.py:85-86 | in a year divisible by 400, January 1 and January 2 are both Terrae of Week 2 of Alpha |
| Bravo.CorrectedNewYear | scripts/bravo.py:44-49 | with the intended test, January 1 and January 2 are Terrae and Aquae of Week 2 of Alpha in every year |
| Charlie.GeneratePerpetualCalendarDates | scripts/charlie.py:3-89 | no start is rejected; the walk fails, with OverflowError, exactly when it must step past an end of 9999-12-31 |
| Charlie.DemoOutput | scripts/charlie.py:92-93 | the demo run has 1462 records, opens with the December Solstice Year Day and continues with Solis of Week 1 of Hunter |
| Charlie.SeasonsOpenOnTime | scripts/charlie.py:63-72 | Lion, Eagle and Water Bearer each open on Solis of their Week 1, on their opening days past the walk's first Year Day, wherever no year divisible by 400 is involved |
| Charlie.NewYear400Repeats | scripts/charlie.py:56-57 | in a year divisible by 400, January 1 and January 2 are both Terrae of Week 2 of Hunter |
| Charlie.CorrectedNewYear | scripts/charlie.py:45-46 | with the intended test, January 1 and January 2 are Terrae and Aquae of Week 2 of Hunter in every year |

## Left out

- Printing: the module-level code after each function is left out. It covers the
  demo dates (modelled only as `DemoRun`/`DemoOutput`) and the printing loop with its
  Solstice and Equinox markers. Markers are output only. The September-22 Delta marker
  at scripts/bravo.py:144-150 never fires where the cycle is kept, because Delta opens on
  September 21, so September 22 is Lunae.
- `std_date`, `strftime("%B %d, %Y")`, is not modelled: it is formatting only.
- `std_weekday` is modelled as the English day name that `strftime("%A")` gives in the
  C locale. Other locales are not modelled.
- Dead code is not modelled because nothing reads its values:
  - alpha.py's `perpetual_year`, `perpetual_week`, `perpetual_day_idx` and `days_since_anchor` state (scripts/alpha.py:29-32, 70);
  - bravo.py's `num_leap_days_passed` (scripts/bravo.py:61-64).
  Alpha.py's preamble (scripts/alpha.py:22-24) is modelled only for the ValueError it
  raises; the date it computes is never used.
- A start after the end returns an empty list, as the code does. No exception for that
  case is modelled, because the code raises none.
- Python's `datetime` internals are not modelled. The model has only the Gregorian rules,
  the 1..9999 year range and the OverflowError on stepping past 9999-12-31. Aware and
  naive datetimes and `timedelta` beyond one day are out of scope.
- The running time of the quadratic Leap-Day scan is not modelled. Only its result is.
- The weekday of consecutive records: no walk-level lemma is stated. `CalendarRecord`
  gives each record's weekday, and `Gregorian.WeekdaySucc` relates consecutive days.
- Bravo.NewYear400Repeats, Charlie.NewYear400Repeats: the repeat is proved for January 1
  and 2 of every year divisible by 400. Some other pairs also repeat, and those are
  covered generally by `CalendarWalk.QuirkCalendarRepeatsSlot`.
- Bravo.SeasonsOpenOnTime, Charlie.SeasonsOpenOnTime: stated only where the perpetual
  year touches no year divisible by 400. Otherwise the quirk moves the seasons.
- CalendarWalk.AnchoredCalendar: defined only for starts from 0001-12-22 on. An earlier
  start would be anchored at December 22 of year 0, which `datetime.date` cannot represent.

## Findings

| source | as written | input that shows it | evidently intended | confidence | as-written member | corrected member |
|---|---|---|---|---|---|---|
| scripts/bravo.py:85-86 | The Leap-Day test `m == 6 and d == 21 and (leap rule without 400) or y % 400 == 0` binds as `(…) or y % 400 == 0`. Every day of a year divisible by 400 is deducted, so the position stalls for the whole year. The stall carries over: counted from 2000-12-22, all ten days of December 22–31 are deducted, so January 1, 2001 lands at position 0 instead of 10 and 2001 runs ten slots behind until its Year Day | walk from 1999-12-21 to 2000-01-02: January 1 and January 2, 2000 both come out as Terrae of Week 2 of Alpha | deduct June 21 of a Gregorian leap year only; January 2, 2000 is Aquae | not executed | LeapScan.QuirkCountsNewYearsDay, PerpetualYear.QuirkNewYearPositions, PerpetualYear.QuirkCarriesIntoNextYear, CalendarWalk.QuirkNewYearRecords, Bravo.NewYear400Repeats | PerpetualYear.CorrectedPosition, CalendarWalk.CorrectedNewYearRecords, Bravo.CorrectedNewYear |
| scripts/charlie.py:56-57 | the same test with the same grouping | walk from 1999-12-21 to 2000-01-02: January 1 and January 2, 2000 both come out as Terrae of Week 2 of Hunter | deduct June 21 of a Gregorian leap year only; January 2, 2000 is Aquae | not executed | Charlie.NewYear400Repeats | Charlie.CorrectedNewYear |
| scripts/alpha.py:94 | `days_into_cycle` is the day count since the anchor modulo 364, with no Leap Day deducted. The comment at scripts/alpha.py:85-89 promises that the next day continues as if the Leap Day never happened | walk from 2027-12-21 to 2028-12-20: June 22, 2028 is two slots after June 20, and December 20, 2028 comes out as Solis of Week 1 of Florea | deduct the Leap Day: June 22 follows June 20 directly, and December 20 is Ignis of Week 13 of Frigida | not executed | PerpetualYear.UndeductedLeapDaySkipsSlot, CalendarWalk.UndeductedCalendarWrapsDecember20, Alpha.December20Wraps | PerpetualYear.CorrectedLeapDayKeepsCycle, Alpha.CorrectedDecember20 |
| scripts/bravo.py:20 | The anchor starts as 2024-12-22 in every run (also scripts/alpha.py:53 and scripts/charlie.py:21) and moves only after a Year Day. A walk that starts mid-year therefore counts from 2024-12-22 until its first Year Day. The cycle has 364 days and a common year 365, so the slot of such a day depends on where the walk starts | walk from 2026-01-01 to 2026-01-01: January 1, 2026 is Aquae of Week 2 (position 11); reached from 2025-12-21 it is Terrae of Week 2 (position 10) | count every day from the December 22 that opens its perpetual year, the fixed calendar the comments at scripts/bravo.py:15-19 describe | not executed | CalendarWalk.LateStartDrifts | CalendarWalk.AnchoredCalendarIsPerpetual, CalendarWalk.AnchoredNewYear |

The walk models each script as written, and each script's module also proves the
corrected behaviour under its `Corrected` settings. The model deducts through
`LeapDeduction`: `NoDeduction` and `PrecedenceQuirk` are the code as written, and
`LeapDaysOnly` is the corrected test.
