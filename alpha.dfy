/**
 * scripts/alpha.py: the perpetual calendar with the temperate season names Florea,
 * Calida, Fructus and Frigida, the Winter and Summer Solstice labels for the two extra
 * days, no Leap-Day deduction at all, and a first check that rejects start dates after
 * December 22 of year 9999.
 */
module Alpha {
  import opened Wrappers
  import opened Gregorian
  import opened LeapScan
  import opened PerpetualCalendar
  import opened PerpetualYear
  import opened CalendarWalk

  const Seasons: seq<string> := ["Florea", "Calida", "Fructus", "Frigida"]

  const Settings := Config(LatinDays, Seasons, "Year Day (Winter Solstice)", "Leap Day (Summer Solstice)",
                           NoDeduction, true)

  /** The same calendar with the Leap Day deducted, as the comment at the Leap Day intends. */
  const Corrected := Settings.(deduction := LeapDaysOnly)

  /**
   * `generate_perpetual_calendar_dates`: a start date after 9999-12-22 is rejected with
   * ValueError before the walk begins; otherwise the walk fails, with OverflowError,
   * exactly when it has to step past an end date of 9999-12-31.
   */
  method GeneratePerpetualCalendarDates(startDate: Date, endDate: Date) returns (r: Result<seq<Record>, Error>)
    requires Valid(startDate) && Valid(endDate)
    ensures r == Outcome(startDate, endDate, Settings)
    ensures r == Failure(YearOutOfRange) <==> startDate.year == MaxYear && Before(Date(MaxYear, 12, 22), startDate)
    ensures r == Failure(DateOverflow) <==>
      !(startDate.year == MaxYear && Before(Date(MaxYear, 12, 22), startDate)) &&
      !Before(endDate, startDate) && endDate == MaxDate
  {
    r := GenerateCalendar(startDate, endDate, Settings);
  }

  /**
   * The script's own run from 2025-12-21 to 2029-12-21: 1462 records, opening on the
   * Year Day, followed by Solis of Week 1 of Florea.
   */
  lemma DemoOutput()
    ensures var r := Calendar(DemoStart, DemoEnd, Settings);
      Outcome(DemoStart, DemoEnd, Settings) == Success(r) && |r| == 1462 &&
      r[0].extraDayType == Some("Year Day (Winter Solstice)") &&
      r[1].dayName == Some("Solis") && r[1].season == Some("Florea") && r[1].weekInSeason == Some(1)
  {
    DemoRun(Settings);
    YearDayToYearDay(2025, 2029, Settings);
  }

  /**
   * With nothing deducted, December 20 of a leap year, past the walk's first Year Day,
   * comes out as Solis of Week 1 of Florea, the slot that opens the next perpetual year.
   */
  lemma December20Wraps(startDate: Date, endDate: Date, i: nat)
    requires Valid(startDate) && Valid(endDate)
    requires i < |Calendar(startDate, endDate, Settings)|
    ensures Ordinal(startDate) + i <= MaxOrdinal
    ensures var d, r := DayAfter(startDate, i), Calendar(startDate, endDate, Settings)[i];
      d.month == 12 && d.day == 20 && IsLeapYear(d.year) && PassedYearDay(startDate, d) ==>
        r.dayName == Some("Solis") && r.season == Some("Florea") && r.weekInSeason == Some(1)
  {
    UndeductedCalendarWrapsDecember20(startDate, endDate, Settings, i);
  }

  /**
   * With the Leap Day deducted, December 20 past the walk's first Year Day closes the
   * perpetual year as Ignis of Week 13 of Frigida, leap year or not.
   */
  lemma CorrectedDecember20(startDate: Date, endDate: Date, i: nat)
    requires Valid(startDate) && Valid(endDate)
    requires i < |Calendar(startDate, endDate, Corrected)|
    ensures Ordinal(startDate) + i <= MaxOrdinal
    ensures var d, r := DayAfter(startDate, i), Calendar(startDate, endDate, Corrected)[i];
      PassedYearDay(startDate, d) && d.month == 12 && d.day == 20 ==>
        r.dayName == Some("Ignis") && r.season == Some("Frigida") && r.weekInSeason == Some(13)
  {
    YearEndRecord(startDate, endDate, Corrected, i);
  }
}
