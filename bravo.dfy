/**
 * scripts/bravo.py: the perpetual calendar with the hemisphere-neutral season names
 * Alpha, Beta, Gamma and Delta, the December and June Solstice labels for the two
 * extra days, and the Leap-Day scan with its precedence quirk.
 */
module Bravo {
  import opened Wrappers
  import opened Gregorian
  import opened LeapScan
  import opened PerpetualCalendar
  import opened PerpetualYear
  import opened CalendarWalk

  const Seasons: seq<string> := ["Alpha", "Beta", "Gamma", "Delta"]

  const Settings := Config(LatinDays, Seasons, "Year Day (December Solstice)", "Leap Day (June Solstice)",
                           PrecedenceQuirk, false)

  /** The same calendar with only the Leap Day deducted, as the comments at the Leap Day intend. */
  const Corrected := Settings.(deduction := LeapDaysOnly)

  /**
   * `generate_perpetual_calendar_dates`: no start date is rejected, and the walk fails,
   * with OverflowError, exactly when it has to step past an end date of 9999-12-31.
   */
  method GeneratePerpetualCalendarDates(startDate: Date, endDate: Date) returns (r: Result<seq<Record>, Error>)
    requires Valid(startDate) && Valid(endDate)
    ensures r == Outcome(startDate, endDate, Settings)
    ensures r.Failure? <==> !Before(endDate, startDate) && endDate == MaxDate
    ensures r.Failure? ==> r.error == DateOverflow
  {
    r := GenerateCalendar(startDate, endDate, Settings);
  }

  /**
   * The script's own run from 2025-12-21 to 2029-12-21: 1462 records, opening on the
   * Year Day, followed by Solis of Week 1 of Alpha.
   */
  lemma DemoOutput()
    ensures var r := Calendar(DemoStart, DemoEnd, Settings);
      Outcome(DemoStart, DemoEnd, Settings) == Success(r) && |r| == 1462 &&
      r[0].extraDayType == Some("Year Day (December Solstice)") &&
      r[1].dayName == Some("Solis") && r[1].season == Some("Alpha") && r[1].weekInSeason == Some(1)
  {
    DemoRun(Settings);
    YearDayToYearDay(2025, 2029, Settings);
  }

  /**
   * Beta opens on March 22 in a leap year and March 23 otherwise, Gamma on June 22 and
   * Delta on September 21, each on Solis of its Week 1, wherever the quirk leaves the cycle alone.
   */
  lemma SeasonsOpenOnTime(startDate: Date, endDate: Date, i: nat, k: int)
    requires Valid(startDate) && Valid(endDate) && 1 <= k <= 3
    requires i < |Calendar(startDate, endDate, Settings)|
    ensures Ordinal(startDate) + i <= MaxOrdinal
    ensures var d, r := DayAfter(startDate, i), Calendar(startDate, endDate, Settings)[i];
      PassedYearDay(startDate, d) && d == OpeningDay(d.year, k) &&
      NoMultipleOf400(EpochStart(d).year, d.year) ==>
        r.dayName == Some("Solis") && r.season == Some(Seasons[k]) && r.weekInSeason == Some(1)
  {
    SeasonOpeningRecords(startDate, endDate, Settings, i, k);
  }

  /**
   * The quirk at the turn of a year divisible by 400, such as 2000: the walk from the
   * Year Day before it gives January 1 and January 2 both as Terrae of Week 2 of
   * Alpha; January 2 should be Aquae.
   */
  lemma NewYear400Repeats(y: int)
    requires MinYear < y <= MaxYear && y % 400 == 0
    ensures var r := Calendar(Date(y - 1, 12, 21), Date(y, 1, 2), Settings);
      |r| == 13 &&
      r[11].dayName == Some("Terrae") && r[12].dayName == Some("Terrae") &&
      r[11].season == Some("Alpha") && r[12].season == Some("Alpha") &&
      r[11].weekInSeason == Some(2) && r[12].weekInSeason == Some(2)
  {
    QuirkNewYearRecords(y - 1, Settings);
  }

  /**
   * With only the Leap Day deducted, January 1 and January 2 of such a year are Terrae
   * and Aquae of Week 2 of Alpha, as in every other year.
   */
  lemma CorrectedNewYear(y: int)
    requires MinYear < y <= MaxYear
    ensures var r := Calendar(Date(y - 1, 12, 21), Date(y, 1, 2), Corrected);
      |r| == 13 &&
      r[11].dayName == Some("Terrae") && r[12].dayName == Some("Aquae") &&
      r[11].season == Some("Alpha") && r[12].season == Some("Alpha") &&
      r[11].weekInSeason == Some(2) && r[12].weekInSeason == Some(2)
  {
    CorrectedNewYearRecords(y - 1, Corrected);
  }
}
