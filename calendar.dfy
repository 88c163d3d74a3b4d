/**
 * `generate_perpetual_calendar_dates(start_date, end_date)`, shared by the three scripts:
 * a walk over the Gregorian days from `start_date` to `end_date` that produces one record
 * per day. December 21 is the Year Day, June 21 of a leap year the Leap Day; every other
 * day sits in the 364-day cycle that starts at the current anchor, December 22, 2024 at
 * first and the day after the latest Year Day the walk has passed.
 *
 * The scripts differ in their season labels, in the labels of the two extra days, in how
 * Leap Days are deducted from the day count since the anchor, and in alpha.py's preamble,
 * which builds the first December 22 on or after `start_date` (in the next year when
 * `start_date` is past December 22 of its own year) and so fails for starts from
 * 9999-12-23 on, whose next year is 10000.
 * `Config` holds these differences; modules Alpha, Bravo and Charlie fix them.
 */
module PerpetualCalendar {
  import opened Wrappers
  import opened Gregorian
  import opened Cycle
  import opened LeapScan

  /** The first day of the first cycle: Season 1, Week 1, Solis. */
  const InitialAnchor := Date(2024, 12, 22)

  /** The day names of the perpetual week, the same in all three scripts. */
  const LatinDays: seq<string> := ["Solis", "Lunae", "Stellae", "Terrae", "Aquae", "Aeris", "Ignis"]

  /** The names `strftime("%A")` gives in the C locale, indexed by `date.weekday()`. */
  const WeekdayNames: seq<string> :=
    ["Monday", "Tuesday", "Wednesday", "Thursday", "Friday", "Saturday", "Sunday"]

  /** What distinguishes one script from another. */
  datatype Config = Config(
    dayNames: seq<string>,
    seasons: seq<string>,
    yearDayLabel: string,
    leapDayLabel: string,
    deduction: LeapDeduction,
    // alpha.py's preamble: ValueError for a start after December 22 of year 9999
    rejectsStartsAfterLastDecember22: bool)

  predicate ValidConfig(c: Config) {
    |c.dayNames| == DaysPerWeek && |c.seasons| == SeasonCount && c.yearDayLabel != c.leapDayLabel
  }

  /** The exceptions the walk can raise. */
  datatype Error =
    | DateOverflow    // OverflowError: the day after 9999-12-31
    | YearOutOfRange  // ValueError: a date in year 10000

  /** One entry of `perpetual_calendar_data`; `std_date` is not modelled. */
  datatype Record = Record(
    currentDate: Date,
    stdWeekday: string,
    dayName: Option<string>,
    season: Option<string>,
    weekInSeason: Option<int>,
    extraDay: bool,
    extraDayType: Option<string>)

  /** December 21: the Year Day, whatever the year. */
  predicate IsYearDay(d: Date) {
    d.month == 12 && d.day == 21
  }

  /** The days the scan deducts between `anchor` and `d`. */
  function Deducted(mode: LeapDeduction, anchor: Date, d: Date): nat
    requires Valid(anchor) && Valid(d)
  {
    if mode == NoDeduction then 0 else ScanCount(mode, anchor, d)
  }

  /**
   * `days_into_cycle`: the day count from the anchor less the deducted days, modulo 364.
   * Python's `%` with a positive divisor is never negative, so the position lies in the
   * cycle even for a date before the anchor.
   */
  function CycleDays(mode: LeapDeduction, anchor: Date, d: Date): (n: int)
    requires Valid(anchor) && Valid(d)
    ensures 0 <= n < CycleLength
  {
    (Ordinal(d) - Ordinal(anchor) - Deducted(mode, anchor, d)) % CycleLength
  }

  function ExtraRecord(d: Date, kind: string): Record
    requires 1 <= d.month <= 12
  {
    Record(d, WeekdayNames[Weekday(d)], None, None, None, true, Some(kind))
  }

  function RegularRecord(d: Date, s: Slot, cfg: Config): Record
    requires 1 <= d.month <= 12 && ValidSlot(s) && ValidConfig(cfg)
  {
    Record(d, WeekdayNames[Weekday(d)], Some(cfg.dayNames[s.dayIndex]),
           Some(cfg.seasons[s.seasonIndex]), Some(s.weekInSeason), false, None)
  }

  /** The record of day `d` when the anchor in effect is `anchor`. */
  function Classify(d: Date, anchor: Date, cfg: Config): Record
    requires Valid(d) && Valid(anchor) && ValidConfig(cfg)
  {
    if IsYearDay(d) then ExtraRecord(d, cfg.yearDayLabel)
    else if IsLeapDay(d) then ExtraRecord(d, cfg.leapDayLabel)
    else RegularRecord(d, Locate(CycleDays(cfg.deduction, anchor, d)), cfg)
  }

  /**
   * What a record says: it is extra exactly on a Year Day or a Leap Day, with the label
   * of that day, and then has no perpetual day, season or week; otherwise it has all
   * three, taken from the slot of the day's cycle position.
   */
  lemma ClassifyShape(d: Date, anchor: Date, cfg: Config)
    requires Valid(d) && Valid(anchor) && ValidConfig(cfg)
    ensures var r := Classify(d, anchor, cfg);
      && r.currentDate == d && r.stdWeekday == WeekdayNames[Weekday(d)]
      && (r.extraDay <==> IsYearDay(d) || IsLeapDay(d))
      && (r.extraDayType == Some(cfg.yearDayLabel) <==> IsYearDay(d))
      && (r.extraDayType == Some(cfg.leapDayLabel) <==> IsLeapDay(d))
      && (r.extraDayType.None? <==> !r.extraDay)
      && (r.extraDay <==> r.dayName.None? && r.season.None? && r.weekInSeason.None?)
      && (!r.extraDay <==> r.dayName.Some? && r.season.Some? && r.weekInSeason.Some?)
      && (!r.extraDay ==>
            r.dayName.value in cfg.dayNames && r.season.value in cfg.seasons &&
            1 <= r.weekInSeason.value <= WeeksPerSeason)
      && (!r.extraDay ==> r == RegularRecord(d, Locate(CycleDays(cfg.deduction, anchor, d)), cfg))
  {
  }

  /** The number of days from `start` to `end` inclusive; none when `start` is later. */
  function DayCount(start: Date, end: Date): nat
    requires 1 <= start.month <= 12 && 1 <= end.month <= 12
  {
    if Ordinal(start) <= Ordinal(end) then Ordinal(end) - Ordinal(start) + 1 else 0
  }

  /** The anchor in effect the day after `d`, when `anchor` is in effect on `d`. */
  function NextAnchor(d: Date, anchor: Date): (r: Date)
    requires Valid(d) && Valid(anchor)
    ensures Valid(r)
  {
    if IsYearDay(d) then Succ(d) else anchor
  }

  /** A day of the walk together with the anchor in effect on it. */
  datatype Step = Step(date: Date, anchor: Date)

  predicate ValidSteps(steps: seq<Step>) {
    forall i :: 0 <= i < |steps| ==> Valid(steps[i].date) && Valid(steps[i].anchor)
  }

  /**
   * The days from `current` to `end` with their anchors, when `anchor` is in effect on
   * `current`. On `MaxDate` the walk stops, since the scripts then fail.
   */
  function Steps(current: Date, end: Date, anchor: Date): (r: seq<Step>)
    requires Valid(current) && Valid(end) && Valid(anchor)
    ensures ValidSteps(r)
    decreases Ordinal(end) - Ordinal(current)
  {
    if Before(end, current) then []
    else if current == MaxDate then [Step(current, anchor)]
    else
      OrdinalOrder(end, current);
      OrdinalSucc(current);
      [Step(current, anchor)] + Steps(Succ(current), end, NextAnchor(current, anchor))
  }

  /** The record of each step. */
  function Records(steps: seq<Step>, cfg: Config): seq<Record>
    requires ValidSteps(steps) && ValidConfig(cfg)
  {
    seq(|steps|, i requires 0 <= i < |steps| => Classify(steps[i].date, steps[i].anchor, cfg))
  }

  /** The records of the days from `start` to `end`, as the walk builds them. */
  function Calendar(start: Date, end: Date, cfg: Config): seq<Record>
    requires Valid(start) && Valid(end) && ValidConfig(cfg)
  {
    Records(Steps(start, end, InitialAnchor), cfg)
  }

  /** One step of the walk: the record of `current` followed by the records from the next day. */
  lemma WalkStep(done: seq<Record>, current: Date, end: Date, anchor: Date, cfg: Config)
    requires Valid(current) && Valid(end) && Valid(anchor) && ValidConfig(cfg)
    requires !Before(end, current) && current != MaxDate
    ensures done + [Classify(current, anchor, cfg)] + Records(Steps(Succ(current), end, NextAnchor(current, anchor)), cfg) ==
            done + Records(Steps(current, end, anchor), cfg)
  {
    var rest := Steps(Succ(current), end, NextAnchor(current, anchor));
    assert Steps(current, end, anchor) == [Step(current, anchor)] + rest;
    RecordsCons(Step(current, anchor), rest, cfg);
  }

  lemma RecordsCons(s: Step, rest: seq<Step>, cfg: Config)
    requires Valid(s.date) && Valid(s.anchor) && ValidSteps(rest) && ValidConfig(cfg)
    ensures ValidSteps([s] + rest)
    ensures Records([s] + rest, cfg) == [Classify(s.date, s.anchor, cfg)] + Records(rest, cfg)
  {
    var steps := [s] + rest;
    assert ValidSteps(steps) by {
      assert forall i :: 0 <= i < |rest| ==> steps[i + 1] == rest[i];
    }
    var l, r := Records(steps, cfg), [Classify(s.date, s.anchor, cfg)] + Records(rest, cfg);
    forall i | 0 <= i < |l|
      ensures l[i] == r[i]
    {
      if i > 0 {
        assert steps[i] == rest[i - 1];
      }
    }
  }

  /** What a call of the script's function returns, or the exception it raises. */
  function Outcome(start: Date, end: Date, cfg: Config): Result<seq<Record>, Error>
    requires Valid(start) && Valid(end) && ValidConfig(cfg)
  {
    if cfg.rejectsStartsAfterLastDecember22 && start.year == MaxYear && Before(Date(start.year, 12, 22), start) then
      Failure(YearOutOfRange)
    else if !Before(end, start) && end == MaxDate then
      Failure(DateOverflow)
    else
      Success(Calendar(start, end, cfg))
  }

  /**
   * One pass of the walk's loop body: classifies `current` under `anchor` and returns
   * the anchor for the next day, moved to the day after a Year Day.
   */
  method ClassifyDay(current: Date, anchor: Date, cfg: Config) returns (rec: Record, nextAnchor: Date)
    requires Valid(current) && Valid(anchor) && ValidConfig(cfg)
    ensures rec == Classify(current, anchor, cfg)
    ensures nextAnchor == NextAnchor(current, anchor)
  {
    nextAnchor := anchor;
    var isLeapYearGregorian := IsLeapYear(current.year);
    var dayName: Option<string> := None;
    var season: Option<string> := None;
    var weekInSeason: Option<int> := None;
    var extraDay := false;
    var extraDayType: Option<string> := None;

    if current.month == 12 && current.day == 21 {
      extraDay := true;
      extraDayType := Some(cfg.yearDayLabel);
      nextAnchor := Succ(current);
    } else if isLeapYearGregorian && current.month == 6 && current.day == 21 {
      extraDay := true;
      extraDayType := Some(cfg.leapDayLabel);
    }

    if !extraDay {
      var totalDaysFromAnchor := Ordinal(current) - Ordinal(nextAnchor);
      var leapDaysToSubtract := 0;
      if cfg.deduction != NoDeduction {
        leapDaysToSubtract := CountScanHits(cfg.deduction, nextAnchor, current);
      }
      var daysIntoCycle := (totalDaysFromAnchor - leapDaysToSubtract) % 364;
      var dayIdx := daysIntoCycle % 7;
      dayName := Some(cfg.dayNames[dayIdx]);
      var weekNumOverall := daysIntoCycle / 7 + 1;
      var seasonIdx := (weekNumOverall - 1) / 13;
      season := Some(cfg.seasons[seasonIdx]);
      weekInSeason := Some((weekNumOverall - 1) % 13 + 1);
    }

    rec := Record(current, WeekdayNames[Weekday(current)], dayName, season, weekInSeason,
                  extraDay, extraDayType);
  }

  /** The walk itself: the outer `while current_date <= end_date` loop of the scripts. */
  method GenerateCalendar(start: Date, end: Date, cfg: Config) returns (result: Result<seq<Record>, Error>)
    requires Valid(start) && Valid(end) && ValidConfig(cfg)
    ensures result == Outcome(start, end, cfg)
  {
    if cfg.rejectsStartsAfterLastDecember22 {
      // The first December 22 on or after `start_date`; the value is never used.
      var perpetualYearStart := Date(start.year, 12, 22);
      if Before(perpetualYearStart, start) {
        if start.year + 1 > MaxYear {
          return Failure(YearOutOfRange);
        }
        perpetualYearStart := Date(start.year + 1, 12, 22);
      }
    }
    var data: seq<Record> := [];
    var current := start;
    var anchor := InitialAnchor;
    while !Before(end, current)
      invariant Valid(current) && Valid(anchor)
      invariant current == start || Before(start, current)
      invariant data + Records(Steps(current, end, anchor), cfg) == Calendar(start, end, cfg)
      decreases Ordinal(end) - Ordinal(current)
    {
      ghost var before, here := data, anchor;
      var rec;
      rec, anchor := ClassifyDay(current, anchor, cfg);
      data := data + [rec];
      if current == MaxDate {
        assert end == MaxDate && !Before(end, start) by {
          MaxDateLatest(end);
        }
        return Failure(DateOverflow);
      }
      OrdinalOrder(end, current);
      OrdinalSucc(current);
      WalkStep(before, current, end, here, cfg);
      current := Succ(current);
    }
    assert data == Calendar(start, end, cfg) by {
      assert Steps(current, end, anchor) == [];
    }
    assert end != MaxDate || Before(end, start) by {
      MaxDateLatest(current);
    }
    return Success(data);
  }
}
