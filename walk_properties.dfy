/**
 * What the walk produces: one record per day from `start_date` to `end_date`, the
 * `i`-th for the date `i` days after `start_date`, classified under the anchor set by
 * the latest Year Day the walk has passed (the initial anchor before the first one).
 */
module CalendarWalk {
  import opened Wrappers
  import opened Gregorian
  import opened Cycle
  import opened LeapScan
  import opened PerpetualCalendar
  import opened PerpetualYear

  /** The anchor in effect `i` days after `c` when the walk has anchor `a` on `c`. */
  function AnchorAfter(c: Date, a: Date, i: nat): (r: Date)
    requires Valid(c) && Valid(a) && Ordinal(c) + i <= MaxOrdinal
    ensures Valid(r)
    decreases i
  {
    if i == 0 then a
    else
      DayAfterShift(c, i - 1);
      AnchorAfter(Succ(c), NextAnchor(c, a), i - 1)
  }

  /** The anchor moves on exactly after a Year Day. */
  lemma {:induction false} AnchorStep(c: Date, a: Date, i: nat)
    requires Valid(c) && Valid(a) && Ordinal(c) + i + 1 <= MaxOrdinal
    ensures AnchorAfter(c, a, i + 1) == NextAnchor(DayAfter(c, i), AnchorAfter(c, a, i))
    decreases i
  {
    DayAfterShift(c, i);
    if i > 0 {
      AnchorStep(Succ(c), NextAnchor(c, a), i - 1);
      DayAfterShift(c, i - 1);
    }
  }

  /** Until the walk meets a Year Day, the initial anchor stays in effect. */
  lemma {:induction false} AnchorWithoutYearDay(c: Date, a: Date, i: nat)
    requires Valid(c) && Valid(a) && Ordinal(c) + i <= MaxOrdinal
    requires forall j :: 0 <= j < i ==> !IsYearDay(DayAfter(c, j))
    ensures AnchorAfter(c, a, i) == a
  {
    if i > 0 {
      AnchorWithoutYearDay(c, a, i - 1);
      AnchorStep(c, a, i - 1);
    }
  }

  /** After a Year Day, the anchor is the day after the latest Year Day the walk passed. */
  lemma {:induction false} AnchorAfterLatestYearDay(c: Date, a: Date, j: nat, i: nat)
    requires Valid(c) && Valid(a) && j < i && Ordinal(c) + i <= MaxOrdinal
    requires IsYearDay(DayAfter(c, j))
    requires forall k :: j < k < i ==> !IsYearDay(DayAfter(c, k))
    ensures AnchorAfter(c, a, i) == DayAfter(c, j + 1)
    decreases i
  {
    AnchorStep(c, a, i - 1);
    if i > j + 1 {
      AnchorAfterLatestYearDay(c, a, j, i - 1);
    }
  }

  /** The walk takes one step per day from `c` to `e`. */
  lemma {:induction false} StepsLength(c: Date, e: Date, a: Date)
    requires Valid(c) && Valid(e) && Valid(a)
    ensures |Steps(c, e, a)| == DayCount(c, e)
    decreases Ordinal(e) - Ordinal(c)
  {
    OrdinalOrder(e, c);
    if !Before(e, c) && c != MaxDate {
      OrdinalSucc(c);
      OrdinalOrder(e, Succ(c));
      StepsLength(Succ(c), e, NextAnchor(c, a));
    } else if !Before(e, c) {
      MaxDateLatest(e);
    }
  }

  /** Past its first day, a walk that has not reached `MaxDate` is the walk from the day after. */
  lemma StepsTail(c: Date, e: Date, a: Date, i: nat)
    requires Valid(c) && Valid(e) && Valid(a) && c != MaxDate
    requires 0 < i < |Steps(c, e, a)|
    ensures Valid(Succ(c)) && Ordinal(Succ(c)) == Ordinal(c) + 1
    ensures |Steps(c, e, a)| == |Steps(Succ(c), e, NextAnchor(c, a))| + 1
    ensures Steps(c, e, a)[i] == Steps(Succ(c), e, NextAnchor(c, a))[i - 1]
  {
    OrdinalSucc(c);
    var rest := Steps(Succ(c), e, NextAnchor(c, a));
    assert Steps(c, e, a) == [Step(c, a)] + rest;
    assert ([Step(c, a)] + rest)[i] == rest[i - 1];
  }

  /** The `i`-th step of the walk is the date `i` days after `c`, with the anchor reached there. */
  lemma {:induction false} StepsEntry(c: Date, e: Date, a: Date, i: nat)
    requires Valid(c) && Valid(e) && Valid(a)
    requires i < |Steps(c, e, a)|
    ensures Ordinal(c) + i <= Ordinal(e) && Ordinal(e) <= MaxOrdinal
    ensures Steps(c, e, a)[i] == Step(DayAfter(c, i), AnchorAfter(c, a, i))
    decreases i
  {
    assert Ordinal(c) + i <= Ordinal(e) <= MaxOrdinal && !Before(e, c) by {
      StepsLength(c, e, a);
      OrdinalBounds(e);
      OrdinalOrder(e, c);
    }
    if i > 0 {
      assert c != MaxDate by {
        OrdinalBounds(c);
      }
      var c', a' := Succ(c), NextAnchor(c, a);
      assert Steps(c, e, a)[i] == Step(DayAfter(c, i), AnchorAfter(c, a, i)) by {
        StepsTail(c, e, a, i);
        StepsEntry(c', e, a', i - 1);
        DayAfterShift(c, i - 1);
      }
    }
  }

  /**
   * The `i`-th record of the calendar is the classification of the date `i` days after
   * `start` under the anchor the walk has reached on it; `ClassifyShape` says what such a
   * record holds.
   */
  lemma CalendarEntry(start: Date, end: Date, cfg: Config, i: nat)
    requires Valid(start) && Valid(end) && ValidConfig(cfg)
    requires i < |Calendar(start, end, cfg)|
    ensures Ordinal(start) + i <= MaxOrdinal
    ensures Calendar(start, end, cfg)[i] == Classify(DayAfter(start, i), AnchorAfter(start, InitialAnchor, i), cfg)
  {
    StepsEntry(start, end, InitialAnchor, i);
  }

  /**
   * The calendar from `start` to `end`: one record per day, the `i`-th for the date `i`
   * days after `start`, so that the dates are consecutive and strictly ascending.
   */
  lemma CalendarDates(start: Date, end: Date, cfg: Config)
    requires Valid(start) && Valid(end) && ValidConfig(cfg)
    ensures |Calendar(start, end, cfg)| == DayCount(start, end)
    ensures Calendar(start, end, cfg) == [] <==> Before(end, start)
    ensures forall i :: 0 <= i < |Calendar(start, end, cfg)| ==>
      Ordinal(start) + i <= MaxOrdinal && Calendar(start, end, cfg)[i].currentDate == DayAfter(start, i)
    ensures forall i, j :: 0 <= i < j < |Calendar(start, end, cfg)| ==>
      Before(Calendar(start, end, cfg)[i].currentDate, Calendar(start, end, cfg)[j].currentDate)
  {
    var r := Calendar(start, end, cfg);
    StepsLength(start, end, InitialAnchor);
    OrdinalOrder(end, start);
    OrdinalBounds(end);
    forall i | 0 <= i < |r|
      ensures Ordinal(start) + i <= MaxOrdinal && r[i].currentDate == DayAfter(start, i)
    {
      CalendarEntry(start, end, cfg, i);
      ClassifyShape(DayAfter(start, i), AnchorAfter(start, InitialAnchor, i), cfg);
    }
    forall i, j | 0 <= i < j < |r|
      ensures Before(r[i].currentDate, r[j].currentDate)
    {
      OrdinalOrder(r[i].currentDate, r[j].currentDate);
    }
  }

  /** The first and the last record are those of `start` and `end`. */
  lemma CalendarEnds(start: Date, end: Date, cfg: Config)
    requires Valid(start) && Valid(end) && ValidConfig(cfg) && !Before(end, start)
    ensures |Calendar(start, end, cfg)| > 0
    ensures Calendar(start, end, cfg)[0].currentDate == start
    ensures Calendar(start, end, cfg)[|Calendar(start, end, cfg)| - 1].currentDate == end
  {
    var steps := Steps(start, end, InitialAnchor);
    StepsLength(start, end, InitialAnchor);
    OrdinalOrder(end, start);
    var n := DayCount(start, end);
    StepsEntry(start, end, InitialAnchor, n - 1);
    OrdinalInjective(DayAfter(start, n - 1), end);
    RecordDate(steps, cfg, 0);
    RecordDate(steps, cfg, n - 1);
  }

  /** Each record carries the date of its step. */
  lemma RecordDate(steps: seq<Step>, cfg: Config, i: nat)
    requires ValidSteps(steps) && ValidConfig(cfg) && i < |steps|
    ensures Records(steps, cfg)[i].currentDate == steps[i].date
  {
    ClassifyShape(steps[i].date, steps[i].anchor, cfg);
  }

  /** December 22 classified under itself as anchor: Season 1, Week 1, the first day name. */
  lemma AnchorDayOpensCycle(d: Date, cfg: Config)
    requires Valid(d) && d.month == 12 && d.day == 22 && ValidConfig(cfg)
    ensures var r := Classify(d, d, cfg);
      !r.extraDay && r.dayName == Some(cfg.dayNames[0]) &&
      r.season == Some(cfg.seasons[0]) && r.weekInSeason == Some(1)
  {
    assert Deducted(cfg.deduction, d, d) == 0 by {
      OrdinalOrder(d, d);
    }
    assert CycleDays(cfg.deduction, d, d) == 0;
    assert Classify(d, d, cfg) == RegularRecord(d, Slot(0, 1, 0, 1), cfg) by {
      EndSlots();
    }
  }

  /**
   * The day after a Year Day of the walk opens a new year of the perpetual calendar:
   * it is a regular day, the first day name of the first week of the first season.
   */
  lemma YearDayStartsCycle(start: Date, end: Date, cfg: Config, i: nat)
    requires Valid(start) && Valid(end) && ValidConfig(cfg)
    requires i + 1 < |Calendar(start, end, cfg)| && IsYearDay(Calendar(start, end, cfg)[i].currentDate)
    ensures var r := Calendar(start, end, cfg)[i + 1];
      !r.extraDay && r.dayName == Some(cfg.dayNames[0]) &&
      r.season == Some(cfg.seasons[0]) && r.weekInSeason == Some(1)
  {
    CalendarEntry(start, end, cfg, i);
    CalendarEntry(start, end, cfg, i + 1);
    var d := DayAfter(start, i);
    ClassifyShape(d, AnchorAfter(start, InitialAnchor, i), cfg);
    AnchorStep(start, InitialAnchor, i);
    AnchorDayOpensCycle(DayAfter(start, i + 1), cfg);
  }

  /** No Year Day lies strictly between the Year Day preceding `d` and `d`. */
  lemma NoYearDayBefore(x: Date, d: Date)
    requires Valid(x) && Valid(d) && Before(x, d)
    requires !Valid(PrecedingYearDay(d)) || Before(PrecedingYearDay(d), x)
    ensures !IsYearDay(x)
  {
  }

  /**
   * The anchor in closed form: once the walk from `start` has passed the Year Day before
   * a date, the anchor on that date is the start of its perpetual year; until then it
   * is the initial anchor `a`.
   */
  lemma AnchorClosedForm(start: Date, a: Date, i: nat)
    requires Valid(start) && Valid(a) && Ordinal(start) + i <= MaxOrdinal
    ensures var d := DayAfter(start, i);
      var y := PrecedingYearDay(d);
      if Valid(y) && !Before(y, start) then AnchorAfter(start, a, i) == EpochStart(d)
      else AnchorAfter(start, a, i) == a
  {
    var d := DayAfter(start, i);
    var y := PrecedingYearDay(d);
    if Valid(y) && !Before(y, start) {
      assert Before(y, d);
      OrdinalOrder(y, d);
      OrdinalOrder(y, start);
      var j := Ordinal(y) - Ordinal(start);
      OrdinalInjective(DayAfter(start, j), y);
      forall k | j < k < i
        ensures !IsYearDay(DayAfter(start, k))
      {
        var x := DayAfter(start, k);
        OrdinalOrder(y, x);
        OrdinalOrder(x, d);
        NoYearDayBefore(x, d);
      }
      AnchorAfterLatestYearDay(start, a, j, i);
    } else {
      forall k | 0 <= k < i
        ensures !IsYearDay(DayAfter(start, k))
      {
        var x := DayAfter(start, k);
        OrdinalOrder(start, x);
        OrdinalOrder(x, d);
        NoYearDayBefore(x, d);
      }
      AnchorWithoutYearDay(start, a, i);
    }
  }

  /** Whether the walk from `start` has passed the Year Day before `d`. */
  predicate PassedYearDay(start: Date, d: Date) {
    Valid(PrecedingYearDay(d)) && !Before(PrecedingYearDay(d), start)
  }

  /**
   * Once the walk has passed the Year Day before a regular day, the day's record comes
   * from its position counted from the start of its perpetual year, whatever the start
   * of the walk.
   */
  lemma CalendarPosition(start: Date, end: Date, cfg: Config, i: nat)
    requires Valid(start) && Valid(end) && ValidConfig(cfg)
    requires i < |Calendar(start, end, cfg)|
    ensures Ordinal(start) + i <= MaxOrdinal
    ensures var d := DayAfter(start, i);
      PassedYearDay(start, d) && !IsYearDay(d) && !IsLeapDay(d) ==>
        Valid(EpochStart(d)) &&
        Calendar(start, end, cfg)[i] == RegularRecord(d, Locate(CycleDays(cfg.deduction, EpochStart(d), d)), cfg)
  {
    CalendarEntry(start, end, cfg, i);
    AnchorClosedForm(start, InitialAnchor, i);
  }

  /**
   * With the corrected scan, every regular day after the walk's first Year Day gets the
   * slot of its intended position: the calendar no longer depends on where the walk began.
   */
  lemma CorrectedCalendarIsPerpetual(start: Date, end: Date, cfg: Config, i: nat)
    requires Valid(start) && Valid(end) && ValidConfig(cfg) && cfg.deduction == LeapDaysOnly
    requires i < |Calendar(start, end, cfg)|
    ensures Ordinal(start) + i <= MaxOrdinal
    ensures var d := DayAfter(start, i);
      PassedYearDay(start, d) && !IsYearDay(d) && !IsLeapDay(d) ==>
        Valid(EpochStart(d)) &&
        Calendar(start, end, cfg)[i] == RegularRecord(d, Locate(IntendedPosition(d)), cfg)
  {
    CalendarPosition(start, end, cfg, i);
    var d := DayAfter(start, i);
    if PassedYearDay(start, d) && !IsYearDay(d) && !IsLeapDay(d) {
      CorrectedPosition(d);
    }
  }

  /**
   * A walk that opens mid-year counts from 2024-12-22 until its first Year Day, and the
   * 364-day cycle falls one day behind the calendar in every 365-day year: walked alone,
   * January 1, 2026 is Aquae of Week 2 (position 11), where its intended position, and
   * its slot in a walk from the Year Day before it, is 10.
   */
  lemma LateStartDrifts(cfg: Config)
    requires ValidConfig(cfg)
    ensures var d := Date(2026, 1, 1);
      Valid(d) && !PassedYearDay(d, d) && Valid(EpochStart(d)) && IntendedPosition(d) == 10 &&
      Outcome(d, d, cfg) == Success([RegularRecord(d, Locate(11), cfg)])
  {
    var d := Date(2026, 1, 1);
    NewYearIntendedPositions(2025);
    DeductedBefore2026(cfg.deduction);
    assert Steps(d, d, InitialAnchor) == [Step(d, InitialAnchor)];
    assert Calendar(d, d, cfg) == [Classify(d, InitialAnchor, cfg)];
  }

  /** Counted from 2024-12-22, January 1, 2026 is 375 days on, none of them deducted. */
  lemma DeductedBefore2026(mode: LeapDeduction)
    ensures var a, d := InitialAnchor, Date(2026, 1, 1);
      Ordinal(d) - Ordinal(a) == 375 && Deducted(mode, a, d) == 0
  {
    var a, dec21, dec22, d := InitialAnchor, Date(2025, 12, 21), Date(2025, 12, 22), Date(2026, 1, 1);
    EpochOffsets(2024);
    NewYearOrdinal(2025);
    assert Succ(dec21) == dec22;
    OrdinalSucc(dec21);
    LeapDaysSinceEpochStart(2024, dec21);
    ScanSnoc(LeapDaysOnly, a, dec21);
    LeapDaysSinceEpochStart(2025, d);
    ScanSplit(LeapDaysOnly, a, dec22, d);
    assert NoMultipleOf400(2026, 2026) && NoMultipleOf400(2025, 2026) && NoMultipleOf400(2024, 2026);
    QuirkCountsLeapDays(a, d);
  }

  /**
   * The calendar the anchor comments describe: the walk anchored at the December 22 that
   * opens the perpetual year of `start`, wherever in that year it begins.
   */
  function AnchoredCalendar(start: Date, end: Date, cfg: Config): seq<Record>
    requires Valid(start) && Valid(end) && ValidConfig(cfg) && Valid(EpochStart(start))
  {
    Records(Steps(start, end, EpochStart(start)), cfg)
  }

  /**
   * With the intended scan, the anchored walk gives every regular day the slot of its
   * intended position, from its first record on: the calendar no longer depends on where
   * the walk starts.
   */
  lemma AnchoredCalendarIsPerpetual(start: Date, end: Date, cfg: Config, i: nat)
    requires Valid(start) && Valid(end) && ValidConfig(cfg) && Valid(EpochStart(start))
    requires cfg.deduction == LeapDaysOnly && i < |AnchoredCalendar(start, end, cfg)|
    ensures Ordinal(start) + i <= MaxOrdinal
    ensures var d := DayAfter(start, i);
      !IsYearDay(d) && !IsLeapDay(d) ==>
        Valid(EpochStart(d)) &&
        AnchoredCalendar(start, end, cfg)[i] == RegularRecord(d, Locate(IntendedPosition(d)), cfg)
  {
    var a := EpochStart(start);
    StepsEntry(start, end, a, i);
    var d := DayAfter(start, i);
    AnchorClosedForm(start, a, i);
    if !IsYearDay(d) && !IsLeapDay(d) {
      if !PassedYearDay(start, d) {
        OrdinalOrder(d, start);
        EpochStartOfWalk(start, d);
      }
      CorrectedPosition(d);
    }
  }

  /** Walked alone under the anchored walk and the intended scan, January 1, 2026 is Terrae of Week 2. */
  lemma AnchoredNewYear(cfg: Config)
    requires ValidConfig(cfg) && cfg.deduction == LeapDaysOnly
    ensures var d := Date(2026, 1, 1);
      Valid(EpochStart(d)) && AnchoredCalendar(d, d, cfg) == [RegularRecord(d, Locate(10), cfg)]
  {
    var d := Date(2026, 1, 1);
    NewYearIntendedPositions(2025);
    assert Steps(d, d, EpochStart(d)) == [Step(d, EpochStart(d))];
    AnchoredCalendarIsPerpetual(d, d, cfg, 0);
    OrdinalInjective(DayAfter(d, 0), d);
  }

  /** Until the walk passes the Year Day before `d`, `d` lies in the perpetual year of the walk's start. */
  lemma EpochStartOfWalk(start: Date, d: Date)
    requires Valid(start) && Valid(d) && !Before(d, start) && !PassedYearDay(start, d)
    ensures EpochStart(start) == EpochStart(d)
  {
  }

  /**
   * The scripts' quirky scan gives the same calendar as the corrected one on every day
   * whose perpetual year touches no year divisible by 400.
   */
  lemma QuirkCalendarIsPerpetual(start: Date, end: Date, cfg: Config, i: nat)
    requires Valid(start) && Valid(end) && ValidConfig(cfg) && cfg.deduction == PrecedenceQuirk
    requires i < |Calendar(start, end, cfg)|
    ensures Ordinal(start) + i <= MaxOrdinal
    ensures var d := DayAfter(start, i);
      PassedYearDay(start, d) && !IsYearDay(d) && !IsLeapDay(d) &&
      NoMultipleOf400(EpochStart(d).year, d.year) ==>
        Valid(EpochStart(d)) &&
        Calendar(start, end, cfg)[i] == RegularRecord(d, Locate(IntendedPosition(d)), cfg)
  {
    CalendarPosition(start, end, cfg, i);
    var d := DayAfter(start, i);
    if PassedYearDay(start, d) && !IsYearDay(d) && !IsLeapDay(d) && NoMultipleOf400(EpochStart(d).year, d.year) {
      QuirkMatchesCorrected(EpochStart(d), d);
      CorrectedPosition(d);
    }
  }

  /**
   * In a year divisible by 400 the scripts' quirky scan stalls: two consecutive regular
   * days of the walk, past its first Year Day, get the same day name, season and week.
   */
  lemma QuirkCalendarRepeatsSlot(start: Date, end: Date, cfg: Config, i: nat)
    requires Valid(start) && Valid(end) && ValidConfig(cfg) && cfg.deduction == PrecedenceQuirk
    requires i + 1 < |Calendar(start, end, cfg)|
    ensures Ordinal(start) + i + 1 <= MaxOrdinal
    ensures var d := DayAfter(start, i);
      d.year % 400 == 0 && PassedYearDay(start, d) && !IsYearDay(d) && !IsLeapDay(d) &&
      !IsYearDay(Succ(d)) && !IsLeapDay(Succ(d)) ==>
        var r, r' := Calendar(start, end, cfg)[i], Calendar(start, end, cfg)[i + 1];
        r.dayName == r'.dayName && r.season == r'.season && r.weekInSeason == r'.weekInSeason
  {
    assert Ordinal(start) + i + 1 <= MaxOrdinal by {
      StepsLength(start, end, InitialAnchor);
      OrdinalBounds(end);
    }
    var d := DayAfter(start, i);
    if d.year % 400 == 0 && PassedYearDay(start, d) && !IsYearDay(d) && !IsLeapDay(d) &&
       !IsYearDay(Succ(d)) && !IsLeapDay(Succ(d)) {
      RepeatedSlot(start, end, cfg, i);
    }
  }

  /** The two records behind `QuirkCalendarRepeatsSlot`. */
  lemma RepeatedSlot(start: Date, end: Date, cfg: Config, i: nat)
    requires Valid(start) && Valid(end) && ValidConfig(cfg) && cfg.deduction == PrecedenceQuirk
    requires i + 1 < |Calendar(start, end, cfg)| && Ordinal(start) + i + 1 <= MaxOrdinal
    requires var d := DayAfter(start, i);
      d.year % 400 == 0 && PassedYearDay(start, d) && !IsYearDay(d) && !IsLeapDay(d) &&
      d != MaxDate && !IsYearDay(Succ(d)) && !IsLeapDay(Succ(d))
    ensures var r, r' := Calendar(start, end, cfg)[i], Calendar(start, end, cfg)[i + 1];
      r.dayName == r'.dayName && r.season == r'.season && r.weekInSeason == r'.weekInSeason
  {
    var d := DayAfter(start, i);
    var r, e := Calendar(start, end, cfg), EpochStart(d);
    assert DayAfter(start, i + 1) == Succ(d) by {
      DayAfterNext(start, i);
    }
    assert EpochStart(Succ(d)) == e && PassedYearDay(start, Succ(d)) by {
      EpochStartSucc(d);
    }
    assert r[i] == RegularRecord(d, Locate(CycleDays(cfg.deduction, e, d)), cfg) by {
      CalendarPosition(start, end, cfg, i);
    }
    assert r[i + 1] == RegularRecord(Succ(d), Locate(CycleDays(cfg.deduction, e, Succ(d))), cfg) by {
      CalendarPosition(start, end, cfg, i + 1);
    }
    QuirkRepeatsSlot(d, cfg);
  }

  /**
   * Without a deduction, December 20 before a leap year's Year Day wraps around to the
   * slot of the perpetual year's first day: the first day name of Week 1 of Season 1.
   */
  lemma UndeductedCalendarWrapsDecember20(start: Date, end: Date, cfg: Config, i: nat)
    requires Valid(start) && Valid(end) && ValidConfig(cfg) && cfg.deduction == NoDeduction
    requires i < |Calendar(start, end, cfg)|
    ensures Ordinal(start) + i <= MaxOrdinal
    ensures var d := DayAfter(start, i);
      d.month == 12 && d.day == 20 && IsLeapYear(d.year) && PassedYearDay(start, d) ==>
        Calendar(start, end, cfg)[i] == RegularRecord(d, Slot(0, 1, 0, 1), cfg)
  {
    CalendarEntry(start, end, cfg, i);
    var d := DayAfter(start, i);
    if d.month == 12 && d.day == 20 && IsLeapYear(d.year) && PassedYearDay(start, d) {
      var e := Date(d.year - 1, 12, 22);
      assert EpochStart(d) == e && Valid(e);
      assert Calendar(start, end, cfg)[i] == RegularRecord(d, Locate(CycleDays(NoDeduction, e, d)), cfg) by {
        CalendarPosition(start, end, cfg, i);
      }
      assert CycleDays(NoDeduction, e, d) == 0 by {
        UndeductedDecember20Wraps(d.year - 1);
      }
      assert Locate(0) == Slot(0, 1, 0, 1) by {
        EndSlots();
      }
    }
  }

  /**
   * Whether the walk's scan gives the intended positions around `d`: the corrected scan
   * always, the scripts' quirky scan when no year of `d`'s perpetual year is divisible
   * by 400.
   */
  predicate KeepsCycle(cfg: Config, d: Date) {
    cfg.deduction == LeapDaysOnly ||
    (cfg.deduction == PrecedenceQuirk && NoMultipleOf400(EpochStart(d).year, d.year))
  }

  /**
   * Where the scan keeps the cycle, each season past the walk's first Year Day opens on
   * its opening day: the record is the first day name of the season's Week 1.
   */
  lemma SeasonOpeningRecords(start: Date, end: Date, cfg: Config, i: nat, k: int)
    requires Valid(start) && Valid(end) && ValidConfig(cfg) && 1 <= k <= 3
    requires i < |Calendar(start, end, cfg)|
    ensures Ordinal(start) + i <= MaxOrdinal
    ensures var d := DayAfter(start, i);
      PassedYearDay(start, d) && d == OpeningDay(d.year, k) && KeepsCycle(cfg, d) ==>
        Calendar(start, end, cfg)[i] == RegularRecord(d, Slot(0, 13 * k + 1, k, 1), cfg)
  {
    CalendarEntry(start, end, cfg, i);
    var d := DayAfter(start, i);
    if PassedYearDay(start, d) && d == OpeningDay(d.year, k) && KeepsCycle(cfg, d) {
      SeasonOpens(d.year, k);
      if cfg.deduction == LeapDaysOnly {
        CorrectedCalendarIsPerpetual(start, end, cfg, i);
      } else {
        QuirkCalendarIsPerpetual(start, end, cfg, i);
      }
    }
  }

  /**
   * Where the scan keeps the cycle, December 20 past the walk's first Year Day closes
   * the perpetual year: the last day name of the last week of the last season.
   */
  lemma YearEndRecord(start: Date, end: Date, cfg: Config, i: nat)
    requires Valid(start) && Valid(end) && ValidConfig(cfg)
    requires i < |Calendar(start, end, cfg)|
    ensures Ordinal(start) + i <= MaxOrdinal
    ensures var d := DayAfter(start, i);
      PassedYearDay(start, d) && d.month == 12 && d.day == 20 && KeepsCycle(cfg, d) ==>
        Calendar(start, end, cfg)[i] == RegularRecord(d, Slot(6, 52, 3, 13), cfg)
  {
    CalendarEntry(start, end, cfg, i);
    var d := DayAfter(start, i);
    if PassedYearDay(start, d) && d.month == 12 && d.day == 20 && KeepsCycle(cfg, d) {
      LastRegularDay(d.year);
      if cfg.deduction == LeapDaysOnly {
        CorrectedCalendarIsPerpetual(start, end, cfg, i);
      } else {
        QuirkCalendarIsPerpetual(start, end, cfg, i);
      }
    }
  }

  /**
   * The quirk in a walk: from the Year Day of a year `y` followed by one divisible by
   * 400, January 1 and January 2 of `y + 1` get the same slot, the fourth day name of
   * Week 2 of the first season, where January 2 should be the fifth.
   */
  lemma QuirkNewYearRecords(y: int, cfg: Config)
    requires MinYear <= y < MaxYear && (y + 1) % 400 == 0 && ValidConfig(cfg) && cfg.deduction == PrecedenceQuirk
    ensures var start, end := Date(y, 12, 21), Date(y + 1, 1, 2);
      Valid(start) && Valid(end) &&
      var r := Calendar(start, end, cfg);
      |r| == 13 &&
      r[11] == RegularRecord(Date(y + 1, 1, 1), Slot(3, 2, 0, 2), cfg) &&
      r[12] == RegularRecord(Date(y + 1, 1, 2), Slot(3, 2, 0, 2), cfg)
  {
    var start, jan1, jan2 := Date(y, 12, 21), Date(y + 1, 1, 1), Date(y + 1, 1, 2);
    assert Ordinal(start) + 11 == Ordinal(jan1) && Ordinal(start) + 12 == Ordinal(jan2) by {
      NewYearOrdinal(y);
    }
    assert Ordinal(jan2) <= MaxOrdinal by {
      OrdinalBounds(jan2);
    }
    assert |Calendar(start, jan2, cfg)| == 13 by {
      StepsLength(start, jan2, InitialAnchor);
    }
    assert Locate(10) == Slot(3, 2, 0, 2);
    assert EpochStart(jan1) == Date(y, 12, 22) && EpochStart(jan2) == Date(y, 12, 22);
    assert CycleDays(cfg.deduction, Date(y, 12, 22), jan1) == 10 &&
           CycleDays(cfg.deduction, Date(y, 12, 22), jan2) == 10 by {
      QuirkNewYearPositions(y);
    }
    PositionedDayRecord(start, jan2, cfg, 11, jan1);
    PositionedDayRecord(start, jan2, cfg, 12, jan2);
  }

  /** `CalendarPosition` for a day given by its date rather than by its offset from `start`. */
  lemma PositionedDayRecord(start: Date, end: Date, cfg: Config, i: nat, d: Date)
    requires Valid(start) && Valid(end) && ValidConfig(cfg)
    requires i < |Calendar(start, end, cfg)| && Valid(d) && Ordinal(d) == Ordinal(start) + i
    requires PassedYearDay(start, d) && !IsYearDay(d) && !IsLeapDay(d)
    ensures Valid(EpochStart(d))
    ensures Calendar(start, end, cfg)[i] == RegularRecord(d, Locate(CycleDays(cfg.deduction, EpochStart(d), d)), cfg)
  {
    CalendarPosition(start, end, cfg, i);
    OrdinalInjective(DayAfter(start, i), d);
  }

  /**
   * With the corrected scan there is no such repeat: from the Year Day of any year `y`,
   * January 1 and January 2 of `y + 1` are the fourth and the fifth day name of Week 2
   * of the first season.
   */
  lemma CorrectedNewYearRecords(y: int, cfg: Config)
    requires MinYear <= y < MaxYear && ValidConfig(cfg) && cfg.deduction == LeapDaysOnly
    ensures var start, end := Date(y, 12, 21), Date(y + 1, 1, 2);
      Valid(start) && Valid(end) &&
      var r := Calendar(start, end, cfg);
      |r| == 13 &&
      r[11] == RegularRecord(Date(y + 1, 1, 1), Slot(3, 2, 0, 2), cfg) &&
      r[12] == RegularRecord(Date(y + 1, 1, 2), Slot(4, 2, 0, 2), cfg)
  {
    var start, jan1, jan2 := Date(y, 12, 21), Date(y + 1, 1, 1), Date(y + 1, 1, 2);
    assert Ordinal(start) + 11 == Ordinal(jan1) && Ordinal(start) + 12 == Ordinal(jan2) by {
      NewYearOrdinal(y);
    }
    assert Ordinal(jan2) <= MaxOrdinal by {
      OrdinalBounds(jan2);
    }
    assert |Calendar(start, jan2, cfg)| == 13 by {
      StepsLength(start, jan2, InitialAnchor);
    }
    assert Locate(10) == Slot(3, 2, 0, 2) && Locate(11) == Slot(4, 2, 0, 2);
    NewYearIntendedPositions(y);
    RegularDayRecord(start, jan2, cfg, 11, jan1);
    RegularDayRecord(start, jan2, cfg, 12, jan2);
  }

  /** `CorrectedCalendarIsPerpetual` for a day given by its date rather than by its offset from `start`. */
  lemma RegularDayRecord(start: Date, end: Date, cfg: Config, i: nat, d: Date)
    requires Valid(start) && Valid(end) && ValidConfig(cfg) && cfg.deduction == LeapDaysOnly
    requires i < |Calendar(start, end, cfg)| && Valid(d) && Ordinal(d) == Ordinal(start) + i
    requires PassedYearDay(start, d) && !IsYearDay(d) && !IsLeapDay(d)
    ensures Valid(EpochStart(d)) && Calendar(start, end, cfg)[i] == RegularRecord(d, Locate(IntendedPosition(d)), cfg)
  {
    CorrectedCalendarIsPerpetual(start, end, cfg, i);
    OrdinalInjective(DayAfter(start, i), d);
  }

  /** What the `i`-th record holds, by the kind of its date. */
  lemma CalendarRecord(start: Date, end: Date, cfg: Config, i: nat)
    requires Valid(start) && Valid(end) && ValidConfig(cfg)
    requires i < |Calendar(start, end, cfg)|
    ensures Ordinal(start) + i <= MaxOrdinal
    ensures var r, d := Calendar(start, end, cfg)[i], DayAfter(start, i);
      && r.currentDate == d && r.stdWeekday == WeekdayNames[Weekday(d)]
      && (r.extraDayType == Some(cfg.yearDayLabel) <==> IsYearDay(d))
      && (r.extraDayType == Some(cfg.leapDayLabel) <==> IsLeapDay(d))
      && (r.extraDay <==> IsYearDay(d) || IsLeapDay(d))
      && (r.extraDay <==> r.dayName.None? && r.season.None? && r.weekInSeason.None?)
      && (!r.extraDay <==> r.dayName.Some? && r.season.Some? && r.weekInSeason.Some?)
      && (!r.extraDay ==>
            r.dayName.value in cfg.dayNames && r.season.value in cfg.seasons &&
            1 <= r.weekInSeason.value <= WeeksPerSeason)
  {
    CalendarEntry(start, end, cfg, i);
    ClassifyShape(DayAfter(start, i), AnchorAfter(start, InitialAnchor, i), cfg);
  }

  /**
   * A walk that succeeds never reaches 9999-12-31: stepping past that date raises
   * OverflowError, so an end date of 9999-12-31 is reported as `DateOverflow`.
   */
  lemma SuccessAvoidsMaxDate(start: Date, end: Date, cfg: Config)
    requires Valid(start) && Valid(end) && ValidConfig(cfg)
    ensures Outcome(start, end, cfg).Success? ==>
      Outcome(start, end, cfg).value == Calendar(start, end, cfg) &&
      forall i :: 0 <= i < |Calendar(start, end, cfg)| ==> Calendar(start, end, cfg)[i].currentDate != MaxDate
  {
    if Outcome(start, end, cfg).Success? {
      var r := Calendar(start, end, cfg);
      CalendarDates(start, end, cfg);
      OrdinalBounds(end);
      forall i | 0 <= i < |r|
        ensures r[i].currentDate != MaxDate
      {
        OrdinalBounds(DayAfter(start, i));
      }
    }
  }

  /**
   * A start date after the end date is not an error: the walk's loop does not run and
   * the list comes back empty (unless the first check of alpha.py rejects the start).
   */
  lemma EmptyRangeGivesNoRecords(start: Date, end: Date, cfg: Config)
    requires Valid(start) && Valid(end) && ValidConfig(cfg) && Before(end, start)
    requires !(cfg.rejectsStartsAfterLastDecember22 && start.year == MaxYear && Before(Date(MaxYear, 12, 22), start))
    ensures Outcome(start, end, cfg) == Success([])
  {
    CalendarDates(start, end, cfg);
  }

  /** The range the scripts run when executed: the Year Day of 2025 to that of 2029. */
  const DemoStart := Date(2025, 12, 21)
  const DemoEnd := Date(2029, 12, 21)

  /**
   * A walk from the Year Day of `y1` to that of a later year `y2` succeeds with one
   * record per day of the years `y1 + 1` through `y2` plus the opening Year Day; it opens
   * and closes on a Year Day, and the day after the opening Year Day is the first day
   * name of Week 1 of the first season.
   */
  lemma YearDayToYearDay(y1: int, y2: int, cfg: Config)
    requires MinYear <= y1 < y2 <= MaxYear && ValidConfig(cfg)
    ensures var s, e := Date(y1, 12, 21), Date(y2, 12, 21);
      Valid(s) && Valid(e) &&
      Outcome(s, e, cfg) == Success(Calendar(s, e, cfg)) &&
      var r := Calendar(s, e, cfg);
      |r| == DaysBeforeYear(y2 + 1) - DaysBeforeYear(y1 + 1) + 1 && |r| > 1 &&
      r[0].currentDate == s && r[0].extraDayType == Some(cfg.yearDayLabel) &&
      !r[1].extraDay && r[1].dayName == Some(cfg.dayNames[0]) &&
      r[1].season == Some(cfg.seasons[0]) && r[1].weekInSeason == Some(1) &&
      r[|r| - 1].currentDate == e && r[|r| - 1].extraDayType == Some(cfg.yearDayLabel)
  {
    var s, e := Date(y1, 12, 21), Date(y2, 12, 21);
    assert Ordinal(s) == DaysBeforeYear(y1 + 1) - 10 && Ordinal(e) == DaysBeforeYear(y2 + 1) - 10 by {
      DaysBeforeNextYear(y1);
      DaysBeforeNextYear(y2);
    }
    YearDayWalk(s, e, cfg);
  }

  /** `YearDayToYearDay` for any two Year Days, given as dates. */
  lemma YearDayWalk(s: Date, e: Date, cfg: Config)
    requires Valid(s) && Valid(e) && ValidConfig(cfg) && IsYearDay(s) && IsYearDay(e) && Before(s, e)
    ensures Outcome(s, e, cfg) == Success(Calendar(s, e, cfg))
    ensures var r := Calendar(s, e, cfg);
      |r| == Ordinal(e) - Ordinal(s) + 1 && |r| > 1 &&
      r[0].currentDate == s && r[0].extraDayType == Some(cfg.yearDayLabel) &&
      !r[1].extraDay && r[1].dayName == Some(cfg.dayNames[0]) &&
      r[1].season == Some(cfg.seasons[0]) && r[1].weekInSeason == Some(1) &&
      r[|r| - 1].currentDate == e && r[|r| - 1].extraDayType == Some(cfg.yearDayLabel)
  {
    assert Ordinal(s) < Ordinal(e) by {
      OrdinalOrder(s, e);
    }
    CalendarDates(s, e, cfg);
    CalendarEnds(s, e, cfg);
    var r := Calendar(s, e, cfg);
    CalendarRecord(s, e, cfg, 0);
    CalendarRecord(s, e, cfg, |r| - 1);
    YearDayStartsCycle(s, e, cfg, 0);
  }

  /**
   * The scripts' own run: 1462 records, for the four years 2026 to 2029 (2028 is a leap
   * year) and the opening Year Day of 2025.
   */
  lemma DemoRun(cfg: Config)
    requires ValidConfig(cfg)
    ensures Outcome(DemoStart, DemoEnd, cfg) == Success(Calendar(DemoStart, DemoEnd, cfg))
    ensures |Calendar(DemoStart, DemoEnd, cfg)| == 1462
  {
    YearDayToYearDay(2025, 2029, cfg);
    DaysBeforeYearClosedForm(2026);
    DaysBeforeYearClosedForm(2030);
  }
}
