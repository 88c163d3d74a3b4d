/**
 * How the cycle position `days_into_cycle` moves from one day to the next under each way
 * of deducting Leap Days, and the position the calendar intends: the days since the
 * December 22 that opens the perpetual year, with the Leap Day left out of the count.
 */
module PerpetualYear {
  import opened Gregorian
  import opened Cycle
  import opened LeapScan
  import opened PerpetualCalendar

  /** The December 22 that opens the perpetual year containing `d`. */
  function EpochStart(d: Date): Date {
    if d.month == 12 && d.day >= 22 then Date(d.year, 12, 22) else Date(d.year - 1, 12, 22)
  }

  /** The Year Day that closed the perpetual year before the one containing `d`. */
  function PrecedingYearDay(d: Date): Date {
    Date(EpochStart(d).year, 12, 21)
  }

  /**
   * The intended position of `d` in the 364-day cycle: the days since the start of its
   * perpetual year, less one once that year's Leap Day has passed.
   */
  function IntendedPosition(d: Date): (n: int)
    requires Valid(d) && Valid(EpochStart(d)) && !IsYearDay(d)
    ensures 0 <= n < CycleLength
  {
    var e := EpochStart(d);
    EpochBounds(d);
    var offset := Ordinal(d) - Ordinal(e);
    offset - (if IsLeapYear(e.year + 1) && offset > 182 then 1 else 0)
  }

  /** The intended position of `d`, read off its offset `o` from the start of its perpetual year. */
  lemma IntendedPositionByOffset(d: Date, o: int)
    requires Valid(d) && Valid(EpochStart(d)) && !IsYearDay(d) && o == Ordinal(d) - Ordinal(EpochStart(d))
    ensures IntendedPosition(d) == o - (if IsLeapYear(EpochStart(d).year + 1) && o > 182 then 1 else 0)
  {
  }

  /** A day count already within the cycle is its own position. */
  lemma ReducedCycleDays(mode: LeapDeduction, a: Date, d: Date)
    requires Valid(a) && Valid(d) && 0 <= Ordinal(d) - Ordinal(a) - Deducted(mode, a, d) < CycleLength
    ensures CycleDays(mode, a, d) == Ordinal(d) - Ordinal(a) - Deducted(mode, a, d)
  {
    CycleReduced(Ordinal(d) - Ordinal(a) - Deducted(mode, a, d));
  }

  /** The day after a day other than the Year Day belongs to the same perpetual year. */
  lemma EpochStartSucc(d: Date)
    requires Valid(d) && d != MaxDate && !IsYearDay(d)
    ensures EpochStart(Succ(d)) == EpochStart(d) && PrecedingYearDay(Succ(d)) == PrecedingYearDay(d)
  {
  }

  /** A day other than the Year Day lies within 0 to 363 (364 in a leap year) days of its epoch start. */
  lemma EpochBounds(d: Date)
    requires Valid(d) && Valid(EpochStart(d)) && !IsYearDay(d)
    ensures var e := EpochStart(d);
      Ordinal(e) <= Ordinal(d) &&
      Ordinal(d) - Ordinal(e) <= 363 + (if IsLeapYear(e.year + 1) then 1 else 0)
  {
    var e := EpochStart(d);
    assert Ordinal(e) <= Ordinal(d) by {
      assert !Before(d, e);
      OrdinalOrder(d, e);
    }
    if e.year < MaxYear {
      EpochEnd(e.year, d);
    } else {
      assert d.year == e.year && d.month == 12;
    }
  }

  /** A day of the perpetual year that starts on December 22 of `y` comes before the Year Day that ends it. */
  lemma EpochEnd(y: int, d: Date)
    requires MinYear <= y < MaxYear && Valid(d) && EpochStart(d) == Date(y, 12, 22) && !IsYearDay(d)
    ensures Ordinal(d) < Ordinal(Date(y, 12, 22)) + 364 + (if IsLeapYear(y + 1) then 1 else 0)
  {
    var last := Date(y + 1, 12, 21);
    EpochOffsets(y);
    assert Before(d, last);
    OrdinalOrder(d, last);
  }

  /**
   * From one day to the next the position advances by one, modulo 364, less the day the
   * scan deducts; a day before the anchor is outside the scan and never deducted.
   */
  lemma CycleStep(mode: LeapDeduction, a: Date, d: Date)
    requires Valid(a) && Valid(d) && d != MaxDate
    ensures CycleDays(mode, a, Succ(d)) ==
      (CycleDays(mode, a, d) + 1 - (if Hit(mode, d) && !Before(d, a) then 1 else 0)) % CycleLength
  {
    OrdinalSucc(d);
    CycleStepDeducted(mode, a, d, Succ(d));
    DeductedStep(mode, a, d);
  }

  /** `CycleStep` for any next day `e`, in terms of the days the scan deducts from `d` to `e`. */
  lemma CycleStepDeducted(mode: LeapDeduction, a: Date, d: Date, e: Date)
    requires Valid(a) && Valid(d) && Valid(e) && Ordinal(e) == Ordinal(d) + 1
    ensures CycleDays(mode, a, e) ==
      (CycleDays(mode, a, d) + 1 - (Deducted(mode, a, e) - Deducted(mode, a, d))) % CycleLength
  {
    var t, k := Ordinal(d) - Ordinal(a) - Deducted(mode, a, d), Deducted(mode, a, e) - Deducted(mode, a, d);
    assert Ordinal(e) - Ordinal(a) - Deducted(mode, a, e) == t + 1 - k;
    CycleStepArith(t, k);
  }

  /** The scan up to the day after `d` deducts what the scan up to `d` does, and `d` if it passes and is not before the anchor. */
  lemma DeductedStep(mode: LeapDeduction, a: Date, d: Date)
    requires Valid(a) && Valid(d) && d != MaxDate
    ensures Deducted(mode, a, Succ(d)) == Deducted(mode, a, d) + (if Hit(mode, d) && !Before(d, a) then 1 else 0)
  {
    OrdinalSucc(d);
    OrdinalOrder(a, d);
    OrdinalOrder(a, Succ(d));
    if !Before(d, a) {
      ScanSnoc(mode, a, d);
    }
  }

  /** Under the corrected scan, the day after a Leap Day takes the slot right after the day before it. */
  lemma CorrectedLeapDayKeepsCycle(a: Date, y: int)
    requires Valid(a) && MinYear <= y <= MaxYear && IsLeapYear(y) && !Before(Date(y, 6, 20), a)
    ensures CycleDays(LeapDaysOnly, a, Date(y, 6, 22)) == (CycleDays(LeapDaysOnly, a, Date(y, 6, 20)) + 1) % CycleLength
  {
    var p20 := CycleDays(LeapDaysOnly, a, Date(y, 6, 20));
    var p21 := CycleDays(LeapDaysOnly, a, Date(y, 6, 21));
    assert p21 == (p20 + 1) % CycleLength by {
      CycleStep(LeapDaysOnly, a, Date(y, 6, 20));
    }
    assert CycleDays(LeapDaysOnly, a, Date(y, 6, 22)) == p21 by {
      assert Succ(Date(y, 6, 21)) == Date(y, 6, 22);
      assert Hit(LeapDaysOnly, Date(y, 6, 21)) && !Before(Date(y, 6, 21), a);
      CycleStep(LeapDaysOnly, a, Date(y, 6, 21));
      CycleReduced(p21);
    }
  }

  /** The precedence quirk keeps the Leap Day out of the cycle in a leap year not divisible by 400. */
  lemma QuirkLeapDayKeepsCycle(a: Date, y: int)
    requires Valid(a) && MinYear <= y <= MaxYear && IsLeapYear(y) && y % 400 != 0 && !Before(Date(y, 6, 20), a)
    ensures CycleDays(PrecedenceQuirk, a, Date(y, 6, 22)) == (CycleDays(PrecedenceQuirk, a, Date(y, 6, 20)) + 1) % CycleLength
  {
    var p20 := CycleDays(PrecedenceQuirk, a, Date(y, 6, 20));
    var p21 := CycleDays(PrecedenceQuirk, a, Date(y, 6, 21));
    assert p21 == (p20 + 1) % CycleLength by {
      CycleStep(PrecedenceQuirk, a, Date(y, 6, 20));
    }
    assert CycleDays(PrecedenceQuirk, a, Date(y, 6, 22)) == p21 by {
      assert Succ(Date(y, 6, 21)) == Date(y, 6, 22);
      assert Hit(PrecedenceQuirk, Date(y, 6, 21)) && !Before(Date(y, 6, 21), a);
      CycleStep(PrecedenceQuirk, a, Date(y, 6, 21));
      CycleReduced(p21);
    }
  }

  /** Without a deduction the Leap Day uses up a slot: the day after it is two slots on. */
  lemma UndeductedLeapDaySkipsSlot(a: Date, y: int)
    requires Valid(a) && MinYear <= y <= MaxYear && IsLeapYear(y)
    ensures CycleDays(NoDeduction, a, Date(y, 6, 22)) == (CycleDays(NoDeduction, a, Date(y, 6, 20)) + 2) % CycleLength
  {
    CycleStep(NoDeduction, a, Date(y, 6, 20));
    CycleStep(NoDeduction, a, Date(y, 6, 21));
    CycleSucc(CycleDays(NoDeduction, a, Date(y, 6, 20)) + 1);
  }

  /**
   * Without a deduction, December 20 of a leap year is 364 days after the epoch start and
   * wraps around to position 0, the slot of December 22.
   */
  lemma UndeductedDecember20Wraps(y: int)
    requires MinYear <= y < MaxYear && IsLeapYear(y + 1)
    ensures CycleDays(NoDeduction, Date(y, 12, 22), Date(y + 1, 12, 20)) == 0
  {
    EpochOffsets(y);
  }

  /**
   * In a year divisible by 400 the quirky scan deducts every day past the anchor, so the
   * position stands still all year.
   */
  lemma QuirkStallsIn400Years(a: Date, d: Date)
    requires Valid(a) && Valid(d) && d != MaxDate && d.year % 400 == 0 && !Before(d, a)
    ensures CycleDays(PrecedenceQuirk, a, Succ(d)) == CycleDays(PrecedenceQuirk, a, d)
  {
    var n := CycleDays(PrecedenceQuirk, a, d);
    assert Hit(PrecedenceQuirk, d);
    CycleStep(PrecedenceQuirk, a, d);
    assert CycleDays(PrecedenceQuirk, a, Succ(d)) == (n + 1 - 1) % CycleLength;
    CycleReduced(n);
  }

  /**
   * The stall of a year `y` divisible by 400 carries over its new year: anchored at
   * December 22 of `y`, the scripts' scan puts January 1 of `y + 1` at position 0, the
   * slot of December 22, where the corrected scan and the intended position put it ten
   * days on.
   */
  lemma QuirkCarriesIntoNextYear(y: int)
    requires MinYear <= y < MaxYear && y % 400 == 0
    ensures var a, jan1 := Date(y, 12, 22), Date(y + 1, 1, 1);
      CycleDays(PrecedenceQuirk, a, jan1) == 0 &&
      CycleDays(LeapDaysOnly, a, jan1) == 10 && IntendedPosition(jan1) == 10
  {
    var a, jan1 := Date(y, 12, 22), Date(y + 1, 1, 1);
    NewYearOrdinal(y);
    QuirkLoudDecember(y);
    ReducedCycleDays(PrecedenceQuirk, a, jan1);
    ReducedCycleDays(LeapDaysOnly, a, jan1);
    assert EpochStart(jan1) == a;
    IntendedPositionByOffset(jan1, 10);
  }

  /**
   * When no year from the anchor's to the date's is divisible by 400, the scripts'
   * quirky scan gives the corrected position.
   */
  lemma QuirkMatchesCorrected(a: Date, d: Date)
    requires Valid(a) && Valid(d) && NoMultipleOf400(a.year, d.year)
    ensures CycleDays(PrecedenceQuirk, a, d) == CycleDays(LeapDaysOnly, a, d)
  {
    QuirkCountsLeapDays(a, d);
  }

  /** Anchored at the start of its perpetual year, the corrected scan puts a day at its intended position. */
  lemma CorrectedPosition(d: Date)
    requires Valid(d) && Valid(EpochStart(d)) && !IsYearDay(d)
    ensures CycleDays(LeapDaysOnly, EpochStart(d), d) == IntendedPosition(d)
  {
    EpochDeduction(d);
    ReducedCycleDays(LeapDaysOnly, EpochStart(d), d);
  }

  /** The corrected scan from the start of its perpetual year up to `d` deducts the Leap Day once `d` is past it. */
  lemma EpochDeduction(d: Date)
    requires Valid(d) && Valid(EpochStart(d)) && !IsYearDay(d)
    ensures var e := EpochStart(d);
      0 <= Ordinal(d) - Ordinal(e) - ScanCount(LeapDaysOnly, e, d) < CycleLength &&
      ScanCount(LeapDaysOnly, e, d) == Ordinal(d) - Ordinal(e) - IntendedPosition(d)
  {
    EpochBounds(d);
    EpochScan(d);
    IntendedPositionByOffset(d, Ordinal(d) - Ordinal(EpochStart(d)));
  }

  /** The corrected scan from the start of a day's perpetual year counts its Leap Day once `d` is past it. */
  lemma EpochScan(d: Date)
    requires Valid(d) && Valid(EpochStart(d)) && !IsYearDay(d)
    ensures ScanCount(LeapDaysOnly, EpochStart(d), d) ==
      if IsLeapYear(EpochStart(d).year + 1) && Ordinal(d) - Ordinal(EpochStart(d)) > 182 then 1 else 0
  {
    var e := EpochStart(d);
    EpochBounds(d);
    if e.year < MaxYear {
      LeapDaysSinceEpochStart(e.year, d);
    } else {
      LastEpoch(d);
    }
  }

  /** The perpetual year starting on December 22, 9999 ends with that year: ten days, no Leap Day. */
  lemma LastEpoch(d: Date)
    requires Valid(d) && EpochStart(d) == Date(MaxYear, 12, 22)
    ensures Ordinal(d) - Ordinal(EpochStart(d)) <= 9 && ScanCount(LeapDaysOnly, EpochStart(d), d) == 0
  {
    assert d.year == MaxYear && d.month == 12;
    NoLeapDayInDecember(EpochStart(d), d);
  }

  /** The scan over days of one December deducts nothing. */
  lemma {:induction false} NoLeapDayInDecember(a: Date, d: Date)
    requires Valid(a) && Valid(d) && a.month == 12 && d.month == 12 && a.year == d.year
    ensures ScanCount(LeapDaysOnly, a, d) == 0
    decreases Ordinal(d) - Ordinal(a)
  {
    OrdinalOrder(a, d);
    if Before(a, d) {
      OrdinalBounds(d);
      OrdinalSucc(a);
      OrdinalOrder(Succ(a), d);
      NoLeapDayInDecember(Succ(a), d);
    }
  }

  /** Two different regular days of one perpetual year have different intended positions. */
  lemma IntendedPositionsDistinct(d1: Date, d2: Date)
    requires Valid(d1) && Valid(EpochStart(d1)) && !IsYearDay(d1) && !IsLeapDay(d1)
    requires Valid(d2) && !IsYearDay(d2) && !IsLeapDay(d2)
    requires EpochStart(d1) == EpochStart(d2) && d1 != d2
    ensures IntendedPosition(d1) != IntendedPosition(d2)
  {
    var e := EpochStart(d1);
    var o1, o2 := Ordinal(d1) - Ordinal(e), Ordinal(d2) - Ordinal(e);
    assert o1 != o2 by {
      OrdinalOrder(d1, d2);
    }
    assert IsLeapYear(e.year + 1) ==> o1 != 182 && o2 != 182 by {
      LeapOffsetExcluded(d1);
      LeapOffsetExcluded(d2);
    }
    IntendedPositionByOffset(d1, o1);
    IntendedPositionByOffset(d2, o2);
  }

  /** No regular day is 182 days into a perpetual year that has a Leap Day: that offset is the Leap Day's. */
  lemma LeapOffsetExcluded(d: Date)
    requires Valid(d) && Valid(EpochStart(d)) && !IsYearDay(d) && !IsLeapDay(d)
    ensures IsLeapYear(EpochStart(d).year + 1) ==> Ordinal(d) - Ordinal(EpochStart(d)) != 182
  {
    var e := EpochStart(d);
    if e.year < MaxYear {
      LeapDayOfEpoch(e.year, d);
    } else {
      assert d.year == e.year && d.month == 12;
    }
  }

  /**
   * Every position of the cycle is taken in every perpetual year: by the day `p` days
   * after its start, or `p + 1` once its Leap Day has passed.
   */
  lemma IntendedPositionsCovered(y: int, p: int)
    requires MinYear <= y < MaxYear && 0 <= p < CycleLength
    ensures var e := Date(y, 12, 22);
      var k := p + (if IsLeapYear(y + 1) && p >= 182 then 1 else 0);
      Ordinal(e) + k <= MaxOrdinal &&
      var d := DayAfter(e, k);
      EpochStart(d) == e && !IsYearDay(d) && !IsLeapDay(d) && IntendedPosition(d) == p
  {
    var e, last := Date(y, 12, 22), Date(y + 1, 12, 21);
    var k := p + (if IsLeapYear(y + 1) && p >= 182 then 1 else 0);
    assert Ordinal(e) + k < Ordinal(last) <= MaxOrdinal by {
      EpochOffsets(y);
      OrdinalBounds(last);
    }
    CoveringDay(y, p, k, DayAfter(e, k));
  }

  /** The day `k` days into the perpetual year starting on December 22 of `y` has intended position `p`. */
  lemma CoveringDay(y: int, p: int, k: int, d: Date)
    requires MinYear <= y < MaxYear && 0 <= p < CycleLength
    requires k == p + (if IsLeapYear(y + 1) && p >= 182 then 1 else 0)
    requires Valid(d) && Ordinal(d) == Ordinal(Date(y, 12, 22)) + k && Ordinal(d) < Ordinal(Date(y + 1, 12, 21))
    ensures EpochStart(d) == Date(y, 12, 22) && !IsYearDay(d) && !IsLeapDay(d) && IntendedPosition(d) == p
  {
    var e, last := Date(y, 12, 22), Date(y + 1, 12, 21);
    assert EpochStart(d) == e && !IsYearDay(d) by {
      OrdinalOrder(d, e);
      OrdinalOrder(last, d);
      EpochWithin(y, d);
    }
    assert !IsLeapDay(d) by {
      OrdinalBounds(last);
      LeapDayOfEpoch(y, d);
    }
    IntendedPositionByOffset(d, k);
  }

  /** The days from December 22 of `y` up to, but not including, the next Year Day form one perpetual year. */
  lemma EpochWithin(y: int, d: Date)
    requires MinYear <= y < MaxYear && Valid(d)
    requires !Before(d, Date(y, 12, 22)) && Before(d, Date(y + 1, 12, 21))
    ensures EpochStart(d) == Date(y, 12, 22) && !IsYearDay(d)
  {
  }

  /**
   * Two consecutive regular days of a year divisible by 400 get the same day name, season
   * and week under the quirky scan, counted from the start of their perpetual year.
   */
  lemma QuirkRepeatsSlot(d: Date, cfg: Config)
    requires Valid(d) && d != MaxDate && Valid(EpochStart(d)) && ValidConfig(cfg)
    requires cfg.deduction == PrecedenceQuirk && d.year % 400 == 0
    requires !IsYearDay(d) && !IsLeapDay(d) && !IsYearDay(Succ(d)) && !IsLeapDay(Succ(d))
    ensures var e := EpochStart(d);
      var r, r' := RegularRecord(d, Locate(CycleDays(cfg.deduction, e, d)), cfg),
                   RegularRecord(Succ(d), Locate(CycleDays(cfg.deduction, e, Succ(d))), cfg);
      r.dayName == r'.dayName && r.season == r'.season && r.weekInSeason == r'.weekInSeason
  {
    var e := EpochStart(d);
    OrdinalOrder(d, e);
    QuirkStallsIn400Years(e, d);
  }

  /**
   * The first day of season `k` (1 to 3) of the perpetual year that ends in year `y`:
   * March 22 in a leap year, whose February 29 comes first, and March 23 otherwise;
   * June 22, the day after the Leap Day; and September 21. Season 0 opens on December 22
   * of the year before.
   */
  function OpeningDay(y: int, k: int): Date
    requires 1 <= k <= 3
  {
    if k == 1 then (if IsLeapYear(y) then Date(y, 3, 22) else Date(y, 3, 23))
    else if k == 2 then Date(y, 6, 22)
    else Date(y, 9, 21)
  }

  /** Season `k` opens on its opening day: the first day name of its Week 1, Week `13 k + 1` overall. */
  lemma SeasonOpens(y: int, k: int)
    requires MinYear < y <= MaxYear && 1 <= k <= 3
    ensures var d := OpeningDay(y, k);
      Valid(d) && EpochStart(d) == Date(y - 1, 12, 22) && Valid(EpochStart(d)) &&
      !IsYearDay(d) && !IsLeapDay(d) &&
      Locate(IntendedPosition(d)) == Slot(0, 13 * k + 1, k, 1)
  {
    OpeningPosition(y, k);
    SeasonStartSlot(k);
  }

  /** The opening day of season `k` is `91 k` days into the perpetual year, not counting the Leap Day. */
  lemma OpeningPosition(y: int, k: int)
    requires MinYear < y <= MaxYear && 1 <= k <= 3
    ensures var d := OpeningDay(y, k);
      Valid(d) && EpochStart(d) == Date(y - 1, 12, 22) && !IsYearDay(d) && !IsLeapDay(d) &&
      IntendedPosition(d) == 91 * k
  {
    var e, d := Date(y - 1, 12, 22), OpeningDay(y, k);
    assert Valid(d) && EpochStart(d) == e && !IsYearDay(d) && !IsLeapDay(d);
    OpeningOffset(y, k);
  }

  /** How many days after December 22 of the year before season `k` opens. */
  lemma OpeningOffset(y: int, k: int)
    requires MinYear < y <= MaxYear && 1 <= k <= 3
    ensures Ordinal(OpeningDay(y, k)) ==
      Ordinal(Date(y - 1, 12, 22)) + 91 * k + (if k > 1 && IsLeapYear(y) then 1 else 0)
  {
    assert Ordinal(Date(y - 1, 12, 22)) == DaysBeforeYear(y) - 9 by {
      DaysBeforeNextYear(y - 1);
    }
  }

  /**
   * December 20, the day before the Year Day, closes the perpetual year at its last
   * position, 363: Ignis of Week 13 of the fourth season, Week 52 overall, in leap
   * years as in common ones.
   */
  lemma LastRegularDay(y: int)
    requires MinYear < y <= MaxYear
    ensures var d := Date(y, 12, 20);
      Valid(d) && EpochStart(d) == Date(y - 1, 12, 22) && Valid(EpochStart(d)) &&
      !IsYearDay(d) && !IsLeapDay(d) &&
      IntendedPosition(d) == 363 && Locate(IntendedPosition(d)) == Slot(6, 52, 3, 13)
  {
    var e, d := Date(y - 1, 12, 22), Date(y, 12, 20);
    var leap := if IsLeapYear(y) then 1 else 0;
    assert Ordinal(e) == DaysBeforeYear(y) - 9 by {
      DaysBeforeNextYear(y - 1);
    }
    assert EpochStart(d) == e && Valid(d);
    assert Ordinal(d) == Ordinal(e) + 363 + leap;
    IntendedPositionByOffset(d, 363 + leap);
    assert Locate(363) == Slot(6, 52, 3, 13) by {
      EndSlots();
    }
  }

  /**
   * The June Solstice in the middle of the perpetual year: the last regular day before
   * June 22 (June 20 in a leap year, whose June 21 is the Leap Day, and June 21 otherwise)
   * is the last day, Ignis, of Week 26 overall, and June 22 is the first day, Solis, of
   * Week 27, which is Week 1 of the third season.
   */
  lemma JuneSolsticeOpensThirdSeason(y: int)
    requires MinYear < y <= MaxYear
    ensures var last := if IsLeapYear(y) then Date(y, 6, 20) else Date(y, 6, 21);
      Valid(last) && Valid(EpochStart(last)) && !IsYearDay(last) &&
      Valid(Date(y, 6, 22)) && EpochStart(Date(y, 6, 22)) == EpochStart(last) &&
      Locate(IntendedPosition(last)) == Slot(6, 26, 1, 13) &&
      Locate(IntendedPosition(Date(y, 6, 22))) == Slot(0, 27, 2, 1)
  {
    LastDayBeforeJuneSolstice(y);
    SeasonOpens(y, 2);
    assert Locate(181) == Slot(6, 26, 1, 13);
  }

  /** The position behind `JuneSolsticeOpensThirdSeason`. */
  lemma LastDayBeforeJuneSolstice(y: int)
    requires MinYear < y <= MaxYear
    ensures var last := if IsLeapYear(y) then Date(y, 6, 20) else Date(y, 6, 21);
      Valid(last) && EpochStart(last) == Date(y - 1, 12, 22) && !IsYearDay(last) &&
      IntendedPosition(last) == 181
  {
    var e := Date(y - 1, 12, 22);
    var last := if IsLeapYear(y) then Date(y, 6, 20) else Date(y, 6, 21);
    assert Ordinal(e) == DaysBeforeYear(y) - 9 by {
      DaysBeforeNextYear(y - 1);
    }
    assert EpochStart(last) == e && Valid(last);
    assert Ordinal(last) == Ordinal(e) + 181;
  }

  /** January 1 and January 2 are 10 and 11 days into the perpetual year that began on December 22. */
  lemma NewYearIntendedPositions(y: int)
    requires MinYear <= y < MaxYear
    ensures EpochStart(Date(y + 1, 1, 1)) == Date(y, 12, 22) && EpochStart(Date(y + 1, 1, 2)) == Date(y, 12, 22)
    ensures IntendedPosition(Date(y + 1, 1, 1)) == 10 && IntendedPosition(Date(y + 1, 1, 2)) == 11
  {
    NewYearOrdinal(y);
  }

  /**
   * The quirk at the start of a year `y + 1` divisible by 400 (2000, say): counted from
   * December 22 of `y`, the scripts' scan puts January 1 and January 2 both at position
   * 10, while the intended position of January 2 is 11.
   */
  lemma QuirkNewYearPositions(y: int)
    requires MinYear <= y < MaxYear && (y + 1) % 400 == 0
    ensures CycleDays(PrecedenceQuirk, Date(y, 12, 22), Date(y + 1, 1, 1)) == 10
    ensures CycleDays(PrecedenceQuirk, Date(y, 12, 22), Date(y + 1, 1, 2)) == 10
    ensures IntendedPosition(Date(y + 1, 1, 1)) == 10 && IntendedPosition(Date(y + 1, 1, 2)) == 11
  {
    var e, jan1, jan2 := Date(y, 12, 22), Date(y + 1, 1, 1), Date(y + 1, 1, 2);
    NewYearOrdinal(y);
    assert Ordinal(jan2) == Ordinal(jan1) + 1;
    QuirkCountsNewYearsDay(y);
    assert Deducted(PrecedenceQuirk, e, jan1) == 0 && Deducted(PrecedenceQuirk, e, jan2) == 1;
    CycleReduced(10);
    NewYearIntendedPositions(y);
  }
}
