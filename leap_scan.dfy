/**
 * The Leap-Day scan of bravo.py and charlie.py: every day from the cycle anchor up to,
 * but not including, the current date is tested, and the days that pass the test are
 * subtracted from the day count since the anchor.
 *
 * The test is written there without parentheses around the leap-year rule, so Python
 * reads it as `(month == 6 and day == 21 and year % 4 == 0 and year % 100 != 0) or
 * year % 400 == 0`: every day of a year divisible by 400 passes, and June 21 of such a
 * year passes only through the second disjunct. `PrecedenceQuirk` is that test as
 * written; `LeapDaysOnly` is the test the surrounding code evidently intends (June 21 of
 * a Gregorian leap year).
 */
module LeapScan {
  import opened Gregorian

  /** How a script deducts Leap Days from the day count since the anchor. */
  datatype LeapDeduction =
    | NoDeduction      // alpha.py: nothing is deducted and no scan runs
    | PrecedenceQuirk  // bravo.py and charlie.py, as written
    | LeapDaysOnly     // the intended test: June 21 of a leap year

  /** June 21 of a Gregorian leap year: the Leap Day of the perpetual calendar. */
  predicate IsLeapDay(d: Date) {
    IsLeapYear(d.year) && d.month == 6 && d.day == 21
  }

  /** Whether the scan subtracts day `d`. */
  predicate Hit(mode: LeapDeduction, d: Date) {
    match mode
    case NoDeduction => false
    case PrecedenceQuirk =>
      (d.month == 6 && d.day == 21 && (d.year % 4 == 0 && d.year % 100 != 0)) || d.year % 400 == 0
    case LeapDaysOnly => IsLeapDay(d)
  }

  /** The number of days `d` with `from <= d < to` that the scan subtracts. */
  function ScanCount(mode: LeapDeduction, from: Date, to: Date): nat
    requires Valid(from) && Valid(to)
    decreases Ordinal(to) - Ordinal(from)
  {
    OrdinalOrder(from, to);
    if Before(from, to) then
      OrdinalBounds(to);
      OrdinalSucc(from);
      (if Hit(mode, from) then 1 else 0) + ScanCount(mode, Succ(from), to)
    else
      0
  }

  /**
   * The inner `while temp_date_for_leap_check < current_date` loop: walks from `anchor`
   * to `current` one day at a time and counts the days that pass the test.
   */
  method CountScanHits(mode: LeapDeduction, anchor: Date, current: Date) returns (count: nat)
    requires Valid(anchor) && Valid(current)
    ensures count == ScanCount(mode, anchor, current)
  {
    count := 0;
    var probe := anchor;
    while Before(probe, current)
      invariant Valid(probe)
      invariant count + ScanCount(mode, probe, current) == ScanCount(mode, anchor, current)
      decreases Ordinal(current) - Ordinal(probe)
    {
      OrdinalOrder(probe, current);
      OrdinalBounds(current);
      OrdinalSucc(probe);
      if Hit(mode, probe) {
        count := count + 1;
      }
      probe := Succ(probe);
    }
  }

  /** No year from `y1` through `y2` is divisible by 400. */
  predicate NoMultipleOf400(y1: int, y2: int)
    decreases y2 - y1
  {
    y1 > y2 || (y1 % 400 != 0 && NoMultipleOf400(y1 + 1, y2))
  }

  // ---------------------------------------------------------------------------
  // Lemmas

  /** Extending the scanned range by its next day adds that day's test result. */
  lemma {:induction false} ScanSnoc(mode: LeapDeduction, a: Date, b: Date)
    requires Valid(a) && Valid(b) && b != MaxDate && Ordinal(a) <= Ordinal(b)
    ensures ScanCount(mode, a, Succ(b)) == ScanCount(mode, a, b) + (if Hit(mode, b) then 1 else 0)
    decreases Ordinal(b) - Ordinal(a)
  {
    OrdinalOrder(a, b);
    OrdinalSucc(b);
    OrdinalOrder(a, Succ(b));
    OrdinalBounds(b);
    if a == b {
      OrdinalOrder(Succ(a), Succ(b));
    } else {
      OrdinalSucc(a);
      OrdinalOrder(Succ(a), b);
      ScanSnoc(mode, Succ(a), b);
    }
  }

  /** A scan over two adjacent ranges counts the hits of each. */
  lemma {:induction false} ScanSplit(mode: LeapDeduction, a: Date, b: Date, c: Date)
    requires Valid(a) && Valid(b) && Valid(c) && Ordinal(a) <= Ordinal(b) <= Ordinal(c)
    ensures ScanCount(mode, a, c) == ScanCount(mode, a, b) + ScanCount(mode, b, c)
    decreases Ordinal(b) - Ordinal(a)
  {
    OrdinalOrder(a, b);
    OrdinalOrder(a, c);
    if a != b {
      OrdinalBounds(c);
      OrdinalSucc(a);
      OrdinalOrder(Succ(a), b);
      ScanSplit(mode, Succ(a), b, c);
    }
  }

  /** On a day of a year not divisible by 400 the quirky test is the Leap Day test. */
  lemma QuirkOutside400(d: Date)
    requires d.year % 400 != 0
    ensures Hit(PrecedenceQuirk, d) <==> IsLeapDay(d)
  {
  }

  /**
   * When no scanned year is divisible by 400, the quirky scan counts exactly the Leap
   * Days of the scanned range.
   */
  lemma {:induction false} QuirkCountsLeapDays(a: Date, b: Date)
    requires Valid(a) && Valid(b) && NoMultipleOf400(a.year, b.year)
    ensures ScanCount(PrecedenceQuirk, a, b) == ScanCount(LeapDaysOnly, a, b)
    decreases Ordinal(b) - Ordinal(a)
  {
    OrdinalOrder(a, b);
    if Before(a, b) {
      OrdinalBounds(b);
      OrdinalSucc(a);
      var a' := Succ(a);
      assert a.year % 400 != 0;
      if a'.year != a.year {
        assert a'.year == a.year + 1;
      }
      assert NoMultipleOf400(a'.year, b.year);
      OrdinalOrder(a', b);
      QuirkCountsLeapDays(a', b);
    }
  }

  /** Where June 21 and December 21 of year `y + 1` fall, counted from December 22 of `y`. */
  lemma EpochOffsets(y: int)
    requires MinYear <= y < MaxYear
    ensures Ordinal(Date(y + 1, 6, 21)) == Ordinal(Date(y, 12, 22)) + 181 + (if IsLeapYear(y + 1) then 1 else 0)
    ensures Ordinal(Date(y + 1, 12, 21)) == Ordinal(Date(y, 12, 22)) + 364 + (if IsLeapYear(y + 1) then 1 else 0)
  {
    DaysBeforeNextYear(y);
  }

  /**
   * In the epoch that starts on December 22 of year `y`, the corrected scan from its
   * start counts the Leap Day of year `y + 1` (182 days after the start) once it is
   * passed, and nothing else.
   */
  lemma {:induction false} LeapDaysInEpoch(y: int, k: nat)
    requires MinYear <= y < MaxYear && k <= 364
    ensures Ordinal(Date(y, 12, 22)) + k <= MaxOrdinal
    ensures ScanCount(LeapDaysOnly, Date(y, 12, 22), DayAfter(Date(y, 12, 22), k)) ==
            if IsLeapYear(y + 1) && 182 < k then 1 else 0
  {
    var e := Date(y, 12, 22);
    EpochOffsets(y);
    OrdinalBounds(Date(y + 1, 12, 21));
    if k > 0 {
      var p := DayAfter(e, k - 1);
      var before := if IsLeapYear(y + 1) && 182 < k - 1 then 1 else 0;
      assert ScanCount(LeapDaysOnly, e, p) == before by {
        LeapDaysInEpoch(y, k - 1);
      }
      assert ScanCount(LeapDaysOnly, e, DayAfter(e, k)) ==
             before + (if IsLeapDay(p) then 1 else 0) by {
        assert DayAfter(e, k) == Succ(p);
        OrdinalBounds(p);
        ScanSnoc(LeapDaysOnly, e, p);
      }
      assert IsLeapDay(p) <==> IsLeapYear(y + 1) && k - 1 == 182 by {
        LeapDayOfEpoch(y, p);
      }
    }
  }

  /** `LeapDaysInEpoch`, stated for a date rather than a day offset. */
  lemma LeapDaysSinceEpochStart(y: int, d: Date)
    requires MinYear <= y < MaxYear && Valid(d)
    requires Ordinal(Date(y, 12, 22)) <= Ordinal(d) <= Ordinal(Date(y, 12, 22)) + 364
    ensures ScanCount(LeapDaysOnly, Date(y, 12, 22), d) ==
            if IsLeapYear(y + 1) && Ordinal(Date(y, 12, 22)) + 182 < Ordinal(d) then 1 else 0
  {
    var e := Date(y, 12, 22);
    var k := Ordinal(d) - Ordinal(e);
    LeapDaysInEpoch(y, k);
    OrdinalInjective(DayAfter(e, k), d);
  }

  /** The only Leap Day among the 365 days from December 22 of `y` on is 182 days later. */
  lemma LeapDayOfEpoch(y: int, p: Date)
    requires MinYear <= y < MaxYear && Valid(p)
    requires Ordinal(Date(y, 12, 22)) <= Ordinal(p) <= Ordinal(Date(y, 12, 22)) + 364
    ensures IsLeapDay(p) <==> IsLeapYear(y + 1) && Ordinal(p) == Ordinal(Date(y, 12, 22)) + 182
  {
    var e, last, leap := Date(y, 12, 22), Date(y + 1, 12, 21), Date(y + 1, 6, 21);
    EpochOffsets(y);
    OrdinalOrder(p, e);
    OrdinalOrder(last, p);
    assert y <= p.year <= y + 1;
    if IsLeapDay(p) {
      assert p.year == y + 1;
    }
    OrdinalOrder(leap, p);
  }

  /** January 1 follows December 22 of the year before by ten days. */
  lemma NewYearOrdinal(y: int)
    requires MinYear <= y
    ensures Ordinal(Date(y + 1, 1, 1)) == Ordinal(Date(y, 12, 22)) + 10
  {
    DaysBeforeNextYear(y);
  }

  /** Neither scan deducts anything from December 22 to the end of a year not divisible by 400. */
  lemma QuirkQuietDecember(y: int)
    requires MinYear <= y < MaxYear && y % 400 != 0
    ensures ScanCount(PrecedenceQuirk, Date(y, 12, 22), Date(y + 1, 1, 1)) == 0
  {
    var e, dec31 := Date(y, 12, 22), Date(y, 12, 31);
    assert ScanCount(PrecedenceQuirk, e, dec31) == 0 by {
      assert NoMultipleOf400(y, y);
      QuirkCountsLeapDays(e, dec31);
      LeapDaysSinceEpochStart(y, dec31);
    }
    assert Succ(dec31) == Date(y + 1, 1, 1);
    assert !Hit(PrecedenceQuirk, dec31);
    OrdinalOrder(e, dec31);
    ScanSnoc(PrecedenceQuirk, e, dec31);
  }

  /**
   * In a year `y` divisible by 400 (2000, say) the quirky test counts every one of the ten
   * days from December 22 to December 31, none of which is a Leap Day.
   */
  lemma QuirkLoudDecember(y: int)
    requires MinYear <= y < MaxYear && y % 400 == 0
    ensures ScanCount(PrecedenceQuirk, Date(y, 12, 22), Date(y + 1, 1, 1)) == 10
    ensures ScanCount(LeapDaysOnly, Date(y, 12, 22), Date(y + 1, 1, 1)) == 0
  {
    var e, dec31 := Date(y, 12, 22), Date(y, 12, 31);
    QuirkDecemberRun(y, 31);
    assert Succ(dec31) == Date(y + 1, 1, 1);
    OrdinalOrder(e, dec31);
    ScanSnoc(PrecedenceQuirk, e, dec31);
    LeapDaysSinceEpochStart(y, Date(y + 1, 1, 1));
  }

  /** The quirky scan of a year divisible by 400 from December 22 up to December `k` counts every day. */
  lemma {:induction false} QuirkDecemberRun(y: int, k: int)
    requires MinYear <= y <= MaxYear && y % 400 == 0 && 22 <= k <= 31
    ensures ScanCount(PrecedenceQuirk, Date(y, 12, 22), Date(y, 12, k)) == k - 22
    decreases k
  {
    var e := Date(y, 12, 22);
    if k == 22 {
      assert !Before(e, e);
    } else {
      var prev := Date(y, 12, k - 1);
      QuirkDecemberRun(y, k - 1);
      assert Succ(prev) == Date(y, 12, k);
      OrdinalOrder(e, prev);
      ScanSnoc(PrecedenceQuirk, e, prev);
    }
  }

  /**
   * The quirky test counts January 1 of a year `y + 1` divisible by 400 (2000, say),
   * which is no Leap Day: scanning from December 22 of `y` up to January 2 deducts one
   * day where the intended test deducts none.
   */
  lemma QuirkCountsNewYearsDay(y: int)
    requires MinYear <= y < MaxYear && (y + 1) % 400 == 0
    ensures Hit(PrecedenceQuirk, Date(y + 1, 1, 1)) && !IsLeapDay(Date(y + 1, 1, 1))
    ensures ScanCount(PrecedenceQuirk, Date(y, 12, 22), Date(y + 1, 1, 1)) == 0
    ensures ScanCount(PrecedenceQuirk, Date(y, 12, 22), Date(y + 1, 1, 2)) == 1
    ensures ScanCount(LeapDaysOnly, Date(y, 12, 22), Date(y + 1, 1, 2)) == 0
  {
    var e, jan1, jan2 := Date(y, 12, 22), Date(y + 1, 1, 1), Date(y + 1, 1, 2);
    NewYearOrdinal(y);
    assert y % 400 != 0;
    QuirkQuietDecember(y);
    assert Succ(jan1) == jan2;
    OrdinalOrder(e, jan1);
    ScanSnoc(PrecedenceQuirk, e, jan1);
    LeapDaysSinceEpochStart(y, jan2);
  }
}
