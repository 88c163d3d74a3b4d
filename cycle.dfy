/**
 * The regular 364-day cycle of the perpetual calendar: 4 seasons of 13 weeks of 7 days.
 * A day's zero-based position in the cycle (`days_into_cycle`) determines its day name,
 * its week of the whole cycle (1 to 52), its season and its week within the season.
 */
module Cycle {

  const DaysPerWeek := 7
  const WeeksPerSeason := 13
  const SeasonCount := 4
  const CycleLength := 364

  /** The perpetual coordinates of one regular day. */
  datatype Slot = Slot(dayIndex: int, week: int, seasonIndex: int, weekInSeason: int)

  predicate ValidSlot(s: Slot) {
    0 <= s.dayIndex < DaysPerWeek &&
    0 <= s.seasonIndex < SeasonCount &&
    1 <= s.weekInSeason <= WeeksPerSeason &&
    s.week == WeeksPerSeason * s.seasonIndex + s.weekInSeason
  }

  /** The coordinates of cycle position `daysIntoCycle`, computed as the scripts do. */
  function Locate(daysIntoCycle: int): (s: Slot)
    requires 0 <= daysIntoCycle < CycleLength
    ensures ValidSlot(s) && 1 <= s.week <= 52
    ensures daysIntoCycle == DaysPerWeek * (s.week - 1) + s.dayIndex
  {
    var dayIndex := daysIntoCycle % 7;
    var week := daysIntoCycle / 7 + 1;
    var seasonIndex := (week - 1) / 13;
    var weekInSeason := (week - 1) % 13 + 1;
    Slot(dayIndex, week, seasonIndex, weekInSeason)
  }

  /** The cycle position of a slot: the inverse of `Locate`. */
  function Position(s: Slot): (p: int)
    requires ValidSlot(s)
    ensures 0 <= p < CycleLength
  {
    DaysPerWeek * (s.week - 1) + s.dayIndex
  }

  /** Every slot of the cycle is reached by exactly one position in it. */
  lemma LocatePosition(s: Slot)
    requires ValidSlot(s)
    ensures Locate(Position(s)) == s
  {
    var p := Position(s);
    var t := Locate(p);
    WeekDecomposition(s.week - 1, s.dayIndex, t.week - 1, t.dayIndex);
    SeasonDecomposition(s.week - 1, s.seasonIndex, s.weekInSeason - 1, t.seasonIndex, t.weekInSeason - 1);
  }

  /** Distinct positions of the cycle have distinct slots. */
  lemma LocateInjective(p: int, q: int)
    requires 0 <= p < CycleLength && 0 <= q < CycleLength
    requires Locate(p) == Locate(q)
    ensures p == q
  {
  }

  /** Each position is the position of its own slot. */
  lemma PositionLocate(p: int)
    requires 0 <= p < CycleLength
    ensures Position(Locate(p)) == p
  {
  }

  /** The first day of the cycle and the last one: the first day name of Week 1 and the last of Week 52. */
  lemma EndSlots()
    ensures Locate(0) == Slot(0, 1, 0, 1)
    ensures Locate(363) == Slot(6, 52, 3, 13)
  {
  }

  /** Season `k` begins `91 k` days into the cycle, on the first day name of Week `13 k + 1`. */
  lemma SeasonStartSlot(k: int)
    requires 0 <= k <= 3
    ensures Locate(91 * k) == Slot(0, 13 * k + 1, k, 1)
  {
    if k == 0 {
      assert Locate(0) == Slot(0, 1, 0, 1);
    } else if k == 1 {
      assert Locate(91) == Slot(0, 14, 1, 1);
    } else if k == 2 {
      assert Locate(182) == Slot(0, 27, 2, 1);
    } else {
      assert Locate(273) == Slot(0, 40, 3, 1);
    }
  }

  lemma WeekDecomposition(w1: int, d1: int, w2: int, d2: int)
    requires 0 <= d1 < 7 && 0 <= d2 < 7 && 7 * w1 + d1 == 7 * w2 + d2
    ensures w1 == w2 && d1 == d2
  {
  }

  lemma SeasonDecomposition(w: int, s1: int, k1: int, s2: int, k2: int)
    requires 0 <= k1 < 13 && 0 <= k2 < 13
    requires w == 13 * s1 + k1 && w == 13 * s2 + k2
    ensures s1 == s2 && k1 == k2
  {
  }

  lemma CycleSucc(n: int)
    ensures (n + 1) % CycleLength == (n % CycleLength + 1) % CycleLength
  {
  }

  /** Shifting a day count by `k` shifts its position by `k`, modulo the cycle. */
  lemma CycleShift(n: int, k: int)
    ensures (n + k) % CycleLength == (n % CycleLength + k) % CycleLength
  {
    var q := n / CycleLength;
    assert n == CycleLength * q + n % CycleLength;
    assert n + k == CycleLength * q + (n % CycleLength + k);
    ModMultiple(q, n % CycleLength + k);
  }

  /** One day on, less `h` deducted days, taken modulo the cycle before or after. */
  lemma CycleStepArith(t: int, h: int)
    ensures (t + 1 - h) % CycleLength == (t % CycleLength + 1 - h) % CycleLength
  {
    CycleShift(t, 1 - h);
  }

  /** A position already in the cycle is its own remainder. */
  lemma CycleReduced(n: int)
    requires 0 <= n < CycleLength
    ensures n % CycleLength == n
  {
  }

  lemma ModMultiple(q: int, r: int)
    ensures (CycleLength * q + r) % CycleLength == r % CycleLength
  {
  }
}
