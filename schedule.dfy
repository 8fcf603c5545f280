/**
 * Integer date arithmetic of the coupon-schedule reconstruction: the
 * backward walk from maturity in 365-day steps and the quantities derived
 * from the date it stops at. An instant is a count of microseconds, the
 * resolution of Python's datetime; a maturity date parsed from
 * 'YYYY-MM-DD' is the midnight that opens its day.
 */
module Schedule {
  import opened Outcomes

  /** Microseconds in one day. */
  const DAY: int := 86_400_000_000

  /** timedelta(days=365), the fixed step of the backward walk. */
  const YEAR: int := 365 * DAY

  /** The instant that opens day number `day`. */
  function Midnight(day: int): int
  {
    day * DAY
  }

  /** Whole days from `earlier` to `later`, rounded down: a time difference keeps whole days and a nonnegative remainder. */
  function Days(later: int, earlier: int): (d: int)
    ensures d * DAY <= later - earlier < d * DAY + DAY
  {
    (later - earlier) / DAY
  }

  /** How many passes the backward walk makes from `from`: it steps back 365 days while the date is still after today. */
  function Steps(from: int, today: int): nat
    decreases from - today
  {
    if from <= today then 0 else 1 + Steps(from - YEAR, today)
  }

  /**
   * The walk runs exactly as long as the date is after today, and it
   * stops at the first date of the 365-day grid through `from` that is not.
   */
  lemma {:induction false} StepsBracket(from: int, today: int)
    ensures Steps(from, today) == 0 <==> from <= today
    ensures from > today ==>
      from - Steps(from, today) * YEAR <= today < from - (Steps(from, today) - 1) * YEAR
    decreases from - today
  {
    if from > today {
      StepsBracket(from - YEAR, today);
    }
  }

  /**
   * The next coupon date the walk leaves behind: the last of maturity,
   * maturity - 365 days, ... that is still after today, or nothing when the
   * walk never starts and the attribute is never assigned.
   */
  function NextCouponDate(maturity: int, today: int): (c: Option<int>)
    ensures c.None? <==> maturity <= today
    ensures c.Some? ==> today < c.value <= today + YEAR && c.value <= maturity
    ensures c.Some? ==> (maturity - c.value) % YEAR == 0
  {
    StepsBracket(maturity, today);
    var k := Steps(maturity, today);
    if k == 0 then None else Some(maturity - (k - 1) * YEAR)
  }

  /** The least whole number of 365-day years covering `days`. */
  function CeilYears(days: int): (n: int)
    ensures (n - 1) * 365 < days <= n * 365
  {
    (days + 364) / 365
  }

  /** Whole days to maturity, in 365-day years. */
  function YearsToMaturity(maturity: int, today: int): real
  {
    Days(maturity, today) as real / 365.0
  }

  /** The elapsed fraction of the current coupon year: 365 less the whole days to the next coupon, over 365. */
  function YearsSinceLastCoupon(couponDate: int, today: int): real
  {
    (365 - Days(couponDate, today)) as real / 365.0
  }

  /** The number of periods: whole days to maturity, rounded up to whole 365-day years. */
  function Periods(maturity: int, today: int): int
  {
    CeilYears(Days(maturity, today))
  }

  /**
   * The time offsets of the cash flows: one per period, starting at the
   * years to the next coupon and one year apart.
   */
  function TimePeriods(couponDate: int, today: int, periods: int): (ts: seq<real>)
    ensures |ts| == if periods < 0 then 0 else periods
    ensures |ts| > 0 ==> ts[0] == Days(couponDate, today) as real / 365.0
    ensures forall i :: 0 <= i < |ts| - 1 ==> ts[i + 1] == ts[i] + 1.0
  {
    var base := Days(couponDate, today) as real / 365.0;
    seq(if periods < 0 then 0 else periods, i => base + i as real)
  }

  /** Whole days from today to the next coupon are the days to maturity less the whole 365-day steps walked back. */
  lemma {:induction false} DaysToNextCoupon(maturity: int, today: int)
    requires today < maturity
    ensures Days(NextCouponDate(maturity, today).value, today)
         == Days(maturity, today) - 365 * (Steps(maturity, today) - 1)
  {
    var k := Steps(maturity, today);
    var c := NextCouponDate(maturity, today).value;
    assert c == maturity - (k - 1) * YEAR;
    var d, dc := Days(maturity, today), Days(c, today);
    assert (dc + 365 * (k - 1)) * DAY <= maturity - today < (dc + 365 * (k - 1)) * DAY + DAY;
    UniqueDays(d, dc + 365 * (k - 1), maturity - today);
  }

  lemma UniqueDays(a: int, b: int, x: int)
    requires a * DAY <= x < a * DAY + DAY
    requires b * DAY <= x < b * DAY + DAY
    ensures a == b
  {
  }

  /**
   * The period count equals the passes of the walk, except when today has a time
   * of day and the whole days to maturity are an exact multiple of 365:
   * then the day count drops the fraction of a day that made the walk take
   * one more step, and the period count is one short.
   */
  lemma {:induction false} PeriodsAndSteps(maturity: int, today: int)
    requires maturity % DAY == 0 && today < maturity
    ensures Periods(maturity, today)
        == if today % DAY != 0 && Days(maturity, today) % 365 == 0
           then Steps(maturity, today) - 1
           else Steps(maturity, today)
  {
    var k, d, p := Steps(maturity, today), Days(maturity, today), Periods(maturity, today);
    StepsBracket(maturity, today);
    assert (k - 1) * 365 * DAY < maturity - today <= k * 365 * DAY;
    if today % DAY == 0 {
      assert maturity - today == d * DAY;
      assert (k - 1) * 365 < d <= k * 365;
    } else {
      assert d * DAY < maturity - today;
      assert (k - 1) * 365 <= d < k * 365;
    }
  }

  /**
   * The period count is 0 exactly when maturity is less than a day away: today has
   * a time of day and the day count to maturity is 0.
   */
  lemma PeriodsZero(maturity: int, today: int)
    requires maturity % DAY == 0 && today < maturity
    ensures 0 <= Periods(maturity, today)
    ensures Periods(maturity, today) == 0 <==> maturity - DAY < today
  {
  }

  /**
   * The last time offset is the years to maturity, except in the case where
   * the period count is one short of the walk: then the final flow sits one year
   * before maturity.
   */
  lemma FinalOffset(maturity: int, today: int)
    requires maturity % DAY == 0 && today < maturity
    requires 1 <= Periods(maturity, today)
    ensures var p := Periods(maturity, today);
      var ts := TimePeriods(NextCouponDate(maturity, today).value, today, p);
      ts[p - 1] == if today % DAY != 0 && Days(maturity, today) % 365 == 0
                   then YearsToMaturity(maturity, today) - 1.0
                   else YearsToMaturity(maturity, today)
  {
    var k, d, p := Steps(maturity, today), Days(maturity, today), Periods(maturity, today);
    PeriodsAndSteps(maturity, today);
    DaysToNextCoupon(maturity, today);
    var dc := Days(NextCouponDate(maturity, today).value, today);
    assert dc == d - 365 * (k - 1);
    assert (dc as real) / 365.0 + (p - 1) as real == (d as real) / 365.0 + (p - k) as real;
  }

  /**
   * Whole days to the next coupon lie in [0, 365], so the accrued fraction
   * of the current coupon lies in [0, 1]; it is 0 exactly when today is
   * the midnight one 365-day step before the next coupon.
   */
  lemma AccruedFraction(maturity: int, today: int)
    requires maturity % DAY == 0 && today < maturity
    ensures var c := NextCouponDate(maturity, today).value;
      0 <= Days(c, today) <= 365 &&
      0.0 <= YearsSinceLastCoupon(c, today) <= 1.0 &&
      (YearsSinceLastCoupon(c, today) == 0.0 <==> today == c - YEAR && today % DAY == 0)
  {
    var c := NextCouponDate(maturity, today).value;
    var k := Steps(maturity, today);
    assert c == maturity - (k - 1) * YEAR;
    assert c == (maturity / DAY - 365 * (k - 1)) * DAY;
  }

  /**
   * With the next coupon after today the offsets start at a nonnegative
   * value and every offset lies between the first and the last.
   */
  lemma TimePeriodsRange(couponDate: int, today: int, periods: int)
    requires today < couponDate && 1 <= periods
    ensures var ts := TimePeriods(couponDate, today, periods);
      0.0 <= ts[0] &&
      forall i :: 0 <= i < |ts| ==> ts[0] <= ts[i] <= ts[|ts| - 1]
  {
  }

  /**
   * One calendar year from 2024-01-18 (day 19740 after 1970-01-01) to
   * 2025-01-18 (day 20106) spans 366 days because of 29 February: at
   * midnight today the schedule has two periods, the first a single day
   * away, and 364/365 of the current coupon counts as accrued.
   */
  lemma LeapYearAtMidnight()
    ensures var maturity, today := Midnight(20106), Midnight(19740);
      var c := NextCouponDate(maturity, today);
      c == Some(Midnight(19741)) &&
      Periods(maturity, today) == 2 &&
      TimePeriods(c.value, today, 2) == [1.0 / 365.0, 1.0 + 1.0 / 365.0] &&
      YearsSinceLastCoupon(c.value, today) == 364.0 / 365.0
  {
    var maturity, today := Midnight(20106), Midnight(19740);
    assert Steps(maturity - 2 * YEAR, today) == 0;
    assert Steps(maturity - YEAR, today) == 1;
    assert Days(Midnight(19741), today) == 1;
    var ts := TimePeriods(Midnight(19741), today, 2);
    assert ts[0] == 1.0 / 365.0 && ts[1] == 1.0 + 1.0 / 365.0;
    assert NextCouponDate(maturity, today) == Some(Midnight(19741));
    assert Periods(maturity, today) == 2;
    assert ts == [1.0 / 365.0, 1.0 + 1.0 / 365.0];
  }

  /**
   * The same dates with today at noon: one period, whose single flow sits
   * at offset 0 (today's date is one day short of the next coupon), with
   * the accrued fraction a full year.
   */
  lemma LeapYearAtNoon()
    ensures var maturity, today := Midnight(20106), Midnight(19740) + DAY / 2;
      var c := NextCouponDate(maturity, today);
      c == Some(Midnight(19741)) &&
      Periods(maturity, today) == 1 &&
      TimePeriods(c.value, today, 1) == [0.0] &&
      YearsSinceLastCoupon(c.value, today) == 1.0
  {
    var maturity, today := Midnight(20106), Midnight(19740) + DAY / 2;
    assert Steps(maturity - 2 * YEAR, today) == 0;
    assert Steps(maturity - YEAR, today) == 1;
  }
}
