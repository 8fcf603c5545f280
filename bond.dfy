/**
 * The bond valuation engine: a calculator object whose constructor
 * reconstructs the annual coupon schedule from the maturity date and today,
 * and whose read-only queries discount the cash flows at the flat yield and
 * derive price, modified duration, convexity and elasticity from them.
 */
module Bond {
  import opened Outcomes
  import opened Schedule
  import opened Series

  /** The five outputs of a valuation. */
  datatype Metrics = Metrics(
    cleanPrice: real,
    dirtyPrice: real,
    modifiedDuration: real,
    convexity: real,
    elasticity: real)

  class BondCalculator {
    const principal: real
    const couponRate: real        // annual, as a fraction
    const ytm: real               // annual yield to maturity, as a fraction
    const maturityDate: int       // instant, always a midnight
    const todayDate: int          // instant, with its time of day

    var couponDate: Option<int>   // None while the attribute is unassigned
    var yearsToMaturity: real
    var yearsSinceLastCoupon: real
    var periods: int
    var timePeriods: seq<real>

    /** The state the constructor leaves: every schedule field as the date arithmetic defines it. */
    ghost predicate Valid()
      reads this
    {
      maturityDate % DAY == 0 &&
      couponDate == NextCouponDate(maturityDate, todayDate) &&
      couponDate.Some? &&
      yearsToMaturity == YearsToMaturity(maturityDate, todayDate) &&
      yearsSinceLastCoupon == YearsSinceLastCoupon(couponDate.value, todayDate) &&
      periods == Periods(maturityDate, todayDate) &&
      timePeriods == TimePeriods(couponDate.value, todayDate, periods)
    }

    /**
     * Takes the rates as percentages and the maturity as a day number;
     * `today` replaces the clock read. When maturity is not after today the
     * source raises AttributeError here (see FindNextCouponDate).
     */
    constructor (principal: real, couponRate: real, ytm: real, maturityDay: int, today: int)
      requires today < Midnight(maturityDay)
      ensures this.principal == principal
      ensures this.couponRate == couponRate / 100.0 && this.ytm == ytm / 100.0
      ensures maturityDate == Midnight(maturityDay) && todayDate == today
      ensures Valid()
    {
      this.principal := principal;
      this.couponRate := couponRate / 100.0;
      this.ytm := ytm / 100.0;
      maturityDate := Midnight(maturityDay);
      todayDate := today;
      couponDate := None;
      new;
      var outcome := FindNextCouponDate();
      assert outcome == Pass;
      CalculateTimePeriods();
    }

    /**
     * Walks back from maturity in 365-day steps, keeping the last date still
     * after today. When the walk never starts, the attribute stays unset and
     * the comparison that follows raises AttributeError. The forward
     * correction after the loop can never fire.
     */
    method FindNextCouponDate() returns (outcome: Outcome)
      requires couponDate.None?
      modifies this`couponDate
      ensures couponDate == NextCouponDate(maturityDate, todayDate)
      ensures outcome == if maturityDate <= todayDate then Fail(AttributeError) else Pass
    {
      var tempDate := maturityDate;
      ghost var passes: nat := 0;
      while tempDate > todayDate
        invariant tempDate == maturityDate - passes * YEAR
        invariant passes + Steps(tempDate, todayDate) == Steps(maturityDate, todayDate)
        invariant couponDate == if passes == 0 then None else Some(tempDate + YEAR)
        decreases tempDate - todayDate
      {
        couponDate := Some(tempDate);
        tempDate := tempDate - YEAR;
        passes := passes + 1;
      }
      assert Steps(tempDate, todayDate) == 0;
      assert couponDate == NextCouponDate(maturityDate, todayDate);
      match couponDate
      case None =>
        outcome := Fail(AttributeError);
      case Some(date) =>
        assert todayDate < date;
        couponDate := Some(if date <= todayDate then date + YEAR else date);
        outcome := Pass;
    }

    /** Derives the years to maturity, the accrued fraction, the period count and the time offsets. */
    method CalculateTimePeriods()
      requires couponDate.Some?
      modifies this`yearsToMaturity, this`yearsSinceLastCoupon, this`periods, this`timePeriods
      ensures yearsToMaturity == YearsToMaturity(maturityDate, todayDate)
      ensures yearsSinceLastCoupon == YearsSinceLastCoupon(couponDate.value, todayDate)
      ensures periods == Periods(maturityDate, todayDate)
      ensures timePeriods == TimePeriods(couponDate.value, todayDate, periods)
    {
      yearsToMaturity := YearsToMaturity(maturityDate, todayDate);
      yearsSinceLastCoupon := YearsSinceLastCoupon(couponDate.value, todayDate);
      periods := Periods(maturityDate, todayDate);
      timePeriods := TimePeriods(couponDate.value, todayDate, periods);
    }

    /**
     * The cash flows: one coupon for each period but the last (none when
     * there is at most one period), then the principal with the last coupon.
     */
    function GenerateCashFlows(): (cashFlows: seq<real>)
      reads this
      ensures |cashFlows| == if periods >= 1 then periods else 1
      ensures forall i :: 0 <= i < |cashFlows| - 1 ==> cashFlows[i] == principal * couponRate
      ensures cashFlows[|cashFlows| - 1] == principal * (1.0 + couponRate)
    {
      seq(if periods - 1 < 0 then 0 else periods - 1, _ => principal * couponRate)
        + [principal * (1.0 + couponRate)]
    }

    /** The present values of the cash flows, shared by the price and the duration. */
    function Discounted(pow: Power): (pvs: seq<real>)
      reads this
      requires 0.0 < 1.0 + ytm && PositivePower(pow)
    {
      PresentValues(GenerateCashFlows(), timePeriods, 1.0 + ytm, pow)
    }

    /**
     * The clean and the dirty price. The dirty price is the sum of the
     * present values and the clean price is the dirty price less the accrued
     * interest, the elapsed fraction of the current coupon.
     */
    function CalculatePrice(pow: Power): (prices: (real, real))
      reads this
      requires 0.0 < 1.0 + ytm && PositivePower(pow)
      ensures prices.1 == Sum(Discounted(pow))
      ensures prices.0 == prices.1 - yearsSinceLastCoupon * principal * couponRate
      ensures Valid() && 0.0 <= principal && 0.0 <= couponRate ==>
        prices.0 <= prices.1 <= prices.0 + principal * couponRate
    {
      AccruedInterestBounds();
      var dirtyPrice := Sum(Discounted(pow));
      var accruedInterest := yearsSinceLastCoupon * principal * couponRate;
      (dirtyPrice - accruedInterest, dirtyPrice)
    }

    /**
     * The Macaulay duration, the present-value-weighted average offset, or the ZeroDivisionError
     * Python raises when the present values add up to 0.
     */
    function MacaulayDuration(pow: Power): (r: Result<real>)
      reads this
      requires 0.0 < 1.0 + ytm && PositivePower(pow)
      ensures r.Err? <==> Sum(Discounted(pow)) == 0.0
      ensures r.Err? ==> r.error == ZeroDivisionError
      ensures r.Ok? ==> r.value * Sum(Discounted(pow)) == Sum(Weighted(Discounted(pow), timePeriods))
    {
      var pvs := Discounted(pow);
      if Sum(pvs) == 0.0 then Err(ZeroDivisionError)
      else Ok(Sum(Weighted(pvs, timePeriods)) / Sum(pvs))
    }

    /** The modified duration: the Macaulay duration divided by 1 + ytm. */
    function CalculateModifiedDuration(pow: Power): (r: Result<real>)
      reads this
      requires 0.0 < 1.0 + ytm && PositivePower(pow)
      ensures r.Ok? == MacaulayDuration(pow).Ok?
      ensures r.Err? ==> r.error == ZeroDivisionError
      ensures r.Ok? ==> r.value * (1.0 + ytm) == MacaulayDuration(pow).value
    {
      match MacaulayDuration(pow)
      case Err(e) => Err(e)
      case Ok(macaulay) => Ok(macaulay / (1.0 + ytm))
    }

    /**
     * The convexity: the sum of the convexity terms over the dirty price
     * times the square of 1 + ytm (taken with the same power function), or
     * ZeroDivisionError when the dirty price is 0.
     */
    function CalculateConvexity(pow: Power): (r: Result<real>)
      reads this
      requires 0.0 < 1.0 + ytm && PositivePower(pow)
      ensures r.Err? <==> CalculatePrice(pow).1 == 0.0
      ensures r.Err? ==> r.error == ZeroDivisionError
      ensures r.Ok? ==> r.value * (CalculatePrice(pow).1 * pow(1.0 + ytm, 2.0))
                        == Sum(ConvexityTerms(GenerateCashFlows(), timePeriods, 1.0 + ytm, pow))
    {
      var dirtyPrice := CalculatePrice(pow).1;
      var components := ConvexityTerms(GenerateCashFlows(), timePeriods, 1.0 + ytm, pow);
      PowerPositive(pow, 1.0 + ytm, 2.0);
      var denominator := dirtyPrice * pow(1.0 + ytm, 2.0);
      DenominatorZero(dirtyPrice, pow(1.0 + ytm, 2.0));
      if denominator == 0.0 then Err(ZeroDivisionError)
      else Ok(Sum(components) / denominator)
    }

    /**
     * The elasticity: the absolute modified duration times 1 + ytm, which in exact
     * arithmetic is the absolute Macaulay duration.
     */
    function CalculateElasticity(pow: Power): (r: Result<real>)
      reads this
      requires 0.0 < 1.0 + ytm && PositivePower(pow)
      ensures r.Ok? == MacaulayDuration(pow).Ok?
      ensures r.Err? ==> r.error == ZeroDivisionError
      ensures r.Ok? ==> r.value == Abs(MacaulayDuration(pow).value)
    {
      match CalculateModifiedDuration(pow)
      case Err(e) => Err(e)
      case Ok(modified) =>
        assert modified * (1.0 + ytm) == MacaulayDuration(pow).value;
        Ok(Abs(modified * (1.0 + ytm)))
    }

    /**
     * All five outputs, or the ZeroDivisionError that the
     * duration raises first, exactly when the dirty price is 0.
     */
    function GetAllMetrics(pow: Power): (r: Result<Metrics>)
      reads this
      requires 0.0 < 1.0 + ytm && PositivePower(pow)
      ensures r.Err? <==> CalculatePrice(pow).1 == 0.0
      ensures r.Err? ==> r.error == ZeroDivisionError
      ensures r.Ok? ==>
        r.value.cleanPrice == CalculatePrice(pow).0 && r.value.dirtyPrice == CalculatePrice(pow).1 &&
        CalculateModifiedDuration(pow) == Ok(r.value.modifiedDuration) &&
        CalculateConvexity(pow) == Ok(r.value.convexity) &&
        CalculateElasticity(pow) == Ok(r.value.elasticity)
    {
      var prices := CalculatePrice(pow);
      match CalculateModifiedDuration(pow)
      case Err(e) => Err(e)
      case Ok(modifiedDuration) =>
        // the convexity and the elasticity fail exactly when the duration does
        Ok(Metrics(prices.0, prices.1, modifiedDuration,
                   CalculateConvexity(pow).value, CalculateElasticity(pow).value))
    }

    /**
     * For a nonnegative principal and coupon rate the accrued interest lies
     * between 0 and one full coupon, so the clean price is at most the
     * dirty price and at most one coupon below it; with a positive coupon
     * the two prices agree exactly when today is the midnight one 365-day
     * step before the next coupon.
     */
    lemma PriceBounds(pow: Power)
      requires Valid() && 0.0 < 1.0 + ytm && PositivePower(pow)
      requires 0.0 <= principal && 0.0 <= couponRate
      ensures CalculatePrice(pow).0 <= CalculatePrice(pow).1 <= CalculatePrice(pow).0 + principal * couponRate
      ensures 0.0 < principal * couponRate ==>
        (CalculatePrice(pow).0 == CalculatePrice(pow).1 <==>
         todayDate == couponDate.value - YEAR && todayDate % DAY == 0)
    {
      AccruedInterestBounds();
    }

    /**
     * The accrued interest lies between 0 and one full coupon; with a
     * positive coupon it is 0 exactly when today is the midnight one 365-day
     * step before the next coupon.
     */
    lemma AccruedInterestBounds()
      ensures Valid() && 0.0 <= principal && 0.0 <= couponRate ==>
        0.0 <= yearsSinceLastCoupon * principal * couponRate <= principal * couponRate
      ensures Valid() && 0.0 <= principal && 0.0 <= couponRate && 0.0 < principal * couponRate ==>
        (yearsSinceLastCoupon * principal * couponRate == 0.0 <==>
         todayDate == couponDate.value - YEAR && todayDate % DAY == 0)
    {
      if Valid() && 0.0 <= principal && 0.0 <= couponRate {
        AccruedFraction(maturityDate, todayDate);
        AccruedBounds(yearsSinceLastCoupon, principal, couponRate);
        AccruedZero(yearsSinceLastCoupon, principal, couponRate);
      }
    }

    /** The cash flows of a bond with positive principal and nonnegative coupon are nonnegative and the last is positive. */
    lemma CashFlowsSign()
      requires 0.0 < principal && 0.0 <= couponRate
      ensures var cashFlows := GenerateCashFlows();
        (forall i :: 0 <= i < |cashFlows| ==> 0.0 <= cashFlows[i]) &&
        0.0 < cashFlows[|cashFlows| - 1]
    {
      ProductNonNegative(principal, couponRate);
      ProductPositive(principal, 1.0 + couponRate);
    }

    /**
     * The period count is 0 exactly when maturity is less than a day away;
     * then no offset pairs with the one cash flow, the dirty price is 0 and the metrics
     * fail with ZeroDivisionError.
     */
    lemma NoPeriods(pow: Power)
      requires Valid() && 0.0 < 1.0 + ytm && PositivePower(pow)
      ensures periods == 0 <==> maturityDate - DAY < todayDate
      ensures periods == 0 ==>
        CalculatePrice(pow).1 == 0.0 && GetAllMetrics(pow) == Err(ZeroDivisionError)
    {
      PeriodsZero(maturityDate, todayDate);
    }

    /** A bond with positive principal, nonnegative coupon and at least one period has a positive dirty price. */
    lemma DirtyPricePositive(pow: Power)
      requires Valid() && 0.0 < 1.0 + ytm && PositivePower(pow)
      requires 0.0 < principal && 0.0 <= couponRate && 1 <= periods
      ensures 0.0 < CalculatePrice(pow).1
    {
      var cashFlows := GenerateCashFlows();
      CashFlowsSign();
      PresentValuesSign(cashFlows, timePeriods, 1.0 + ytm, pow);
      var pvs := Discounted(pow);
      assert 0.0 < pvs[|pvs| - 1];
      SumSign(pvs);
    }

    /**
     * For a bond with positive principal and nonnegative coupon the metrics
     * are defined exactly when maturity is at least a day away.
     */
    lemma MetricsDefined(pow: Power)
      requires Valid() && 0.0 < 1.0 + ytm && PositivePower(pow)
      requires 0.0 < principal && 0.0 <= couponRate
      ensures GetAllMetrics(pow).Ok? <==> todayDate <= maturityDate - DAY
    {
      NoPeriods(pow);
      if 1 <= periods {
        DirtyPricePositive(pow);
      }
    }

    /**
     * The Macaulay duration is a weighted average of the time offsets with
     * positive weights: it lies between the years to the next coupon and
     * the last offset, which is at most the years to maturity.
     */
    lemma MacaulayBounds(pow: Power)
      requires Valid() && 0.0 < 1.0 + ytm && PositivePower(pow)
      requires 0.0 < principal && 0.0 <= couponRate && 1 <= periods
      ensures MacaulayDuration(pow).Ok?
      ensures 0.0 <= timePeriods[0] <= MacaulayDuration(pow).value <= timePeriods[periods - 1]
      ensures timePeriods[periods - 1] <= yearsToMaturity
    {
      DirtyPricePositive(pow);
      var cashFlows := GenerateCashFlows();
      CashFlowsSign();
      PresentValuesSign(cashFlows, timePeriods, 1.0 + ytm, pow);
      TimePeriodsRange(couponDate.value, todayDate, periods);
      WeightedAverageBounds(Discounted(pow), timePeriods, timePeriods[0], timePeriods[periods - 1]);
      FinalOffset(maturityDate, todayDate);
    }

    /**
     * For such a bond the elasticity equals the Macaulay duration, and for a
     * nonnegative yield the modified duration does not exceed it.
     */
    lemma ModifiedAndElasticity(pow: Power)
      requires Valid() && 0.0 < 1.0 + ytm && PositivePower(pow)
      requires 0.0 < principal && 0.0 <= couponRate && 1 <= periods
      ensures CalculateElasticity(pow) == MacaulayDuration(pow) && CalculateModifiedDuration(pow).Ok?
      ensures 0.0 <= ytm ==>
        0.0 <= CalculateModifiedDuration(pow).value <= MacaulayDuration(pow).value
    {
      MacaulayBounds(pow);
      ShrinkByFactor(MacaulayDuration(pow).value, 1.0 + ytm);
    }

    /** For such a bond the convexity is defined and nonnegative. */
    lemma ConvexityNonNegative(pow: Power)
      requires Valid() && 0.0 < 1.0 + ytm && PositivePower(pow)
      requires 0.0 < principal && 0.0 <= couponRate && 1 <= periods
      ensures CalculateConvexity(pow).Ok? && 0.0 <= CalculateConvexity(pow).value
    {
      DirtyPricePositive(pow);
      CashFlowsSign();
      TimePeriodsRange(couponDate.value, todayDate, periods);
      ConvexitySumNonNegative(GenerateCashFlows(), timePeriods, 1.0 + ytm, pow);
      PowerPositive(pow, 1.0 + ytm, 2.0);
      ProductPositive(CalculatePrice(pow).1, pow(1.0 + ytm, 2.0));
      QuotientNonNegative(Sum(ConvexityTerms(GenerateCashFlows(), timePeriods, 1.0 + ytm, pow)),
                          CalculatePrice(pow).1 * pow(1.0 + ytm, 2.0));
    }
  }

  function Abs(x: real): real
  {
    if x < 0.0 then -x else x
  }

  lemma AccruedBounds(fraction: real, principal: real, couponRate: real)
    requires 0.0 <= fraction <= 1.0
    ensures 0.0 <= principal && 0.0 <= couponRate ==>
      0.0 <= fraction * principal * couponRate <= principal * couponRate
  {
    if 0.0 <= principal && 0.0 <= couponRate {
      ProductNonNegative(principal, couponRate);
      assert fraction * principal * couponRate == fraction * (principal * couponRate);
      ProductNonNegative(fraction, principal * couponRate);
      ProductNonNegative(1.0 - fraction, principal * couponRate);
    }
  }

  lemma ShrinkByFactor(x: real, factor: real)
    ensures 0.0 <= x && 1.0 <= factor ==> 0.0 <= x / factor <= x
  {
    if 0.0 <= x && 1.0 <= factor {
      QuotientNonNegative(x, factor);
      assert x - x / factor == x * (factor - 1.0) / factor;
      ProductNonNegative(x, factor - 1.0);
      QuotientNonNegative(x * (factor - 1.0), factor);
    }
  }

  lemma AccruedZero(fraction: real, principal: real, couponRate: real)
    ensures 0.0 < principal * couponRate ==>
      (fraction * principal * couponRate == 0.0 <==> fraction == 0.0)
  {
    if 0.0 < principal * couponRate {
      assert fraction * principal * couponRate == fraction * (principal * couponRate);
      DenominatorZero(fraction, principal * couponRate);
    }
  }

  lemma ProductPositive(a: real, b: real)
    requires 0.0 < a && 0.0 < b
    ensures 0.0 < a * b
  {
  }

  lemma DenominatorZero(price: real, factor: real)
    requires 0.0 < factor
    ensures price * factor == 0.0 <==> price == 0.0
  {
    if price > 0.0 {
      ProductPositive(price, factor);
    } else if price < 0.0 {
      ProductPositive(-price, factor);
    }
  }

  lemma QuotientNonNegative(x: real, y: real)
    requires 0.0 <= x && 0.0 < y
    ensures 0.0 <= x / y
  {
  }
}
