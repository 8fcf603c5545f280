# Bond calculator: schedule reconstruction and valuation

This project models the bond valuation engine of the repository, the
`BondCalculator` class of `back/bond_calculator.py`, and proves properties
of it.

The engine has two parts.

1. **Schedule reconstruction.** The constructor reads today's instant,
   then walks back from maturity in fixed 365-day steps. It keeps the last
   date still after today as the next coupon date. From that date it
   derives:
   - the years to maturity;
   - the elapsed fraction of the current coupon;
   - the number of periods, `ceil(days / 365)`;
   - the time offset of each cash flow.
2. **Valuation.** Read-only queries build the cash flows, discount them at
   the flat yield `(1 + ytm) ** t`, and return the clean and dirty prices,
   the modified duration, the convexity, the elasticity, and all of them
   together.

## Layout

- `outcomes.dfy`, module `Outcomes`: `Option`, `Result`, the success
  value `Outcome`, and the two exceptions the engine can raise
  (`AttributeError` and `ZeroDivisionError`).
- `schedule.dfy`, module `Schedule`: integer date arithmetic. An instant is
  a count of microseconds, the resolution of Python's `datetime`. A
  maturity parsed from `YYYY-MM-DD` is the midnight that opens its day.
  `timedelta.days` is floor division by one day. The walk is specified by
  its pass count `Steps`. The next coupon date, the period count and the
  time offsets are functions of maturity and today.
- `series.dfy`, module `Series`: the list comprehensions and sums over
  exact reals. The fractional power `(1 + ytm) ** t` is a function
  parameter `pow`. The only assumption about it is that a positive base
  gives a positive power (`PositivePower`).
- `bond.dfy`, module `Bond`: the class `BondCalculator`.
  - Its constructor runs the walk as a `while` loop in `FindNextCouponDate`
    and assigns the derived fields in `CalculateTimePeriods`. Both are
    proved against the `Schedule` functions.
  - The valuation queries are functions that read the fields.
  - Lemmas about a constructed calculator (`Valid()`) give the price
    bounds and the signs and ranges of the metrics.

## Behaviour the code has and the model keeps

- When maturity is not after today, the loop never runs. `coupon_date` is
  then never assigned, and the comparison on line 22 raises
  `AttributeError`. The code does no other input validation.
- The forward correction on lines 22-23 can never fire once the loop has
  run, because the loop leaves `coupon_date` after today.
- `periods` is 0 when maturity is less than a day away. Then `zip` drops
  the single cash flow, the dirty price is 0, and the duration raises
  `ZeroDivisionError`. For example, a maturity one day away with today at
  noon gives 0 periods; a maturity one day away with today at midnight
  gives 1 period.
- When today has a time of day and the whole days to maturity are a
  multiple of 365, `periods` is one less than the number of passes of the
  walk. When `periods` is at least 1, the final flow then sits one year
  before maturity.
- The day count uses 365-day years. From 2024-01-18 to 2025-01-18 is 366
  days because of 29 February:
  - with today at midnight there are 2 periods, the first a day away;
  - with today at noon there is 1 period, at offset 0.

  A reading of this case as one period at offset 1.0 does not match the
  code; the model follows the code.

## Model

| member | source | states |
|---|---|---|
| Schedule.Days | back/bond_calculator.py:26-27 | the whole-day count is the floor of the difference over one day: the difference lies in [d days, d + 1 days) |
| Schedule.StepsBracket | back/bond_calculator.py:17-20 | the walk makes no pass exactly when it starts at or before today; otherwise it stops at the first grid date at or before today, one step after the last date still after today |
| Schedule.NextCouponDate | back/bond_calculator.py:16-23 | the date the walk leaves is absent exactly when maturity is not after today; otherwise it lies in (today, today + 365 days], is not after maturity, and is a whole number of 365-day steps before maturity |
| Schedule.CeilYears | back/bond_calculator.py:28 | the period count is the least n with days <= 365 n |
| Schedule.TimePeriods | back/bond_calculator.py:30-31 | one offset per period (none when periods <= 0), the first being the years to the next coupon, each one year after the previous |
| Schedule.DaysToNextCoupon | back/bond_calculator.py:17-30 | whole days to the next coupon are the days to maturity less 365 per step walked back |
| Schedule.PeriodsAndSteps | back/bond_calculator.py:17-28 | periods equals the walk's pass count, except one less when today has a time of day and the day count is a multiple of 365 |
| Schedule.PeriodsZero | back/bond_calculator.py:26-28 | periods is nonnegative, and 0 exactly when maturity is less than a day after today |
| Schedule.FinalOffset | back/bond_calculator.py:17-31 | the last offset is the years to maturity, or one year less in the shifted case |
| Schedule.AccruedFraction | back/bond_calculator.py:27-30 | whole days to the next coupon lie in [0, 365]; the accrued fraction lies in [0, 1], and is 0 exactly when today is the midnight one step before the next coupon |
| Schedule.TimePeriodsRange | back/bond_calculator.py:30-31 | with the next coupon after today, the first offset is nonnegative and every offset lies between the first and the last |
| Schedule.LeapYearAtMidnight | back/bond_calculator.py:16-31 | 2024-01-18 to 2025-01-18 from midnight: next coupon 2024-01-19, 2 periods, offsets [1/365, 1 + 1/365], accrued fraction 364/365 |
| Schedule.LeapYearAtNoon | back/bond_calculator.py:16-31 | the same dates from noon: next coupon 2024-01-19, 1 period, offsets [0], accrued fraction 1 |
| Series.PresentValues | back/bond_calculator.py:40-43 | one present value per zipped pair, each of which times the discount factor gives back its cash flow |
| Series.WeightedEntries | back/bond_calculator.py:60 | entry i of the weighted list is present value i times offset i, for every zipped pair |
| Series.ConvexityTermsEntries | back/bond_calculator.py:70-73 | entry i of the convexity terms, times the discount factor at offset i, is flow i times offset i times one more than offset i |
| Series.SumSign | back/bond_calculator.py:45 | a sum of nonnegative entries is nonnegative, and positive once one entry is positive |
| Series.WeightedSumLower | back/bond_calculator.py:60-61 | with nonnegative weights, the weighted sum is at least the least value times the total weight |
| Series.WeightedSumUpper | back/bond_calculator.py:60-61 | with nonnegative weights, the weighted sum is at most the greatest value times the total weight |
| Series.WeightedAverageBounds | back/bond_calculator.py:60-61 | a weighted average with nonnegative weights and a positive total lies between the least and the greatest value |
| Series.PresentValuesSign | back/bond_calculator.py:40-43 | discounting keeps signs: nonnegative flows give nonnegative present values, positive flows give positive ones |
| Series.ConvexitySumNonNegative | back/bond_calculator.py:70-75 | nonnegative flows at nonnegative times give a nonnegative convexity sum |
| Bond.BondCalculator.constructor | back/bond_calculator.py:5-14 | rates are divided by 100, maturity is the midnight of its day, and every schedule field is what the date arithmetic defines |
| Bond.BondCalculator.FindNextCouponDate | back/bond_calculator.py:16-23 | the loop leaves the next coupon date of the walk, or fails with AttributeError exactly when maturity is not after today |
| Bond.BondCalculator.CalculateTimePeriods | back/bond_calculator.py:25-31 | the four derived fields equal the years to maturity, the accrued fraction, the period count and the time offsets |
| Bond.BondCalculator.GenerateCashFlows | back/bond_calculator.py:33-36 | max(periods, 1) flows: coupons, then principal plus the last coupon |
| Bond.BondCalculator.CalculatePrice | back/bond_calculator.py:38-51 | for a constructed calculator with nonnegative principal and rate, clean <= dirty <= clean + one coupon: the accrued interest subtracted from the sum of the present values never exceeds one coupon |
| Bond.BondCalculator.MacaulayDuration | back/bond_calculator.py:53-61 | fails with ZeroDivisionError exactly when the present values add up to 0; otherwise the duration times that sum is the weighted sum |
| Bond.BondCalculator.CalculateModifiedDuration | back/bond_calculator.py:53-64 | defined exactly when the Macaulay duration is; then the modified duration times (1 + ytm) is the Macaulay duration |
| Bond.BondCalculator.CalculateConvexity | back/bond_calculator.py:66-76 | fails with ZeroDivisionError exactly when the dirty price is 0; otherwise the convexity times dirty price times (1 + ytm) squared is the sum of the convexity terms |
| Bond.BondCalculator.CalculateElasticity | back/bond_calculator.py:78-80 | defined exactly when the duration is, and then equal to the absolute Macaulay duration |
| Bond.BondCalculator.GetAllMetrics | back/bond_calculator.py:82-94 | fails with ZeroDivisionError exactly when the dirty price is 0; otherwise holds the prices and the three metrics of the single queries |
| Bond.BondCalculator.AccruedInterestBounds | back/bond_calculator.py:46-48 | for a constructed calculator with nonnegative principal and rate, the accrued interest lies between 0 and one coupon; with a positive coupon it is 0 exactly when today is the midnight one step before the next coupon |
| Bond.BondCalculator.PriceBounds | back/bond_calculator.py:45-49 | for nonnegative principal and rate, clean <= dirty <= clean + one coupon; with a positive coupon, clean equals dirty exactly at that midnight |
| Bond.BondCalculator.CashFlowsSign | back/bond_calculator.py:33-36 | a positive principal and a nonnegative rate give nonnegative flows with a positive last flow |
| Bond.BondCalculator.NoPeriods | back/bond_calculator.py:28-45 | periods is 0 exactly when maturity is less than a day away; then the dirty price is 0 and the metrics fail with ZeroDivisionError |
| Bond.BondCalculator.DirtyPricePositive | back/bond_calculator.py:38-45 | a positive principal, a nonnegative rate and at least one period give a positive dirty price |
| Bond.BondCalculator.MetricsDefined | back/bond_calculator.py:82-86 | for a positive principal and a nonnegative rate, the metrics are defined exactly when maturity is at least a day away |
| Bond.BondCalculator.MacaulayBounds | back/bond_calculator.py:55-61 | the Macaulay duration lies between the first and the last time offset, the first is nonnegative, and the last is at most the years to maturity |
| Bond.BondCalculator.ModifiedAndElasticity | back/bond_calculator.py:62-80 | the elasticity equals the Macaulay duration, and for a nonnegative yield the modified duration lies between 0 and it |
| Bond.BondCalculator.ConvexityNonNegative | back/bond_calculator.py:66-76 | for a positive principal, a nonnegative rate and at least one period, the convexity is defined and nonnegative |

## Left out

- `datetime.strptime` and `datetime.today()` (back/bond_calculator.py:10-11): maturity is a day number and today an instant in microseconds, both given by the caller. Parsing and the clock are outside the model.
- Floating point: prices and metrics are exact reals. `numpy.ceil` of the float quotient becomes the integer ceiling of days over 365. For day counts of realistic size the two agree, because a quotient that is not a whole number stays at least 1/365 from one.
- The fractional power `(1 + ytm) ** t` is the parameter `pow`. Its only assumed property is positivity for a positive base. The `** 2` of the convexity denominator uses the same `pow`, so no concrete figure such as 1050 / 1.06 is computed.
- Bond.BondCalculator.CalculatePrice: with the other valuation functions, it requires `1 + ytm > 0`. For `1 + ytm < 0`, Python's power is complex at an offset that is not a whole number and real at a whole-number offset. For `1 + ytm == 0`, Python raises ZeroDivisionError once some paired offset is positive. It returns a price when every paired offset is 0 or nothing is paired, since `0.0 ** 0.0` is 1. None of these cases is modelled.
- Bond.BondCalculator.constructor: requires maturity after today. The source raises AttributeError there. That error path is modelled by `FindNextCouponDate`, which returns `Fail(AttributeError)` and leaves `couponDate` unset, and by `NextCouponDate` returning `None`.
- Bond.BondCalculator.MacaulayBounds, ModifiedAndElasticity, ConvexityNonNegative: stated for a positive principal and a nonnegative coupon rate. For other inputs, only the defining equations of the functions hold.
- The console block of back/bond_calculator.py:96-110: input and print only.
- back/main.py is not part of this model. It is an HTTP wrapper around `BondCalculator`.
- back/agent.py is not part of this model. It is a language-model agent that calls external services.
- The frontend under frontend/src is not part of this model. It is user interface and network code.
