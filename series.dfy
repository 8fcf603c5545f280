/**
 * Exact-real counterparts of the list comprehensions and sums of the
 * valuation engine: pairing a list of flows with a list of offsets stops
 * at the shorter list, a sum adds every entry, and the discount factor for
 * an offset is a power function supplied by the caller.
 */
module Series {

  /** A fractional power: `pow(b, t)` is b raised to t. */
  type Power = (real, real) -> real

  /** The only fact the model uses about the fractional power: a positive base gives a positive power. */
  ghost predicate PositivePower(pow: Power)
  {
    forall b: real, t: real :: 0.0 < b ==> 0.0 < pow(b, t)
  }

  function Min(a: int, b: int): int
  {
    if a <= b then a else b
  }

  /** The sum of the entries, in exact arithmetic. */
  function Sum(s: seq<real>): real
  {
    if s == [] then 0.0 else s[0] + Sum(s[1..])
  }

  lemma PowerPositive(pow: Power, b: real, t: real)
    requires 0.0 < b && PositivePower(pow)
    ensures 0.0 < pow(b, t)
  {
  }

  /** Each cash flow divided by the discount factor at its offset, for as many pairs as both lists have. */
  function PresentValues(cashFlows: seq<real>, times: seq<real>, base: real, pow: Power): (pvs: seq<real>)
    requires 0.0 < base && PositivePower(pow)
    ensures |pvs| == Min(|cashFlows|, |times|)
    ensures forall i :: 0 <= i < |pvs| ==> pvs[i] * pow(base, times[i]) == cashFlows[i]
  {
    if cashFlows == [] || times == [] then []
    else
      PowerPositive(pow, base, times[0]);
      [cashFlows[0] / pow(base, times[0])] + PresentValues(cashFlows[1..], times[1..], base, pow)
  }

  /** Each present value times its offset, for as many pairs as both lists have. */
  function Weighted(pvs: seq<real>, times: seq<real>): (w: seq<real>)
    ensures |w| == Min(|pvs|, |times|)
  {
    if pvs == [] || times == [] then []
    else [pvs[0] * times[0]] + Weighted(pvs[1..], times[1..])
  }

  /** Each flow times its offset times one more than the offset, over the discount factor, for as many pairs as both lists have. */
  function ConvexityTerms(cashFlows: seq<real>, times: seq<real>, base: real, pow: Power): (terms: seq<real>)
    requires 0.0 < base && PositivePower(pow)
    ensures |terms| == Min(|cashFlows|, |times|)
  {
    if cashFlows == [] || times == [] then []
    else
      PowerPositive(pow, base, times[0]);
      [(cashFlows[0] * times[0] * (times[0] + 1.0)) / pow(base, times[0])]
        + ConvexityTerms(cashFlows[1..], times[1..], base, pow)
  }

  /** Entry i of the weighted list is present value i times offset i. */
  lemma {:induction false} WeightedEntries(pvs: seq<real>, times: seq<real>)
    ensures var w := Weighted(pvs, times);
      forall i :: 0 <= i < |w| ==> w[i] == pvs[i] * times[i]
  {
    if pvs != [] && times != [] {
      WeightedEntries(pvs[1..], times[1..]);
    }
  }

  /** Entry i of the convexity terms, times the discount factor at offset i, is flow i times offset i times one more than offset i. */
  lemma {:induction false} ConvexityTermsEntries(cashFlows: seq<real>, times: seq<real>, base: real, pow: Power)
    requires 0.0 < base && PositivePower(pow)
    ensures var terms := ConvexityTerms(cashFlows, times, base, pow);
      forall i :: 0 <= i < |terms| ==>
        terms[i] * pow(base, times[i]) == cashFlows[i] * times[i] * (times[i] + 1.0)
  {
    if cashFlows != [] && times != [] {
      ConvexityTermsEntries(cashFlows[1..], times[1..], base, pow);
      PowerPositive(pow, base, times[0]);
    }
  }

  /** The sum of entries that are all nonnegative is nonnegative, and positive once one entry is. */
  lemma {:induction false} SumSign(s: seq<real>)
    requires forall i :: 0 <= i < |s| ==> 0.0 <= s[i]
    ensures 0.0 <= Sum(s)
    ensures (exists i :: 0 <= i < |s| && 0.0 < s[i]) ==> 0.0 < Sum(s)
  {
    if s != [] {
      SumSign(s[1..]);
      if exists i :: 0 <= i < |s| && 0.0 < s[i] {
        var i :| 0 <= i < |s| && 0.0 < s[i];
        if i > 0 {
          assert 0.0 < s[1..][i - 1];
        }
      }
    }
  }

  /**
   * A sum of weights times values is at least the smallest value times the
   * sum of the weights, when the weights are nonnegative.
   */
  lemma {:induction false} WeightedSumLower(pvs: seq<real>, times: seq<real>, lo: real)
    requires |pvs| <= |times|
    requires forall i :: 0 <= i < |pvs| ==> 0.0 <= pvs[i]
    requires forall i :: 0 <= i < |pvs| ==> lo <= times[i]
    ensures lo * Sum(pvs) <= Sum(Weighted(pvs, times))
  {
    if pvs != [] {
      WeightedSumLower(pvs[1..], times[1..], lo);
      SumsUnfold(pvs, times);
      LowerStep(pvs[0], times[0], Sum(pvs[1..]), Sum(Weighted(pvs[1..], times[1..])),
                Sum(pvs), Sum(Weighted(pvs, times)), lo);
    }
  }

  /** ... and at most the largest value times the sum of the weights. */
  lemma {:induction false} WeightedSumUpper(pvs: seq<real>, times: seq<real>, hi: real)
    requires |pvs| <= |times|
    requires forall i :: 0 <= i < |pvs| ==> 0.0 <= pvs[i]
    requires forall i :: 0 <= i < |pvs| ==> times[i] <= hi
    ensures Sum(Weighted(pvs, times)) <= hi * Sum(pvs)
  {
    if pvs != [] {
      WeightedSumUpper(pvs[1..], times[1..], hi);
      SumsUnfold(pvs, times);
      UpperStep(pvs[0], times[0], Sum(pvs[1..]), Sum(Weighted(pvs[1..], times[1..])),
                Sum(pvs), Sum(Weighted(pvs, times)), hi);
    }
  }

  lemma SumsUnfold(pvs: seq<real>, times: seq<real>)
    requires 0 < |pvs| <= |times|
    ensures Sum(pvs) == pvs[0] + Sum(pvs[1..])
    ensures Sum(Weighted(pvs, times)) == pvs[0] * times[0] + Sum(Weighted(pvs[1..], times[1..]))
  {
  }

  /** One step of the lower bound: total `p + s`, weighted total `p * t + w`. */
  lemma LowerStep(p: real, t: real, s: real, w: real, total: real, weighted: real, lo: real)
    requires 0.0 <= p && lo <= t && lo * s <= w
    requires total == p + s && weighted == p * t + w
    ensures lo * total <= weighted
  {
    ProductNonNegative(p, t - lo);
  }

  /** One step of the upper bound. */
  lemma UpperStep(p: real, t: real, s: real, w: real, total: real, weighted: real, hi: real)
    requires 0.0 <= p && t <= hi && w <= hi * s
    requires total == p + s && weighted == p * t + w
    ensures weighted <= hi * total
  {
    ProductNonNegative(p, hi - t);
  }

  lemma ProductNonNegative(a: real, b: real)
    requires 0.0 <= a && 0.0 <= b
    ensures 0.0 <= a * b
  {
  }

  lemma DivideLower(c: real, x: real, s: real)
    requires 0.0 < s && c * s <= x
    ensures c <= x / s
  {
    assert x / s - c == (x - c * s) / s;
  }

  lemma DivideUpper(c: real, x: real, s: real)
    requires 0.0 < s && x <= c * s
    ensures x / s <= c
  {
    assert c - x / s == (c * s - x) / s;
  }

  lemma DivideBetween(lo: real, hi: real, x: real, s: real)
    requires 0.0 < s && lo * s <= x <= hi * s
    ensures lo <= x / s <= hi
  {
    DivideLower(lo, x, s);
    DivideUpper(hi, x, s);
  }

  lemma AverageBetween(pvs: seq<real>, times: seq<real>, lo: real, hi: real)
    requires 0.0 < Sum(pvs)
    requires lo * Sum(pvs) <= Sum(Weighted(pvs, times)) <= hi * Sum(pvs)
    ensures lo <= Sum(Weighted(pvs, times)) / Sum(pvs) <= hi
  {
    DivideBetween(lo, hi, Sum(Weighted(pvs, times)), Sum(pvs));
  }

  /**
   * A weighted average `Sum(w * t) / Sum(w)` with nonnegative weights of
   * positive total lies between the bounds of the values.
   */
  lemma WeightedAverageBounds(pvs: seq<real>, times: seq<real>, lo: real, hi: real)
    requires |pvs| <= |times|
    requires forall i :: 0 <= i < |pvs| ==> 0.0 <= pvs[i]
    requires forall i :: 0 <= i < |pvs| ==> lo <= times[i] <= hi
    requires 0.0 < Sum(pvs)
    ensures lo <= Sum(Weighted(pvs, times)) / Sum(pvs) <= hi
  {
    WeightedSumLower(pvs, times, lo);
    WeightedSumUpper(pvs, times, hi);
    AverageBetween(pvs, times, lo, hi);
  }

  /**
   * Discounting keeps signs: nonnegative flows give nonnegative present
   * values, and the present values of positive flows are positive.
   */
  lemma {:induction false} PresentValuesSign(cashFlows: seq<real>, times: seq<real>, base: real, pow: Power)
    requires 0.0 < base && PositivePower(pow)
    ensures var pvs := PresentValues(cashFlows, times, base, pow);
      forall i :: 0 <= i < |pvs| ==>
        (0.0 <= cashFlows[i] ==> 0.0 <= pvs[i]) && (0.0 < cashFlows[i] ==> 0.0 < pvs[i])
  {
    if cashFlows != [] && times != [] {
      PresentValuesSign(cashFlows[1..], times[1..], base, pow);
      PowerPositive(pow, base, times[0]);
    }
  }

  /** The convexity terms of nonnegative flows at nonnegative times add up to a nonnegative sum. */
  lemma {:induction false} ConvexitySumNonNegative(cashFlows: seq<real>, times: seq<real>, base: real, pow: Power)
    requires 0.0 < base && PositivePower(pow)
    requires forall i :: 0 <= i < |cashFlows| ==> 0.0 <= cashFlows[i]
    requires forall i :: 0 <= i < |times| ==> 0.0 <= times[i]
    ensures 0.0 <= Sum(ConvexityTerms(cashFlows, times, base, pow))
  {
    if cashFlows != [] && times != [] {
      ConvexitySumNonNegative(cashFlows[1..], times[1..], base, pow);
      PowerPositive(pow, base, times[0]);
      ProductNonNegative(cashFlows[0], times[0]);
      ProductNonNegative(cashFlows[0] * times[0], times[0] + 1.0);
    }
  }
}
