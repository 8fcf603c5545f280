/** Optional values and the two exceptions the bond calculator can raise. */
module Outcomes {

  datatype Option<+T> = None | Some(value: T)

  /** The exceptions of the Python engine that the model keeps. */
  datatype Error =
    | AttributeError      // coupon_date read before the backward walk ever assigned it
    | ZeroDivisionError   // a Macaulay or convexity quotient whose denominator is zero

  datatype Result<+T> = Ok(value: T) | Err(error: Error)

  /** Success or failure of a step that returns nothing. */
  datatype Outcome = Pass | Fail(error: Error)
}
