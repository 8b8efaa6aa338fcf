/** The exceptions raised by the modelled code, and the result types that carry them. */
module Results {

  /** KeyError: a table access with a missing key. ValueError: fractions that do not
      sum to 1. ZeroDivisionError: a mixing rule that divides by a zero total. */
  datatype Error = KeyError | ValueError | ZeroDivisionError

  /** The value of a call that either returns or raises. */
  datatype Result<+T> = Ok(value: T) | Err(error: Error)

  /** The outcome of a call that returns nothing or raises. */
  datatype Outcome = Pass | Fail(error: Error)
}
