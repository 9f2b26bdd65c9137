/** Thrown errors. */
module Outcomes {

  /** The results of functions that throw one of two errors. */
  datatype Outcome<+T> = Ok(value: T) | TypeError | RangeError
}
