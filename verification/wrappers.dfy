/** Option and Result, the two failure-carrying datatypes the model uses for
    nullable JavaScript values and for writes the database may refuse. */
module Wrappers {

  /** A nullable value: `None` stands for JavaScript's `null` or `undefined`
      wherever the code treats the two alike (a truthiness test). */
  datatype Option<+T> = None | Some(value: T)

  /** The outcome of one database round trip: the new state, or the error it threw. */
  datatype Result<+T, +E> = Ok(value: T) | Err(error: E)
}
