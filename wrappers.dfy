/** Option and Result, the two failure-carrying shapes the rest of the model uses
    for Python's `None` and for the exceptions the source raises. */
module Wrappers {

  datatype Option<+T> = None | Some(value: T)

  datatype Result<+T, +E> = Ok(value: T) | Err(error: E)

  /** Row identity: the UUID primary key of every model (common/models.py:9). */
  type Id = nat

  /** A timestamp as returned by the framework clock; the clock itself is a parameter. */
  type Time = int
}
