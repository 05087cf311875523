/** Option and Result, the two failure-carrying shapes the model uses for
    Python's `None` returns and raised exceptions. */
module Wrappers {

  datatype Option<+T> = None | Some(value: T)

  /** `Err` stands for an exception the Python code raises (and, where it is
      raised, does not catch). */
  datatype Result<+T> = Ok(value: T) | Err
}
