/** The exceptions the engine throws, and the optional/fallible results it returns. */
module Outcomes {

  /** The three exception types the engine raises. */
  datatype Error =
    | InvalidArgument   // std::invalid_argument: empty input, or points of different dimension
    | OutOfRange        // std::out_of_range: query time outside [first, last]
    | RuntimeError      // std::runtime_error: the neighbour search found no bracket

  /** A value, or the exception that replaced it. */
  datatype Result<+T> = Ok(value: T) | Err(error: Error)

  /** std::optional. */
  datatype Option<+T> = None | Some(value: T)
}
