/** The two result types the modelled programs share. */
module Wrappers {
  datatype Option<+T> = None | Some(value: T) {
    function GetOr(default: T): T {
      if Some? then value else default
    }
  }

  /** A value, or the reason there is none: what the programs raise as an exception. */
  datatype Result<+T, +E> = Success(value: T) | Failure(error: E)
}
