/** Failure-carrying results, used where the program throws or returns nothing. */
module Wrappers {
  datatype Option<+T> = None | Some(value: T)
  {
    function UnwrapOr(default: T): T { if Some? then value else default }
  }

  datatype Result<+T, +E> = Success(value: T) | Failure(error: E)
}
