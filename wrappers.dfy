/** Small optional-value and result datatypes shared by every module. */
module Wrappers {

  /** A value that may be absent (TypeScript's `T | null | undefined`). */
  datatype Option<+T> = None | Some(value: T) {
    function GetOr(default: T): T {
      match this
      case Some(v) => v
      case None => default
    }
  }

  /** A property of a request body, which may be left out or sent as `null`:
      the two differ once the body is spread into a database row. */
  datatype Field<+T> = Omitted | ExplicitNull | Given(value: T)

  /** Either a value or the error that the source would throw. */
  datatype Result<+T, +E> = Ok(value: T) | Err(error: E)
}
