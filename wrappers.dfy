/** The two wrappers the other modules share: an optional value and a
    value-or-error result, the latter standing for a thrown exception. */
module Wrappers {

  datatype Option<+T> = None | Some(value: T)

  datatype Result<+T, +E> = Success(value: T) | Failure(error: E)
}
