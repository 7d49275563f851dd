/** Optional values and the outcomes of the server's request handlers. */
module Wrappers {

  datatype Option<T> = None | Some(value: T)

  /** How a handler of the task server ends: with a value, or with one of the
      error answers it sends (400 for an unknown status, 404 for a missing task,
      500 when the filesystem refuses the operation). */
  datatype Outcome<T> = Ok(value: T) | InvalidStatus | NotFound | IoFailure
}
