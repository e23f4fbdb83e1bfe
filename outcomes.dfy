/** Go's `(value, error)` returns and nil-able byte slices, as values. */
module Outcomes {

  /** A nil-able result: `None` stands for Go's `nil`. */
  datatype Option<+T> = None | Some(value: T)

  /** The failures the storage layer can report. */
  datatype Error =
    | KeyNotFound  // badger.ErrKeyNotFound from the engine's point lookup
    | EngineFault  // any other engine failure (I/O, closed database, ...)
    | CopyFault    // a failure of an iterator item's ValueCopy

  /** A handler's `(*Response, error)`: either a full response or an error with no response. */
  datatype Result<+T> = Ok(value: T) | Err(error: Error)
}
