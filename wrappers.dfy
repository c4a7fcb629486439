/** Option and the outcome of a read-modify-write step on a shared document. */
module Wrappers {

  datatype Option<T> = None | Some(value: T)

  /** A value, or the message of the error the source reports instead. */
  datatype Result<T> = Ok(value: T) | Err(msg: string)

  /** The answer of an operation that reads and rewrites a room document:
      `Done` for `{success: true}`, `Failed(error)` for `{success: false, error}`
      (the error is "" where the source gives none), and `Threw` where the
      source raises a TypeError (reading a field of `null`) before it writes,
      so that the document stays as it was. */
  datatype Status = Done | Failed(error: string) | Threw
}
