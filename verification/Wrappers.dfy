/** Results, and the way a remote call can answer. */
module Wrappers {

  datatype Option<+T> = None | Some(value: T)

  datatype Result<+T, +E> = Ok(value: T) | Err(error: E)

  /** How one call to Postgres, Redis or Kafka ends.
      Acked: executed, and the caller is told so.
      Refused: not executed, and the caller gets an error.
      Lost: executed, but the caller gets an error all the same. */
  datatype Reply = Acked | Refused | Lost
}
