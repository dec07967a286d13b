/** Shared vocabulary: optional values, lookup results and calendar days. */
module Common {

  /** A value that may be absent; stands for Python's `None` and for optional
      JSON properties. */
  datatype Option<T> = None | Some(value: T)

  /** The only failure the modelled endpoints raise: HTTP 404 for an id that
      is not in the table. */
  datatype Error = NotFound

  datatype Result<T> = Ok(value: T) | Err(error: Error)

  /** A calendar date as a day number; `d + 1` is the following day. */
  type Day = int
}
