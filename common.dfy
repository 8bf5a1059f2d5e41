/** Optional values and error-carrying results shared by every module. */
module Common {

  datatype Option<+T> = None | Some(value: T)

  /** The outcome of an operation that may fail with an error of type E. */
  datatype Result<+T, +E> = Ok(value: T) | Err(error: E)

  /** Python's `text or ""` for an optional text (`None` is SQL NULL). */
  function OrEmpty(text: Option<string>): string
  {
    if text.Some? then text.value else ""
  }
}
