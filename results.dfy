/** Optional values and results used across the model. */
module Results {

  /** An optional value: Python's `Optional[...]`, where `None` means "nothing". */
  datatype Option<+T> = None | Some(value: T)

  /** A value or the error the source raises instead of returning one. */
  datatype Result<+T, +E> = Ok(value: T) | Err(error: E)
}
