/** Optional values and results that may be an error. */
module Options {

  /** An optional value: JavaScript's `undefined` for a property or a
      variable that may be absent. */
  datatype Option<+T> = None | Some(value: T)

  /** The outcome of an operation that may be refused. */
  datatype Result<+T, +E> = Ok(value: T) | Err(error: E)
}
