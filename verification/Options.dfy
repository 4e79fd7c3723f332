/** Optional values and results with an error, the source's `| null` and
    errors-as-values. */
module Options {
  datatype Option<+T> = None | Some(value: T)
  datatype Result<+T, +E> = Ok(value: T) | Err(error: E)
}
