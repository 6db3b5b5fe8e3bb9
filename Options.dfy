/** Optional values and results: `None` stands for pandas' NaN / a missing
    cell, `Err` for an exception that escapes a call. */
module Options {

  datatype Option<+T> = None | Some(value: T)

  datatype Result<+T, +E> = Ok(value: T) | Err(error: E)
}
