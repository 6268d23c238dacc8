/** Option and Result, used for the source's "maybe absent" values and for
    the exceptions that abort a sync cycle. */
module Results {

  datatype Option<+T> = None | Some(value: T)

  datatype Result<+T, +E> = Ok(value: T) | Err(error: E)
}
