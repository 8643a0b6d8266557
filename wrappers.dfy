/** Option and Result values shared by every module of the model. */
module Wrappers {

  /** A value that may be absent (pandas' NaN label, a missing lookup). */
  datatype Option<T> = None | Some(value: T)

  /** The outcome of an operation that raises in the source: Ok, or the exception it raises. */
  datatype Result<T, E> = Ok(value: T) | Err(error: E)
}
