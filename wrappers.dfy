/** Option and Result values shared by the models of the samples. */
module Wrappers {

  datatype Option<+T> = None | Some(value: T)

  /** The outcome of an operation that can fail with an error of type E
      (a thrown exception or an error return in the samples). */
  datatype Result<+T, +E> = Ok(value: T) | Err(error: E)
}
