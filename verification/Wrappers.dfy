/** The two result types shared by the model. */
module Wrappers {

  datatype Option<+T> = None | Some(value: T)

  /** `Failure` stands for a raised exception or a failed validation. */
  datatype Result<+T, +E> = Success(value: T) | Failure(error: E)
}
