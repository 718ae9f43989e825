/** Failure-carrying values shared by every module of the model: `Option`
    stands for a JavaScript value that may be `null` or `undefined`, and
    `Result` for a call that either returns or throws. */
module Wrappers {

  datatype Option<+T> = None | Some(value: T)

  /** `Failure` carries the message of the thrown `Error`. */
  datatype Result<+R> = Success(value: R) | Failure(error: string)
}
