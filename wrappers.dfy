/** Option and Result types shared by the whole model; Result works with `:-`. */
module Wrappers {

  datatype Option<+T> = None | Some(value: T)

  /** Every exception the source throws while reading a message is one `Failure`. */
  datatype Result<+T> = Success(value: T) | Failure(error: string) {
    predicate IsFailure() { Failure? }

    function PropagateFailure<U>(): Result<U>
      requires Failure?
    {
      Failure(error)
    }

    function Extract(): T
      requires Success?
    {
      value
    }
  }
}
