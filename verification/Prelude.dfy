/** Types shared by every part of the model. */
module Prelude {
  newtype Byte = b: int | 0 <= b < 256

  type Bytes = seq<Byte>

  const U64_LIMIT: nat := 0x1_0000_0000_0000_0000

  /** The 64-bit unsigned integers, as mathematical numbers. */
  type U64 = n: nat | n < U64_LIMIT

  datatype Option<+T> = None | Some(value: T)

  datatype Unit = Unit

  datatype Result<+T, +E> = Success(value: T) | Failure(error: E) {
    predicate IsFailure() {
      Failure?
    }

    function PropagateFailure<U>(): Result<U, E>
      requires Failure?
    {
      Failure(error)
    }

    function Extract(): T
      requires Success?
    {
      value
    }
  }
}
