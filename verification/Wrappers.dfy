/** Outcomes of operations that can decline. */
module Wrappers {
  datatype Option<+T> = None | Some(value: T)

  datatype Result<+T> = Ok(value: T) | Err(error: Error)

  /** Why a kernel stops: it returns an error, or it would panic or leave its buffers. */
  datatype Error =
    | RequiresContiguous
    | InvalidIndex
    | EmptyTensor
    | UnexpectedStriding
    | ShapeMismatch
    | DivideByZero
    | OutOfBounds
    | Overflow
    | Misaligned
    | SizeMismatch
    | CastFailed
}
