/** Shared failure vocabulary of the layer stack.

    Rust's `Option`, the crate's recoverable errors (`Conv2dError`,
    `ForwardError`/`LayerError`) and the unrecoverable panics the code can
    hit (a `usize` subtraction below zero in a debug build, a division by
    zero, an ndarray slice or broadcast that does not fit, `todo!()`) are
    all values here, so that every operation of the model is total. */
module Base {

  datatype Option<+T> = None | Some(value: T) {
    /** `Option::unwrap_or` */
    function UnwrapOr(default: T): (r: T)
      ensures Some? ==> r == value
      ensures None? ==> r == default
    {
      match this
      case Some(v) => v
      case None => default
    }
  }

  /** The ways the Rust code aborts instead of returning an error. */
  datatype Fault =
    | SubtractWithOverflow   // `usize` arithmetic below zero (debug build)
    | DivideByZero
    | SliceOutOfBounds       // an ndarray `s![a..b]` range outside the axis
    | IncompatibleShapes     // ndarray cannot broadcast one shape onto another
    | IndexOutOfBounds       // `index_axis` or `[[i, j]]` past the end of an axis
    | NotYetImplemented      // `todo!()`

  datatype LayerError =
    | KernelSizeError
    | IncorrectDimensions(message: string)
    | Panic(fault: Fault)

  datatype Result<+T> = Ok(value: T) | Err(error: LayerError)
}
