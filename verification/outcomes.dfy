/** Failure outcomes of the plotter: the runtime errors the modelled code can
    raise on its own.  `ZeroDivisionError` comes from a zero scale or a zoom
    factor of zero; `AttributeError` from calling a method on the `None` that
    an image label without a pixmap returns. */
module Outcomes {

  datatype Error = ZeroDivisionError | AttributeError

  datatype Result<+T> = Ok(value: T) | Fail(error: Error)

  datatype Option<+T> = None | Some(value: T)
}
