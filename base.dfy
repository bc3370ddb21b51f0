/** Option and Result values: the model's stand-ins for Python's `None` and for raised exceptions. */
module Base {

  datatype Option<+T> = None | Some(value: T)

  /** `Err` carries the exception a Python call would raise; `Ok` the value it would return. */
  datatype Result<+T, +E> = Ok(value: T) | Err(error: E)
}
