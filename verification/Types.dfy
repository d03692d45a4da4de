/** Shared value types: optional and fallible results. */
module Types {

  datatype Option<+T> = None | Some(value: T)

  datatype Result<+T, +E> = Ok(value: T) | Err(error: E)

  /** An `f64` as the node sees it: a finite value, or NaN and the infinities. */
  datatype Float = Finite(r: real) | NotFinite
}
