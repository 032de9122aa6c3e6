/** Option and Result values shared by every module of the model. */
module Wrappers {

  datatype Option<+T> = None | Some(value: T)

  datatype Result<+T, +E> = Ok(value: T) | Err(error: E)

  /** Python truthiness of an optional integer: `None` and `0` are both false. */
  predicate Truthy(x: Option<int>)
  {
    x.Some? && x.value != 0
  }
}
