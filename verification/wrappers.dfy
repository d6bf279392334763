/** Option and Result: the model's stand-ins for Go's nil pointers and
    for the (value, error) return pairs of the gateway. */
module Wrappers {

  datatype Option<+T> = None | Some(value: T)

  datatype Result<+R, +E> = Success(value: R) | Failure(error: E)
}
