/** Option and Result, used where the source signals absence (NaN after a
    dictionary `.map`) or raises. */
module Wrappers {

  datatype Option<+T> = None | Some(value: T)

  datatype Result<+R, +E> = Success(value: R) | Failure(error: E)
}
