/** Values for results that may be absent or may be an exception of the original. */
module Wrappers {

  datatype Option<+T> = None | Some(value: T)

  /** A normal return, or the C++ exception that leaves the call. */
  datatype Result<+T> = Ok(value: T) | Thrown(message: string) {

    predicate IsFailure() {
      Thrown?
    }

    function PropagateFailure<U>(): Result<U>
      requires Thrown?
    {
      Thrown(message)
    }

    function Extract(): T
      requires Ok?
    {
      value
    }
  }

  /** What std::string::substr and vector::at throw. */
  const OUT_OF_RANGE := "out_of_range"
}
