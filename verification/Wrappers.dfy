/** Failure-carrying results: a C++ exception becomes `Thrown`, an empty optional `None`. */
module Wrappers {
  datatype Option<+T> = None | Some(value: T)

  datatype Result<+T> = Ok(value: T) | Thrown(what: string) {
    predicate IsFailure() {
      Thrown?
    }

    function PropagateFailure<U>(): Result<U>
      requires Thrown?
    {
      Thrown(what)
    }

    function Extract(): T
      requires Ok?
    {
      value
    }
  }
}
