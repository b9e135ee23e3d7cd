/** Failure-compatible wrappers used by every service of the model: a Java
    `Optional` becomes an `Option`, and a method that either returns or throws
    becomes a `Result` whose `Err` side names the exception. */
module Outcomes {

  datatype Option<+T> = None | Some(value: T) {

    /** `Optional.orElseThrow`: the value, or the given failure when absent. */
    function OrFail<E>(error: E): (r: Result<T, E>)
      ensures Some? <==> r.Ok?
      ensures Some? ==> r.value == value
      ensures None? ==> r.error == error
    {
      match this
      case Some(v) => Ok(v)
      case None => Err(error)
    }
  }

  datatype Result<+T, +E> = Ok(value: T) | Err(error: E) {

    predicate IsFailure() {
      Err?
    }

    function PropagateFailure<U>(): Result<U, E>
      requires Err?
    {
      Err(error)
    }

    function Extract(): T
      requires Ok?
    {
      value
    }
  }
}
