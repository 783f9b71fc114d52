/** Success/failure values shared by the codec and the program model. */
module Wrappers {

  datatype Result<+T, +E> = Ok(value: T) | Err(error: E) {
    function MapFailure<E2>(f: E -> E2): Result<T, E2> {
      match this
      case Ok(v) => Ok(v)
      case Err(e) => Err(f(e))
    }

    predicate IsFailure() {
      Err?
    }

    function PropagateFailure<U>(): Result<U, E>
      requires Err?
    {
      Err(error)
    }

    function Extract(): T
      requires Ok?
    {
      value
    }
  }
}
