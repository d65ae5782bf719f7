/** Result types shared by the other modules. */
module Wrappers {

  datatype Option<+T> = None | Some(value: T)

  datatype Result<+T, +E> = Ok(value: T) | Err(error: E)

  /** A Go call that returns a value and an error, or stops with a run-time panic. */
  datatype Outcome<+T, +E> = Done(value: T) | Fail(error: E) | Panic {

    /** The same failure or panic with another value type. */
    function Propagate<U>(): (r: Outcome<U, E>)
      requires !Done?
    {
      match this
      case Fail(e) => Fail(e)
      case Panic => Panic
    }
  }
}
