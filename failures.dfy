/** Option and Result types, and the Python exceptions the modelled code can raise. */
module Failures {

  datatype Option<+T> = None | Some(value: T)

  /** The exceptions that abort an explanation or a statistics query. */
  datatype Error =
    | NameError(name: string)        // a name that is not bound in the module
    | KeyError(key: string)          // a dictionary lookup with a missing key
    | MissingChild(index: nat)       // a parse-tree child that is not there (None, or past the end)
    | AttributeError(attr: string)   // an attribute the object does not have
    | ZeroDivisionError              // integer division by zero
    | Uncaught(exception: string)    // an exception raised by a called function, passed on

  datatype Result<+T> = Success(value: T) | Failure(error: Error) {
    predicate IsFailure() { Failure? }

    function PropagateFailure<U>(): Result<U>
      requires Failure?
    {
      Failure(error)
    }

    function Extract(): T
      requires Success?
    {
      value
    }
  }
}
