/** Option and Result, the failure-carrying values used throughout the model. */
module Wrappers {

  datatype Option<+T> = None | Some(value: T)

  /** Why a conversion step raised instead of returning a value. */
  datatype Error =
    | MultiLineRef          // the assertion that a reference stays on one line
    | IndexError            // a list index or a popped empty list
    | KeyError              // a missing dictionary key
    | AmbiguousCellRef      // the assertion that a name resolves to one cell
    | StepFailed            // a step outside the model (parsing, printing) raised

  datatype Result<+T> = Success(value: T) | Failure(error: Error) {
    predicate IsFailure() { Failure? }

    function PropagateFailure<U>(): Result<U>
      requires Failure?
    {
      Failure(error)
    }

    function Extract(): T
      requires Success?
    {
      value
    }
  }
}
