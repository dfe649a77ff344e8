/** Option and Result, the failure-compatible wrappers used across the model, and the
    two fatal conditions (Go panics) of the schema package. */
module Wrappers {

  datatype Option<+T> = None | Some(value: T)

  datatype Result<+T, +E> = Ok(value: T) | Err(error: E) {
    predicate IsFailure() { Err? }

    function PropagateFailure<U>(): Result<U, E>
      requires Err?
    {
      Err(error)
    }

    function Extract(): T
      requires Ok?
    {
      value
    }
  }

  /** A panic of the schema package: an unknown type keyword in a field definition
      (with the offending field's dotted path), or a described group whose namespace
      was never built. */
  datatype Failure =
    | UnknownType(typ: string, field: string)
    | NoNamespace(path: string)
}
