/** Failure-compatible wrappers used throughout the model: an optional value
    (Python's `None` or an entity) and a result that is either a value or one
    of the exceptions the editor core raises. */
module Wrappers {

  datatype Option<+T> = None | Some(value: T)

  /** The exceptions raised by the editor core, by cause. */
  datatype Error =
    | MissingKey          // a dictionary lookup on a type key that is absent (KeyError)
    | ReferenceNotFound   // `insert_before` without the predicate or the reference
    | WrongKind           // an entity of the wrong class (ArgumentTypeError, InvalidArgsError, TypeError)
    | NoRootContainer     // `get_root_container` found no container above the entity

  datatype Result<+T> = Ok(value: T) | Err(error: Error) {
    predicate IsFailure() { Err? }

    function PropagateFailure<U>(): Result<U>
      requires Err?
    {
      Err(error)
    }

    function Extract(): T
      requires Ok?
    {
      value
    }
  }
}
