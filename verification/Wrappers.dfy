/** Result and option types shared by every component, and the ways the record
    store can fail. */
module Wrappers {

  datatype Option<+T> = None | Some(value: T) {
    predicate IsFailure() { None? }

    function PropagateFailure<U>(): Option<U>
      requires None?
    { None }

    function Extract(): T
      requires Some?
    { value }
  }

  datatype StoreError =
    | Truncated
    | BadInflate
    | BadUtf8
    | DiffWithoutBase
    | DiffOutOfRange
    | IndexOutOfRange

  datatype Result<+T, +E> = Ok(value: T) | Err(error: E) {
    predicate IsFailure() { Err? }

    function PropagateFailure<U>(): Result<U, E>
      requires Err?
    { Err(error) }

    function Extract(): T
      requires Ok?
    { value }
  }
}
