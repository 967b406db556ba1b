/** Failure-compatible results shared by every module. */
module Wrappers {

  datatype Option<+T> = None | Some(value: T) {
    predicate IsFailure() {
      None?
    }

    function PropagateFailure<U>(): Option<U>
      requires None?
    {
      None
    }

    function Extract(): T
      requires Some?
    {
      value
    }
  }

  datatype Result<+T, +E> = Ok(value: T) | Err(error: E) {
    predicate IsFailure() {
      Err?
    }

    function PropagateFailure<U>(): Result<U, E>
      requires Err?
    {
      Err(error)
    }

    function Extract(): T
      requires Ok?
    {
      value
    }
  }

  /** The error kinds of `VfsError`. The display path each one carries is presentation and is dropped. */
  datatype VfsError =
    | NotFound
    | IsDirectory
    | NotDirectory
    | PermissionDenied
    | InvalidInput
    | EscapesRoot
    | UnsupportedRepositoryBoundary
    | Io
    | Provider

  type VfsResult<+T> = Result<T, VfsError>
}
