/** Errors and the small failure-carrying datatypes shared by every module.

    Go reports failure through a nil-or-not `error`; here that becomes an
    `Outcome`. Errors that the program only passes along (a process exit
    status, an os.Stat failure, a failed kill) are `Opaque` and differ only by
    an identifier, which is all the model needs to tell one from another.
 */
module Outcomes {

  datatype Error =
    | Opaque(id: nat)
    | NoDiskSpecified
    | UnknownFileSystem(fsType: string)
    | FailedToFind(device: string)
    | KeyNotFound(output: string)
    | StdoutAlreadySet
    | StderrAlreadySet
    | CommandFailed(argv: seq<string>, cause: Error)

  /** A Go `error` result: nil is `Ok`. */
  datatype Outcome = Ok | Fail(error: Error)

  /** A Go `(T, error)` pair in which exactly one side is meaningful. */
  datatype Result<T> = Got(value: T) | Failed(error: Error)

  /** A Go pointer or func value that may be nil. */
  datatype Option<T> = None | Some(value: T)
}
