// What a page-store call can report. The error kinds are the sentinel errors of internal/pagestore,
// plus the failures of the operating system underneath.
module Outcomes {

  datatype Error =
    | NotScuteDB
    | BadVersion
    | BadPageSize
    | BadPageId
    | FreeMeta
    | FreeRoot
    | DoubleFree
    | NotAllocated
    | Corrupt
    | Closed
    | Full
    | Io
    | Poisoned(cause: Error)

  datatype Result<+T> = Ok(value: T) | Err(error: Error) {
    predicate IsFailure() { Err? }

    function PropagateFailure<U>(): Result<U>
      requires Err?
    {
      Err(error)
    }

    function Extract(): T
      requires Ok?
    {
      value
    }
  }

  datatype Option<+T> = None | Some(value: T)
}
