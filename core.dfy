/** Shared result types and the error values the Lua bridge surfaces to scripts. */
module Core {

  datatype Option<+T> = None | Some(value: T) {
    function GetOr(default: T): T {
      match this
      case Some(v) => v
      case None => default
    }
  }

  /** Kinds of operating-system failures the filesystem model can report. */
  datatype IoKind =
    | NotFound        // reading a path that is not a file
    | IsADirectory    // writing to, or reading, a directory as a file
    | NotADirectory   // creating a directory where a file already is

  /** The errors of the bridge: mlua conversion errors, the crate's custom
      and context-wrapped errors, I/O errors, errors of the glob walk and
      a failed path difference. */
  datatype Error =
    | ConversionError(from: string, to: string, message: string)
    | Custom(message: string)
    | Cc(context: string, cause: Error)
    | Io(kind: IoKind, path: string)
    | Glob(message: string)
    | CannotDiff(path: string, base: string)

  /** The text of an error, as `to_string` renders it. */
  function Describe(e: Error): string {
    match e
    case ConversionError(from, to, message) => "error converting Lua " + from + " to " + to + " (" + message + ")"
    case Custom(message) => message
    case Cc(context, cause) => context + " - Cause: " + Describe(cause)
    case Io(NotFound, path) => "No such file or directory: " + path
    case Io(IsADirectory, path) => "Is a directory: " + path
    case Io(NotADirectory, path) => "Not a directory: " + path
    case Glob(message) => message
    case CannotDiff(path, base) => "Cannot diff " + path + " with " + base
  }

  datatype Result<+T> = Ok(value: T) | Err(error: Error) {
    predicate IsFailure() { Err? }
    function PropagateFailure<U>(): Result<U>
      requires Err?
    {
      Err(error)
    }
    function Extract(): T
      requires Ok?
    {
      value
    }
  }

  /** A result without a value, for operations that only change state. */
  datatype Outcome = Pass | Fail(error: Error) {
    predicate IsFailure() { Fail? }
    function PropagateFailure(): Outcome
      requires Fail?
    {
      this
    }
  }
}
