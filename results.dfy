/** The exceptions the archive layer raises, and the Option/Result wrappers
    that carry them in place of Python's `raise`. */
module Results {

  datatype Option<+T> = None | Some(value: T) {
    function GetOr(default: T): T {
      match this
      case Some(v) => v
      case None => default
    }
  }

  /** The Python exception classes that the core raises or lets through.
      The payload of `KeyError` is the (normalised) member name in the message. */
  datatype Error =
    | FileNotFoundError
    | FileExistsError
    | NotImplementedError
    | KeyError(name: string)
    | ValueError
    | IndexError
    | TypeError
    /** `io.UnsupportedOperation`, which rarfile raises when asked to read a directory. */
    | UnsupportedOperation

  datatype Result<+T> = Ok(value: T) | Err(error: Error)

  /** The result of an operation that returns `None` in Python. */
  datatype Outcome = Pass | Fail(error: Error)
}
