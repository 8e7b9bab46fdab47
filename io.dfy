/** The slice of `std::io` and `Option` the service relies on. */
module Io {
  datatype Option<+T> = None | Some(value: T)

  /** The `io::ErrorKind`s the service produces or can receive from its transport. */
  datatype ErrorKind =
    | NotFound
    | ConnectionRefused
    | ConnectionReset
    | BrokenPipe
    | TimedOut
    | UnexpectedEof
    | Other

  datatype IoError = IoError(kind: ErrorKind, message: string)

  /** `Result<T, io::Error>`. */
  datatype Result<+T> = Ok(value: T) | Err(error: IoError)

  /** Rust's unit value `()`. */
  datatype Unit = Unit
}
