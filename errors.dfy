/** The error taxonomy of include/json/error.hpp and the error-returning
    result type (`std::expected<T, Error>`). */
module Errors {

  datatype ErrorCode =
    | NoError          // ErrorCode::None
    | UnexpectedEOF
    | InvalidToken
    | InvalidNumber
    | InvalidString
    | InvalidEscape
    | UnexpectedToken
    | ExpectedColon
    | ExpectedComma
    | ExpectedValue
    | TooDeep
    | OutOfMemory

  /** The static message table `error_message`. */
  function ErrorMessage(code: ErrorCode): string {
    match code
    case NoError => "No error"
    case UnexpectedEOF => "Unexpected end of file"
    case InvalidToken => "Invalid token"
    case InvalidNumber => "Invalid number format"
    case InvalidString => "Invalid string"
    case InvalidEscape => "Invalid escape sequence"
    case UnexpectedToken => "Unexpected token"
    case ExpectedColon => "Expected ':'"
    case ExpectedComma => "Expected ','"
    case ExpectedValue => "Expected value"
    case TooDeep => "Nesting too deep"
    case OutOfMemory => "Out of memory"
  }

  /** An error: its code, the byte offset it points at, and its message. */
  datatype Error = Error(code: ErrorCode, offset: nat, message: string)

  datatype Result<+T> = Ok(value: T) | Err(error: Error)

  /** A value that may be absent: a lookahead slot, or a `Node*` that may be null. */
  datatype Option<+T> = None | Some(value: T)

  /** An error carrying the code's standard message. */
  function Fail<T>(code: ErrorCode, offset: nat): Result<T> {
    Err(Error(code, offset, ErrorMessage(code)))
  }
}
