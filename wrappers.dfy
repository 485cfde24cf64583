/** Rust's Option and Result, as the bot's code uses them. */
module Wrappers {

  datatype Option<+T> = None | Some(value: T) {
    /** `unwrap_or`: the held value, or the given default. */
    function GetOr(default: T): T {
      match this
      case Some(v) => v
      case None => default
    }
  }

  datatype Result<+T, +E> = Ok(value: T) | Err(error: E) {
    /** `.ok()`: forgets the error. */
    function ToOption(): Option<T> {
      match this
      case Ok(v) => Some(v)
      case Err(_) => None
    }
  }
}

/** The outcome of one HTTP exchange, as the code inspects it. */
module Http {
  import opened Wrappers

  /**
   * `send()` failed (`Unreachable`), or a response arrived with a status
   * code, the status as `Display` renders it, and the body decoded as JSON
   * into `T` or the decoder's error.
   */
  datatype HttpOutcome<T> =
    | Unreachable(detail: string)
    | Responded(status: nat, statusText: string, body: Result<T, string>)

  /** `StatusCode::is_success`: a 2xx status. */
  predicate IsSuccess(status: nat) {
    200 <= status < 300
  }
}
