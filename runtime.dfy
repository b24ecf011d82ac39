/** Values of the Python runtime that the bot script relies on: an optional
    value (`None` or a `str`), a result that is either a value or a raised
    exception, and the exceptions the script can raise. */
module Runtime {

  /** A Python value that is either `None` or present. */
  datatype Option<+T> = None | Some(value: T)

  /** The outcome of a call that either returns a value or raises. */
  datatype Result<+T> = Ok(value: T) | Raised(error: Exception)

  /** The exceptions that escape from the script's own code. */
  datatype Exception =
    | KeyError(key: string)   // `d['key']` on a dictionary without that key
    | IndexError              // `[]` indexed at 0
    | ValueError(got: nat)    // unpacking `got` values into three names
    | TypeError               // `file.write(None)`
    | NetworkError            // a Telegram send that did not go through
}
