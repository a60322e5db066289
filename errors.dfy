/** Results and the exceptions that rsub.py lets escape, as values. */
module Errors {

  datatype Option<T> = None | Some(value: T)

  /** The Python exceptions the modelled code can raise, by cause. */
  datatype Error =
    | Unpack                 // ValueError: `a, b = s.split(":", 1)` found no ':'
    | NotAnInteger           // ValueError: `int(s)` on a string that is not a decimal literal
    | MissingKey(key: seq<char>) // KeyError on `self.env[key]`
    | NoLocalPath            // AssertionError: `assert self.local_path`
    | FileNotFound           // unlink or open of a staged file that is not there
    | SocketClosed           // OSError: `send` on a socket that was already closed

  datatype Result<T> = Ok(value: T) | Err(error: Error)

  /** The outcome of a call that returns nothing: it finished, or it raised. */
  datatype Outcome = Pass | Fail(error: Error)
}
