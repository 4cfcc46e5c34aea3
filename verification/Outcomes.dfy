/** Result shapes that the modules share. */
module Outcomes {

  /** An optional value: Python's `None` or a value. */
  datatype Option<+T> = None | Some(value: T)

  /** A returned value, or the exception that was raised instead of it. */
  datatype Result<+T, +E> = Ok(value: T) | Err(error: E)

  /** What `os.replace` and the steps around it did: nothing, the replacement and then an error, or all. */
  datatype ReplaceOutcome = NotReplaced | ReplacedThenFailed | Replaced
}
