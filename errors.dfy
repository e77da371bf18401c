/** Python exceptions the core raises or catches, and the two result shapes
    used to model "returns a value or raises". */
module Errors {

  /** The exception classes that matter to the core. `OSError` also stands for
      its subclasses (`FileNotFoundError`, `NotADirectoryError`, `shutil.Error`). */
  datatype Error = TypeError | ValueError | PermissionError | OSError

  /** A call that returns a value of type `T` or raises. */
  datatype Result<+T> = Ok(value: T) | Err(error: Error)

  /** A call that returns nothing or raises. */
  datatype Outcome = Pass | Fail(error: Error)
}
