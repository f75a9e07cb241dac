/** Option and Result values, and the Python exception kinds the pipeline raises. */
module Wrappers {

  datatype Option<T> = None | Some(value: T)

  /** The exceptions of the Python program that the model keeps as values. */
  datatype Error =
    | IndexError                   // list index out of range, empty random.choice
    | ValueError                   // int() of a malformed string
    | ConnectionError              // browser navigation failed
    | RuntimeError(message: string) // no article found after all attempts
    | PermissionError              // the chat API refused the token
    | SystemExit(code: int)        // sys.exit inside the program

  datatype Result<T> = Success(value: T) | Failure(error: Error)
}
