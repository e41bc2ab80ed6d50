/** Option and Result types, and the exceptions the recognition code can raise. */
module Wrappers {

  datatype Option<+T> = None | Some(value: T)

  datatype Result<+T> = Success(value: T) | Failure(error: Error) {
    predicate IsFailure() { Failure? }
    function PropagateFailure<U>(): Result<U>
      requires Failure?
    {
      Failure(error)
    }
    function Extract(): T
      requires Success?
    {
      value
    }
  }

  /** The Python exceptions that the modelled code raises or catches. */
  datatype Error =
    | UnknownMethod(name: string)      // ValueError raised for an unrecognised method name
    | FileNotFound(name: string)       // FileNotFoundError
    | InvalidToken                     // a Fernet token that does not decrypt under the key
    | BadKeyText                       // binascii.Error from decoding the key text
    | IndexError                       // a ledger row with too few fields
    | UnboundMinutiae                  // UnboundLocalError: no ledger column for the method
    | MalformedMinutiae                // ast.literal_eval refusing a ledger field
    | ImageUnreadable(name: string)    // cv2.imread gave None and thresholding raised
    | OpenCvError                      // cv2.matchTemplate refusing its arguments
    | UndefinedFilePath                // NameError of the FileNotFoundError handler
}
