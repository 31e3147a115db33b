/** Option and Result values for the cipher's exceptions and error returns. */
module Wrappers {

  datatype Option<+T> = None | Some(value: T)

  /** The exceptions the cipher raises, by cause. */
  datatype Error =
    | UnknownProfile          // an unrecognised profile name
    | TooFewRounds            // an explicit round count below 1
    | TooManyRounds           // an explicit round count above 100
    | KeyMismatch             // metadata made under a different key

  datatype Result<+T> = Ok(value: T) | Err(error: Error)
}
