/** The outcome of a fallible operation.  The message texts are abstracted to kinds;
    `UnexpectedEof` is the one message the decoder tells apart, as "need more bytes". */
module Errors {
  datatype Error =
    | UnexpectedEof
    | ReservedBlockType
    | StoredLengthMismatch
    | TooManyDistanceCodes
    | BadCodeLengths
    | InvalidCode
    | RepeatWithoutPrevious
    | TooManyCodeLengths
    | InvalidCodeLengthSymbol
    | InvalidLiteralLengthSymbol
    | InvalidDistanceSymbol
    | TooLongBackReference
    | FedAfterEnd
    | Truncated
    | BadMagic
    | UnsupportedMethod
    | ChecksumMismatch
    | SizeMismatch

  datatype Result<+T> = Ok(value: T) | Err(error: Error)
  datatype Option<+T> = None | Some(value: T)
}
