/** The structured error a failed parse exposes. */
module Errors {
  /** `ParserErrorType`, together with `RepeatedOccurenceOfOption`, which the
      argument processor raises although the enum does not declare it. */
  datatype ParserErrorType =
    | InvalidOptionIdentifier
    | CouldNotParseTheParameter
    | MissingMandatoryOption
    | MissingMandatoryPlainArgument
    | MissingOptionParameter
    | RepeatedOccurenceOfOption
    | Other

  /** What an error is about: `optionInError` as a handle, or a plain-argument position. */
  datatype Subject = NoSubject | OptionSubject(handle: nat) | PlainSubject(index: nat)

  /** `ParserError` without its human-readable message. */
  datatype ParserError = ParserError(errorType: ParserErrorType, subject: Subject)
}
