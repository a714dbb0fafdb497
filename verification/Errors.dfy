/** Outcome classes of the argv parsers. Message wording is kept only where a
    branch of the source is recognisable by nothing else. */
module Errors {
  import opened Tokens

  datatype Error =
    | Usage(what: string)
    | Unrecognized(token: Token)
    | UnrecognizedIn(token: Token, table: string)
    | MissingParameter(option: Token)
    | MissingTerminator(table: string)
    | RepeatedSelector(option: Token)
    | InvalidRange(range: Token)
    // An arm of `finish_encrypt_segment` that rejects an option for its key length
    | KeyLengthArm(token: Token)
    // A consistency check of `finish_encrypt_segment` made after all tokens
    | LateCheck(what: string)
    // `Error::Internal` and the panicking paths
    | Internal(what: string)

  /** A callback that updates a parser in place: the new state, and the error if
      it failed. */
  datatype Pushed<+S> = Pushed(state: S, error: Option<Error>)
}
