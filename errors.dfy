/**
 The two failures of the normalisation pipeline. The library raises them as
 exceptions (`ParseError`, `RuleError`, both subclasses of `SeraError`); here
 they are the error half of a result value.
 */
module Errors {

  /** Why a line was refused by the record parser. */
  datatype ParseFailure =
    | FieldCount(got: nat)  // splitting on '|' did not give exactly three fields
    | EmptyField            // the kind or the id field was empty

  datatype Error =
    | ParseError(reason: ParseFailure, raw: string)  // raw: the line without its trailing newlines
    | RuleError(op: string)                          // op: the rule's op exactly as given

  datatype Result<+T> = Ok(value: T) | Err(error: Error)
}
