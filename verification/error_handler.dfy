/** Input validation and the application error type (lib/error-handler.ts). */
module ErrorHandler {
  import opened JsString

  /** `AppError`: a message with an HTTP status code (500 unless given) and an operational flag. */
  datatype AppError = AppError(message: string, statusCode: int, isOperational: bool)

  function NewAppError(message: string, statusCode: int := 500, isOperational: bool := true): AppError {
    AppError(message, statusCode, isOperational)
  }

  /** A value of unknown type handed to `validateInput`: a string or anything else. */
  datatype Unknown = Text(s: string) | NotText

  /** What `validateInput` does: return the trimmed text or throw an `AppError`. */
  datatype Validated = Valid(value: string) | Thrown(error: AppError)

  const MaxInputLength: nat := 1000

  /**
    `validateInput`: a non-string is refused, then text that is empty once trimmed, then text
    longer than 1000 characters before trimming; every refusal is a 400 error. Accepted input
    comes back trimmed, and never empty.
  */
  function ValidateInput(input: Unknown, fieldName: string): (r: Validated)
    ensures r.Valid? <==> input.Text? && Trim(input.s) != [] && |input.s| <= MaxInputLength
    ensures r.Valid? ==> r.value == Trim(input.s) && r.value != []
    ensures r.Thrown? ==> r.error.statusCode == 400 && r.error.isOperational
    ensures input.NotText? ==> r.error.message == fieldName + " must be a string"
    ensures input.Text? && Trim(input.s) == [] ==> r.error.message == fieldName + " cannot be empty"
    ensures input.Text? && Trim(input.s) != [] && |input.s| > MaxInputLength
            ==> r.error.message == fieldName + " is too long"
  {
    match input
    case NotText => Thrown(NewAppError(fieldName + " must be a string", 400))
    case Text(s) =>
      var trimmed := Trim(s);
      if |trimmed| == 0 then Thrown(NewAppError(fieldName + " cannot be empty", 400))
      else if |s| > MaxInputLength then Thrown(NewAppError(fieldName + " is too long", 400))
      else Valid(trimmed)
  }

  /** Validating an accepted value again accepts it unchanged. */
  lemma ValidateInputIdempotent(input: Unknown, fieldName: string, otherName: string)
    requires ValidateInput(input, fieldName).Valid?
    ensures ValidateInput(Text(ValidateInput(input, fieldName).value), otherName)
            == ValidateInput(input, fieldName)
  {
    var v := ValidateInput(input, fieldName).value;
    TrimNoop(v);
  }
}
