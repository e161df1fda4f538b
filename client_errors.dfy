/**
 * `parseErrorMessage`, which both client hooks define identically: pick the
 * server's `error` string out of a failed response, or fall back.
 */
module ClientErrors {
  import opened Text

  /** What `response.json()` gives for an error response, as far as `parseErrorMessage` can tell. */
  datatype ErrorPayload =
    | Unparseable            // `json()` rejected: not JSON, or the body could not be read
    | ErrorString(s: string) // an object whose `error` property is a string
    | NoErrorString          // parsed, but no string `error` (absent, another type, or not an object)

  /**
   * The code's test is `json.error && json.error.trim() !== ""`: the empty
   * string is falsy, a non-string `error` makes `trim` throw, and every throw
   * is swallowed.
   */
  function ParseErrorMessage(payload: ErrorPayload, fallback: string): string
  {
    match payload
    case ErrorString(s) => if s != "" && Trim(Js, s) != "" then s else fallback
    case _ => fallback
  }

  /**
   * The `error` string wins, untrimmed, exactly when it has a non-whitespace
   * character; in every other case, including unparseable bodies, the
   * fallback is returned, so the message is never blank unless the fallback is.
   */
  lemma ParseErrorMessageSpec(payload: ErrorPayload, fallback: string)
    ensures ParseErrorMessage(payload, fallback)
      == if payload.ErrorString? && !IsBlank(Js, payload.s) then payload.s else fallback
    ensures !IsBlank(Js, fallback) ==> !IsBlank(Js, ParseErrorMessage(payload, fallback))
  {
    if payload.ErrorString? {
      TrimEmptyIffBlank(Js, payload.s);
    }
  }
}
