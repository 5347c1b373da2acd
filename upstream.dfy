/**
 * The collaborators the server talks to, reduced to what it observes of them:
 * the fields of a request body, thrown JavaScript errors, the generation
 * service's one-shot and streamed outcomes, and the outcome of `JSON.parse`.
 */
module Upstream {
  import opened Wrappers
  import Json

  /** A request-body field as JavaScript sees it: absent, `null`, or a string. */
  datatype Field = Undefined | Null | Str(text: string)

  /** Whether a thrown error is a `SyntaxError` (what `JSON.parse` throws) or any other kind. */
  datatype ErrorKind = SyntaxError | OtherError

  /** A thrown error; `message` is `err.message`, with an absent message written as "". */
  datatype JsError = JsError(kind: ErrorKind, message: string)

  /** `generateContent`: the complete response text, or the error the call threw. */
  datatype Generated = Generated(text: string) | GenerationFailed(error: JsError)

  /**
   * `generateContentStream`: the text fragments delivered, in order, and the error
   * thrown after the last of them, if the stream failed (before or mid-stream).
   */
  datatype Generation = Generation(fragments: seq<string>, failure: Option<JsError>)

  /** `JSON.parse`: the decoded value, or the message of the `SyntaxError` it threw. */
  datatype ParseResult = Parsed(value: Json.Value) | Unparsable(message: string)
}
