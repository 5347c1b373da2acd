/**
 * The review controller's two endpoints: request validation, the status and
 * message of each failure, and the event stream of the streaming endpoint.
 */
module ReviewController {
  import opened Wrappers
  import opened Text
  import opened Upstream
  import opened ReviewPrompt
  import opened EventStream
  import Json
  import ErrorFormat
  import Fence
  import StreamRelay
  import ReviewService

  const MaxCodeLength := 50000
  const CodeRequiredText := "Code is required"
  const CodeTooLongText := "Code too long. Maximum 50,000 characters."
  const MalformedResponseText := "AI returned malformed response. Please try again."

  /** `code && code.trim()`: a string with something other than white space in it. */
  predicate HasCode(code: Field) {
    code.Str? && Trim(code.text) != ""
  }

  /** The JSON reply of the one-shot endpoint: `{ success: true, review }` (200) or `{ error }` with a status. */
  datatype Reply = ReviewReply(review: Json.Value) | ErrorReply(status: int, error: string)

  /** The status for an error that is not a `SyntaxError`: 429 exactly when the message names 429. */
  function UpstreamStatus(message: string): int {
    if Contains(message, "429") then 429 else 500
  }

  /** `getReview`. */
  function GetReview(code: Field, language: Field, generate: string -> Generated,
                     parse: string -> ParseResult): (r: Reply)
    ensures r.ErrorReply? ==> r.status in {400, 429, 500} && r.error != []
    ensures r.ReviewReply? ==> HasCode(code) && Utf16Length(code.text) <= MaxCodeLength
  {
    if !HasCode(code) then ErrorReply(400, CodeRequiredText)
    else if Utf16Length(code.text) > MaxCodeLength then ErrorReply(400, CodeTooLongText)
    else OutcomeReply(ReviewService.ReviewCode(code.text, language, generate, parse))
  }

  /** The reply for what the service returned: the review, or the error's status and message. */
  function OutcomeReply(outcome: Result<Json.Value, JsError>): Reply {
    match outcome
    case Ok(review) => ReviewReply(review)
    case Err(e) =>
      if e.kind == SyntaxError then ErrorReply(500, MalformedResponseText)
      else ErrorReply(UpstreamStatus(e.message), ErrorFormat.FormatError(e.message))
  }

  /**
   * Validation: missing, empty or all-white-space code is refused with "Code is
   * required"; code longer than 50,000 code units with the length message;
   * anything else reaches the service.
   */
  lemma GetReviewValidation(code: Field, language: Field, generate: string -> Generated,
                            parse: string -> ParseResult)
    ensures var r := GetReview(code, language, generate, parse);
      (r == ErrorReply(400, CodeRequiredText) <==> code.Undefined? || code.Null? || AllSpace(code.text))
      && (r == ErrorReply(400, CodeTooLongText) <==> HasCode(code) && Utf16Length(code.text) > MaxCodeLength)
      && (r.ErrorReply? && r.status == 400 <==> !HasCode(code) || Utf16Length(code.text) > MaxCodeLength)
  {
    if code.Str? {
      TrimEmptyIff(code.text);
    }
    assert |CodeRequiredText| != |CodeTooLongText|;
    if HasCode(code) && Utf16Length(code.text) <= MaxCodeLength {
      OutcomeReplyNot400(ReviewService.ReviewCode(code.text, language, generate, parse));
    }
  }

  /** A refused request never reaches the generation service: its reply is the same whatever the service would do. */
  lemma RejectionSkipsService(code: Field, language: Field, generate1: string -> Generated,
                              parse1: string -> ParseResult, generate2: string -> Generated,
                              parse2: string -> ParseResult)
    requires !HasCode(code) || Utf16Length(code.text) > MaxCodeLength
    ensures GetReview(code, language, generate1, parse1) == GetReview(code, language, generate2, parse2)
  {
  }

  /** Exactly 50,000 code units is still accepted. */
  lemma LengthLimitInclusive(code: string, language: Field, generate: string -> Generated,
                             parse: string -> ParseResult)
    requires Trim(code) != "" && Utf16Length(code) == MaxCodeLength
    ensures var r := GetReview(Str(code), language, generate, parse);
      r.ReviewReply? || r.status != 400
  {
    OutcomeReplyNot400(ReviewService.ReviewCode(code, language, generate, parse));
  }

  /** The service's outcomes never produce a 400. */
  lemma OutcomeReplyNot400(outcome: Result<Json.Value, JsError>)
    ensures var r := OutcomeReply(outcome); r.ErrorReply? ==> r.status in {429, 500}
  {
  }

  /**
   * Failure statuses: a decode failure is 500 with the malformed-response text;
   * any other error is 429 exactly when its message contains "429", else 500,
   * and carries the classified message. A success is the decoded review itself.
   */
  lemma GetReviewStatus(code: string, language: Field, generate: string -> Generated,
                        parse: string -> ParseResult)
    requires HasCode(Str(code)) && Utf16Length(code) <= MaxCodeLength
    ensures var r := GetReview(Str(code), language, generate, parse);
      var out := ReviewService.ReviewCode(code, language, generate, parse);
      (r.ReviewReply? <==> out.Ok?)
      && (out.Ok? ==> r.review == out.value)
      && (out.Err? && out.error.kind == SyntaxError ==> r == ErrorReply(500, MalformedResponseText))
      && (out.Err? && out.error.kind == OtherError ==>
            r.ErrorReply? && (r.status == 429 <==> Contains(out.error.message, "429"))
            && r.status in {429, 500} && r.error == ErrorFormat.FormatError(out.error.message))
  {
  }

  /** A message naming only the quota gets the rate-limit text but status 500, not 429. */
  lemma QuotaOnlyIsServerError(code: string, language: Field, generate: string -> Generated,
                               parse: string -> ParseResult)
    requires HasCode(Str(code)) && Utf16Length(code) <= MaxCodeLength
    requires generate(Prompt(code, language)) == GenerationFailed(JsError(OtherError, ErrorFormat.QuotaExceeded))
    ensures GetReview(Str(code), language, generate, parse)
      == ErrorReply(500, ErrorFormat.RateLimitText(ErrorFormat.DefaultWait))
  {
    var q := ErrorFormat.QuotaExceeded;
    assert ReviewService.ReviewCode(code, language, generate, parse) == Err(JsError(OtherError, q));
    ErrorFormat.QuotaExceededNot429();
    assert UpstreamStatus(q) == 500;
    ErrorFormat.DefaultDelayExample();
  }

  /** What the streaming endpoint produces: a 400 reply, or the frames written before the response was ended. */
  datatype StreamReply = Rejected(status: int, error: string) | Streamed(frames: seq<Frame>, ended: bool)

  /**
   * The frames of an accepted stream: one chunk frame per fragment, then one
   * terminal frame, the classified error if the source threw and the
   * conclusion drawn from the accumulated text otherwise.
   */
  function StreamFrames(g: Generation, parse: string -> ParseResult): (fs: seq<Frame>)
    ensures |fs| == |g.fragments| + 1 && IsTerminal(fs[|g.fragments|])
  {
    ChunkFrames(g.fragments)
    + [if g.failure.Some? then ErrorFrame(ErrorFormat.FormatError(g.failure.value.message))
       else StreamRelay.Conclusion(Concat(g.fragments), parse)]
  }

  /**
   * What `getReviewStream` produces: 400 for missing or blank code (there is
   * no length limit on this endpoint), otherwise the frames and an ended response.
   */
  function StreamReplyFor(code: Field, language: Field, stream: string -> Generation,
                          parse: string -> ParseResult): (r: StreamReply)
    ensures r.Rejected? <==> !HasCode(code)
    ensures r.Streamed? ==> r.ended && |r.frames| >= 1
  {
    if !HasCode(code) then Rejected(400, CodeRequiredText)
    else Streamed(StreamFrames(stream(Prompt(code.text, language)), parse), true)
  }

  /** `getReviewStream`: the chunk callback relays fragments as they come, then the terminal record ends the response. */
  method GetReviewStream(code: Field, language: Field, stream: string -> Generation,
                         parse: string -> ParseResult)
    returns (reply: StreamReply)
    ensures reply == StreamReplyFor(code, language, stream, parse)
  {
    if !HasCode(code) {
      return Rejected(400, CodeRequiredText);
    }
    ghost var g := stream(Prompt(code.text, language));
    var relay := new StreamRelay.Relay();
    var outcome := ReviewService.ReviewCodeStream(code.text, language, stream, relay);
    assert relay.frames == ChunkFrames(g.fragments);
    assert relay.fullText == Concat(g.fragments);
    match outcome {
      case Ok(_) =>
        relay.Complete(parse);
      case Err(e) =>
        relay.Abort(e);
    }
    return Streamed(relay.frames, relay.ended);
  }

  /** Code over the length limit is refused by the one-shot endpoint but streamed by the other. */
  lemma LengthLimitOnlyOneShot(code: string, language: Field, generate: string -> Generated,
                               stream: string -> Generation, parse: string -> ParseResult)
    requires Trim(code) != "" && Utf16Length(code) > MaxCodeLength
    ensures GetReview(Str(code), language, generate, parse) == ErrorReply(400, CodeTooLongText)
    ensures StreamReplyFor(Str(code), language, stream, parse).Streamed?
  {
  }

  /** Both endpoints refuse missing or blank code with the same reply, whatever the service would do. */
  lemma BlankCodeRejectedAlike(code: Field, language: Field, generate: string -> Generated,
                               stream: string -> Generation, parse: string -> ParseResult)
    requires !HasCode(code)
    ensures GetReview(code, language, generate, parse) == ErrorReply(400, CodeRequiredText)
    ensures StreamReplyFor(code, language, stream, parse) == Rejected(400, CodeRequiredText)
  {
  }

  /**
   * When the stream delivers in fragments exactly the text the one-shot call
   * returns, the stream ends in `done` with the same review the one-shot
   * endpoint replies with; when that text does not decode, the one-shot
   * endpoint answers 500 and the stream ends in the parse-failure error.
   */
  lemma StreamAgreesWithOneShot(code: string, language: Field, generate: string -> Generated,
                                stream: string -> Generation, parse: string -> ParseResult)
    requires HasCode(Str(code)) && Utf16Length(code) <= MaxCodeLength
    requires stream(Prompt(code, language)).failure.None?
    requires generate(Prompt(code, language)) == Generated(Concat(stream(Prompt(code, language)).fragments))
    ensures var fs := StreamFrames(stream(Prompt(code, language)), parse);
      var r := GetReview(Str(code), language, generate, parse);
      (fs[|fs| - 1].DoneFrame? <==> r.ReviewReply?)
      && (r.ReviewReply? ==> fs[|fs| - 1] == DoneFrame(r.review))
      && (r.ErrorReply? ==> r == ErrorReply(500, MalformedResponseText)
                            && fs[|fs| - 1] == ErrorFrame(StreamRelay.ParseFailureText))
  {
    var g := stream(Prompt(code, language));
    var text := Concat(g.fragments);
    var out := ReviewService.ReviewCode(code, language, generate, parse);
    assert GetReview(Str(code), language, generate, parse) == OutcomeReply(out);
    assert StreamFrames(g, parse)[|g.fragments|] == StreamRelay.Conclusion(text, parse);
    match parse(Fence.Clean(text)) {
      case Parsed(v) =>
        assert out == Ok(v);
      case Unparsable(m) =>
        assert out == Err(JsError(SyntaxError, m));
    }
  }

  /**
   * Exactly one terminal frame, and it is the last: every earlier frame is the
   * chunk frame of the fragment at that position.
   */
  lemma {:induction false} StreamEndsOnce(g: Generation, parse: string -> ParseResult)
    ensures var fs := StreamFrames(g, parse);
      |fs| == |g.fragments| + 1
      && IsTerminal(fs[|fs| - 1])
      && (forall i :: 0 <= i < |fs| - 1 ==> fs[i] == ChunkFrame(g.fragments[i]))
      && (forall i :: 0 <= i < |fs| && IsTerminal(fs[i]) ==> i == |fs| - 1)
  {
  }

  /**
   * The terminal frame: the classified error when the source threw; otherwise
   * `done` with the decoded review exactly when the cleaned accumulated text
   * decodes, and the parse-failure error when it does not.
   */
  lemma StreamTerminal(g: Generation, parse: string -> ParseResult)
    ensures var fs := StreamFrames(g, parse); var last := fs[|fs| - 1];
      var decoded := parse(Fence.Clean(Concat(g.fragments)));
      (g.failure.Some? ==> last == ErrorFrame(ErrorFormat.FormatError(g.failure.value.message)))
      && (g.failure.None? ==> (last.DoneFrame? <==> decoded.Parsed?))
      && (g.failure.None? && decoded.Parsed? ==> last == DoneFrame(decoded.value))
      && (g.failure.None? && decoded.Unparsable? ==> last == ErrorFrame(StreamRelay.ParseFailureText))
  {
  }
}
