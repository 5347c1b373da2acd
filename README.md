# AI code reviewer: the review pipeline in Dafny

This project models the core of an AI code-review web application and proves
properties of that model. A browser sends source code to an Express server. The
server asks a generative model for a review, cleans the model's text, decodes it
as JSON, and answers in one of two ways:

- **One-shot endpoint** (`getReview`): a single JSON reply, or an error status
  with a message.
- **Streaming endpoint** (`getReviewStream`): a server-sent event stream. Each
  fragment from the model is relayed as a `chunk` record. The stream then ends
  with exactly one terminal record: `done` with the decoded review, or `error`.

The React front end shows the review: a score gauge, severity counts, issue
cards, metric bars and tabs. Its code editor highlights the code, numbers the
lines and handles the Tab key.

## Modules

| file | module | what it models |
|---|---|---|
| `wrappers.dfy` | `Wrappers` | `Option` and `Result` |
| `text.dfy` | `Text` | The JavaScript string operations the code relies on: `trim`, `includes`, `startsWith`/`endsWith`, `split` on one character, `length` in UTF-16 code units, and decimal rendering |
| `json.dfy` | `Json` | JSON values and `JSON.stringify` with the string escaping of RFC 8259 section 7; `Unescape` reads a string literal's body back |
| `upstream.dfy` | `Upstream` | What the server observes of its collaborators: request-body fields, thrown errors, the generation service's outcomes and the outcome of `JSON.parse` |
| `error_format.dfy` | `ErrorFormat` | `formatError`, including the two `retry` regular expressions |
| `fence.dfy` | `Fence` | The markdown-fence cleaner that both back-end call sites apply |
| `prompt.dfy` | `ReviewPrompt` | The user prompt that both service calls build |
| `event_stream.dfy` | `EventStream` | Frames, `data:` records and the response body (WHATWG HTML Living Standard, section 9.2) |
| `relay.dfy` | `StreamRelay` | The streaming handler's state, as class `Relay`: the `fullText` accumulator, the frames written, and whether the response has ended |
| `review_service.dfy` | `ReviewService` | `reviewCode`, and `reviewCodeStream` as a method with the fragment loop |
| `review_controller.dfy` | `ReviewController` | `getReview` and `getReviewStream` |
| `code_editor.dfy` | `CodeEditor` | `LANG_MAP` lookup, line count and gutter, Tab handling, trailing-newline padding |
| `score_gauge.dfy` | `ScoreGauge` | Label and colour bands |
| `review_panel.dfy` | `ReviewPanel` | Severity counts, style lookups with fallbacks, issue cards, header fields, tabs |

The generation service and `JSON.parse` are function-valued parameters:

- `generate: string -> Generated`: prompt in, text or thrown error out.
- `stream: string -> Generation`: prompt in, fragments delivered in order plus an optional error thrown after them.
- `parse: string -> ParseResult`: decoded value, or the message of the `SyntaxError`.

"A rejected request never reaches the service" is stated as independence: the
reply is the same whatever those functions do.

Two behaviours of the code are easy to miss, and the model states both:

- **Length limit.** Only the one-shot endpoint checks the 50,000-character limit
  (`ai.controller.js:24`). The streaming endpoint accepts code of any length
  (`LengthLimitOnlyOneShot`).
- **Rate-limit status.** The status is 429 only when the error message contains
  "429" (`ai.controller.js:41`). A message that only mentions the quota or "Too
  Many Requests" still gets the rate-limit text, but with status 500
  (`QuotaOnlyIsServerError`).

## Model

| member | source | states |
|---|---|---|
| Text.Trim | BackEnd/src/controllers/ai.controller.js:20 | `trim` leaves no JavaScript white space at either end |
| Text.TrimInfix | BackEnd/src/controllers/ai.controller.js:20 | `trim` removes only white space, and only from the ends: the result is an infix with all-space parts on both sides |
| Text.TrimEmptyIff | BackEnd/src/controllers/ai.controller.js:20 | `!code.trim()` holds exactly when every character of the code is white space |
| Text.ContainsIff | BackEnd/src/controllers/ai.controller.js:5 | `includes` holds exactly when the needle occurs at some index |
| Text.Utf16LengthBounds | BackEnd/src/controllers/ai.controller.js:24 | `code.length` lies between the number of characters and twice that, and equals it when every character is in the Basic Multilingual Plane |
| Text.SplitCount | Frontend/src/components/CodeEditor.jsx:42 | `split("\n")` yields one more piece than there are line feeds, and no piece contains a line feed |
| Text.SplitJoin | Frontend/src/components/CodeEditor.jsx:42 | the pieces of `split` joined with the separator give the text back |
| Text.NatToStringRoundTrip | Frontend/src/components/ReviewPanel.jsx:147 | a number rendered in decimal reads back as that number |
| Json.EscapeChar | BackEnd/src/controllers/ai.controller.js:65 | each character is written as a non-empty escape with no control character; a character is written as itself exactly when it is neither a control character, a quote nor a backslash |
| Json.StringifyPrintable | BackEnd/src/controllers/ai.controller.js:77 | the serialised form of any JSON value holds no control character, so no raw line break |
| Json.UnescapeEscape | BackEnd/src/controllers/ai.controller.js:65 | reading an escaped string literal back gives exactly the original text |
| ErrorFormat.FormatError | BackEnd/src/controllers/ai.controller.js:3-14 | the message shown to the user is never empty |
| ErrorFormat.RateLimitFirst | BackEnd/src/controllers/ai.controller.js:5-9 | a message with "429", "Too Many Requests" or "quota" gets the rate-limit text with the extracted wait, and never the invalid-key text |
| ErrorFormat.CredentialText | BackEnd/src/controllers/ai.controller.js:10-12 | "API_KEY" or "401" without a rate-limit marker gives the fixed invalid-key text |
| ErrorFormat.FallbackText | BackEnd/src/controllers/ai.controller.js:13 | any other message is passed through verbatim; an empty one becomes the generic failure text |
| ErrorFormat.RetrySecondsFromMessage | BackEnd/src/controllers/ai.controller.js:6-7 | the wait is always a non-empty run of digits; it is copied from the message when a pattern matches; it is the `retry in` capture (any case) when that pattern matches, else the `retryDelay` capture when that one matches, and "30" when neither matches |
| ErrorFormat.RetrySeconds | BackEnd/src/controllers/ai.controller.js:6-7 | the wait put into the rate-limit text is always a non-empty run of digits; which capture it is is stated by RetrySecondsFromMessage |
| ErrorFormat.RateLimitTextInjective | BackEnd/src/controllers/ai.controller.js:8 | the wait in the rate-limit text can be read back, so different waits give different texts |
| ErrorFormat.DigitRun | BackEnd/src/controllers/ai.controller.js:6 | `\d+` takes the maximal run of digits: all digits, followed by the end or a non-digit |
| ErrorFormat.CaptureAt | BackEnd/src/controllers/ai.controller.js:6 | the pattern matches at an index exactly when the literal part matches there, a non-empty digit run follows it, and an `s` follows the whole run; the capture is that whole run |
| ErrorFormat.FirstMatch | BackEnd/src/controllers/ai.controller.js:6 | `match` reports a matching index and no match before it, or no match anywhere |
| ErrorFormat.FirstMatchIsLeftmost | BackEnd/src/controllers/ai.controller.js:6 | conversely, the leftmost matching index is the one `match` reports |
| ErrorFormat.FirstMatchNone | BackEnd/src/controllers/ai.controller.js:6 | with no matching index, `match` reports no match |
| ErrorFormat.StatedDelayExample | BackEnd/src/controllers/ai.controller.js:5-8 | "429 Too Many Requests, retry in 12s" gives the rate-limit text with 12 seconds |
| ErrorFormat.DefaultDelayExample | BackEnd/src/controllers/ai.controller.js:7 | "quota exceeded", which states no delay, gives the rate-limit text with 30 seconds |
| Fence.StripJsonFence | BackEnd/src/services/ai.service.js:66 | text is changed exactly when it starts with "```json"; then that marker is removed from the front, with the line feed after it when there is one |
| Fence.StripOpenFence | BackEnd/src/services/ai.service.js:67 | text is changed exactly when it starts with "```"; then that marker is removed from the front, with the line feed after it when there is one |
| Fence.StripCloseFence | BackEnd/src/services/ai.service.js:68 | text is changed exactly when it ends with "```"; then that marker is removed from the end, with the line feed before it when there is one |
| Fence.Clean | BackEnd/src/controllers/ai.controller.js:70-74 | the cleaned text has no white space at either end |
| Fence.CleanUnfenced | BackEnd/src/services/ai.service.js:65-69 | text that neither starts nor ends with a fence marker is only trimmed |
| Fence.CleanJsonFenced | BackEnd/src/services/ai.service.js:65-69 | a body wrapped in a "```json" fence cleans to the trimmed body |
| Fence.CleanPlainFenced | BackEnd/src/controllers/ai.controller.js:70-74 | a body wrapped in a plain "```" fence cleans to the trimmed body |
| Fence.ClosingFenceBeforeWhitespaceKept | BackEnd/src/services/ai.service.js:68-69 | the end anchor is tested before trimming: for any text that does not start with a backtick, a closing marker followed by any non-empty white space is kept |
| Fence.FencedClosingKept | BackEnd/src/services/ai.service.js:66-69 | the same holds for a "```json"-fenced response: white space after its closing marker keeps the marker in the cleaned text |
| ReviewPrompt.Prompt | BackEnd/src/services/ai.service.js:52-55 | the prompt is exactly the language header, then the code, then a line feed and the closing fence: it starts with the header, ends with the code and the fence, and has the length of the three together; DefaultLanguage and NamedLanguage state the two headers |
| ReviewPrompt.DefaultLanguage | BackEnd/src/services/ai.service.js:43-55 | an omitted language takes the "auto" branch with no language line; `null` is written as "null" |
| ReviewPrompt.NamedLanguage | BackEnd/src/services/ai.service.js:52-55 | any other language gives exactly `Language: <l>`, a blank line, `Code to review:`, a fence tagged with the language, the code and the closing fence |
| ReviewPrompt.CodeRecoverable | BackEnd/src/services/ai.service.js:52-55 | for a fixed language, the code is carried verbatim: different code gives different prompts |
| EventStream.ChunkFrames | BackEnd/src/controllers/ai.controller.js:63-66 | one chunk frame per fragment, in order, carrying that fragment |
| EventStream.DataLinePrintable | BackEnd/src/controllers/ai.controller.js:65 | a record's data line contains neither a line feed nor a carriage return |
| EventStream.WireLines | BackEnd/src/controllers/ai.controller.js:63-90 | split at line feeds, the body is each record's data line followed by one empty line, so record boundaries are unambiguous |
| EventStream.ChunkRecordText | BackEnd/src/controllers/ai.controller.js:65 | a chunk record's data line is `data: {"chunk":"` + escaped text + `"}` |
| EventStream.ChunkRecordDecodes | BackEnd/src/controllers/ai.controller.js:65 | the chunk text reads back unchanged from its record |
| StreamRelay.Conclusion | BackEnd/src/controllers/ai.controller.js:69-82 | the terminal frame is `done` exactly when the cleaned accumulator decodes, carrying the decoded value; otherwise it is the parse-failure error |
| StreamRelay.Relay.constructor | BackEnd/src/controllers/ai.controller.js:61 | an empty accumulator, nothing written, not ended |
| StreamRelay.Relay.OnChunk | BackEnd/src/controllers/ai.controller.js:63-66 | the chunk callback appends the fragment to the accumulator and writes its chunk frame, keeping the invariant `fullText == Concat(chunks)` with one chunk frame per fragment |
| StreamRelay.Relay.Complete | BackEnd/src/controllers/ai.controller.js:69-84 | writes exactly one terminal frame, the conclusion drawn from the accumulator, and ends the response |
| StreamRelay.Relay.Abort | BackEnd/src/controllers/ai.controller.js:85-90 | writes exactly one error frame with the classified message and ends the response |
| ReviewService.ReviewCode | BackEnd/src/services/ai.service.js:43-71 | an error that is not a `SyntaxError` is exactly the generation service's thrown error; ReviewCodeOutcome states the success and decode cases |
| ReviewService.ReviewCodeOutcome | BackEnd/src/services/ai.service.js:57-71 | a review is returned exactly when the cleaned response decodes, and it is the decoded value; a failed call propagates its error; undecodable text raises a `SyntaxError` |
| ReviewService.ReviewCodeStream | BackEnd/src/services/ai.service.js:93-100 | every fragment reaches the callback once, in order; the returned text is the concatenation of the fragments, the same as the callback's accumulator; a stream error is propagated after the fragments already delivered |
| ReviewService.AccumulatorEndsWithChunk | BackEnd/src/services/ai.service.js:94-97 | when the callback receives a fragment, the accumulated text already ends with it and grew by exactly that fragment |
| ReviewController.GetReview | BackEnd/src/controllers/ai.controller.js:16-44 | every error reply has status 400, 429 or 500 and a non-empty message; a review is returned only for non-blank code within the length limit; GetReviewValidation and GetReviewStatus state each case |
| ReviewController.GetReviewValidation | BackEnd/src/controllers/ai.controller.js:20-28 | missing, null or all-white-space code gets 400 "Code is required"; other code longer than 50,000 code units gets 400 with the length message; nothing else gets 400 |
| ReviewController.RejectionSkipsService | BackEnd/src/controllers/ai.controller.js:20-30 | a rejected request's reply does not depend on the generation service or the decoder |
| ReviewController.LengthLimitInclusive | BackEnd/src/controllers/ai.controller.js:24 | code of exactly 50,000 code units is accepted |
| ReviewController.OutcomeReplyNot400 | BackEnd/src/controllers/ai.controller.js:30-43 | a service outcome is answered with the review or with status 429 or 500, never 400 |
| ReviewController.GetReviewStatus | BackEnd/src/controllers/ai.controller.js:30-43 | success replies with the decoded review; a `SyntaxError` gets 500 with the malformed-response text; any other error gets 429 exactly when its message contains "429", else 500, with the classified message |
| ReviewController.QuotaOnlyIsServerError | BackEnd/src/controllers/ai.controller.js:41-42 | the error message "quota exceeded" gets the rate-limit text with 30 seconds, but status 500 because it does not contain "429" |
| ReviewController.StreamFrames | BackEnd/src/controllers/ai.controller.js:61-90 | one frame per fragment plus one, the last of them terminal; StreamEndsOnce and StreamTerminal state which frames they are |
| ReviewController.StreamReplyFor | BackEnd/src/controllers/ai.controller.js:46-92 | a request is rejected exactly when its code is missing or blank; an accepted one ends the response after at least one frame |
| ReviewController.GetReviewStream | BackEnd/src/controllers/ai.controller.js:46-92 | the streaming handler rejects blank code with 400; otherwise it writes one chunk frame per fragment and one terminal frame, and ends the response |
| ReviewController.LengthLimitOnlyOneShot | BackEnd/src/controllers/ai.controller.js:48-63 | code over the limit is refused by `getReview` but streamed by `getReviewStream` |
| ReviewController.BlankCodeRejectedAlike | BackEnd/src/controllers/ai.controller.js:50-52 | both endpoints refuse blank code with the same 400 reply |
| ReviewController.StreamAgreesWithOneShot | BackEnd/src/controllers/ai.controller.js:69-82 | if the stream's fragments concatenate to the one-shot text, the stream ends in `done` with the same review the one-shot endpoint returns; if that text does not decode, the one-shot reply is 500 and the stream ends in the parse-failure error |
| ReviewController.StreamEndsOnce | BackEnd/src/controllers/ai.controller.js:63-90 | an accepted stream has exactly one terminal frame and it is the last; every earlier frame is the chunk frame of the fragment at that position |
| ReviewController.StreamTerminal | BackEnd/src/controllers/ai.controller.js:69-90 | the terminal frame is the classified error if the stream threw; otherwise it is `done` with the decoded value exactly when the cleaned accumulator decodes, and the parse-failure error when it does not |
| CodeEditor.PrismLanguage | Frontend/src/components/CodeEditor.jsx:15-38 | a known language maps to itself; "auto", a missing language and an unknown one fall back to "javascript"; the grammar is always one that was loaded |
| CodeEditor.LineCountNewlines | Frontend/src/components/CodeEditor.jsx:42 | the line count is the number of line feeds plus one, and 1 for a missing value |
| CodeEditor.Gutter | Frontend/src/components/CodeEditor.jsx:70-74 | exactly `max(lineCount, 1)` numbers, numbered 1, 2, … |
| CodeEditor.GutterNumbersLines | Frontend/src/components/CodeEditor.jsx:42-74 | for any text, the gutter numbers exactly its lines |
| CodeEditor.Substring | Frontend/src/components/CodeEditor.jsx:58 | `substring` returns the slice between its indices, in either order; an index below 0 counts as 0 and one past the end as the length, for every combination of in-range and out-of-range indices |
| CodeEditor.HandleKeyDown | Frontend/src/components/CodeEditor.jsx:53-65 | only the Tab key produces an edit |
| CodeEditor.TabReplacesSelection | Frontend/src/components/CodeEditor.jsx:54-63 | Tab replaces the selection with two spaces: the length changes by 2 minus the selection's length, the text before and after it is unchanged, and the caret lands right after the spaces |
| CodeEditor.TabAtCaretInserts | Frontend/src/components/CodeEditor.jsx:56-58 | with no selection, removing the two inserted spaces gives the old text back |
| CodeEditor.PadHighlight | Frontend/src/components/CodeEditor.jsx:82 | one space is appended to the highlighted markup exactly when the text ends with a line feed |
| ScoreGauge.Color | Frontend/src/components/ScoreGauge.jsx:22-27 | primary exactly for a score of 80 or more, warning exactly for 60 to 79, danger exactly below 60 |
| ScoreGauge.Label | Frontend/src/components/ScoreGauge.jsx:29-30 | "Excellent" exactly for 80 or more, "Good" for 60 to 79, "Fair" for 40 to 59, "Needs Work" below 40 |
| ScoreGauge.LabelMonotone | Frontend/src/components/ScoreGauge.jsx:29-30 | a higher score never gets a lower verdict |
| ScoreGauge.ColorFollowsLabel | Frontend/src/components/ScoreGauge.jsx:22-30 | the colour bands and the verdict bands share the boundaries at 80 and 60: "Fair" and "Needs Work" both get danger |
| ReviewPanel.TallyCountsPositions | Frontend/src/components/ReviewPanel.jsx:75-77 | a count is the number of issues whose severity is exactly that string |
| ReviewPanel.SeverityCount | Frontend/src/components/ReviewPanel.jsx:75-77 | a count is 0 when the issue list is missing, and never more than the number of issues |
| ReviewPanel.CountsCoverIssues | Frontend/src/components/ReviewPanel.jsx:75-77 | the three counts sum to at most the number of issues, with equality exactly when every issue is critical, warning or info |
| ReviewPanel.CountBadge | Frontend/src/components/ReviewPanel.jsx:100-108 | a count badge is shown exactly for a positive count, with the number first |
| ReviewPanel.NoIssuesNoBadges | Frontend/src/components/ReviewPanel.jsx:75-108 | a review without an issue list shows no count badge |
| ReviewPanel.SeverityConfig | Frontend/src/components/ReviewPanel.jsx:5-33 | critical and warning issues get their own style; every other severity, missing included, gets the info style |
| ReviewPanel.MetricBarOf | Frontend/src/components/ReviewPanel.jsx:11-129 | Low, Medium and High give 33%, 66% and 100% bars in their colours; any other value gets a 50% bar in the info colour and no text colour |
| ReviewPanel.MetricsGrid | Frontend/src/components/ReviewPanel.jsx:113-136 | no grid without metrics; otherwise one bar per entry, in order, under its key |
| ReviewPanel.Toggle | Frontend/src/components/ReviewPanel.jsx:39 | clicking a card header flips whether it is expanded |
| ReviewPanel.ExpandedAtStartCount | Frontend/src/components/ReviewPanel.jsx:32 | of n cards, exactly min(n, 2) start expanded |
| ReviewPanel.LineBadgeOf | Frontend/src/components/ReviewPanel.jsx:48-50 | no badge without a line number; line 0 renders the bare text "0"; any other line gets `Line <n>` |
| ReviewPanel.LineBadgeReadsBack | Frontend/src/components/ReviewPanel.jsx:49 | the number on a line badge reads back as the issue's line |
| ReviewPanel.IssueCard | Frontend/src/components/ReviewPanel.jsx:31-69 | the card uses the severity's style; its body is shown exactly when expanded; the fix section appears exactly for a non-empty fix |
| ReviewPanel.ShownScore | Frontend/src/components/ReviewPanel.jsx:92 | the gauge shows the review's score, and 0 when it is missing |
| ReviewPanel.MissingScoreNeedsWork | Frontend/src/components/ReviewPanel.jsx:92 | a review without a score is gauged "Needs Work" in the danger colour |
| ReviewPanel.ShownLanguage | Frontend/src/components/ReviewPanel.jsx:96 | the badge shows the language, and "Unknown" when it is missing or empty |
| ReviewPanel.FixedCodeText | Frontend/src/components/ReviewPanel.jsx:189 | the copy button copies the fixed code, or "" when it is missing |
| ReviewPanel.TabLabels | Frontend/src/components/ReviewPanel.jsx:141-151 | three tabs, in order, the last labelled "Fixed Code" |
| ReviewPanel.TabLabelCounts | Frontend/src/components/ReviewPanel.jsx:147-148 | the number in the issues and best-practices labels reads back as the length of that list, and 0 when it is missing |
| ReviewPanel.IssuesTab | Frontend/src/components/ReviewPanel.jsx:156-168 | the empty state is shown exactly when the issue list is missing or empty; otherwise one card per issue, in order, card i expanded exactly when i < 2 |
| ReviewPanel.FirstTwoOpen | Frontend/src/components/ReviewPanel.jsx:156-160 | on first display, exactly the first two cards show their body |

## Left out

- The generation service: `getGenerativeModel`, the model name, temperature and token limit, the system prompt and the SDK's request format. Only the user prompt, and the outcome as text, fragments or a thrown error, are modelled.
- `JSON.parse` is a parameter. Only the string-literal escaping that `Unescape` models is made concrete.
- `Json.Unescape`: a `\u` escape of a UTF-16 surrogate, such as a pair `\uD83D\uDE00` written by another encoder, is not decoded. Text escaped by `Escape` is read back for every string, because `Escape` writes characters above U+FFFF as themselves.
- Lone UTF-16 surrogates: a JavaScript string, and so the request's `code`, can hold one, and `JSON.stringify` escapes it as `\udxxx`. A Dafny `char` cannot represent it, so such strings are not modelled.
- `Json.Stringify`: numbers are integers only. Floating-point rendering is not modelled.
- HTTP plumbing: Express routing, the event-stream headers, `flushHeaders`, and `res.write` failures.
- Logging with `console.error`.
- Client disconnects and cancellation of the stream.
- Request-body fields that are neither strings, `null` nor absent. A number `code`, for instance: `0` is falsy and gets 400 "Code is required" from both endpoints. Any other number makes `code.trim` throw a `TypeError`. In `getReview` that error is answered with 500 and its message. In `getReviewStream` it is thrown before the event-stream headers are set and caught by the outer handler, which writes one error record on a 200 response and ends it.
- `err.message` that is not a string. An absent message is modelled as "".
- Look-ups of inherited object keys such as "constructor" in `LANG_MAP`, `SEVERITY_CONFIG` and `METRIC_LEVELS`. They are treated as absent keys.
- CodeEditor.HandleKeyDown: selection offsets are taken as character positions, not UTF-16 code-unit positions. The two differ only for text with characters above U+FFFF.
- Setting the caret with `setTimeout`, scroll syncing, and Prism's highlighting itself. The highlighted markup is an input.
- ScoreGauge's `requestAnimationFrame` easing and its floating-point arc geometry.
- ReviewPanel.ShownScore: the score is an integer. Non-numeric scores are not modelled.
- Clipboard copying and its `setTimeout` reset.
- The best-practice cards, which show their fields verbatim. Only their number, in the tab label, is modelled.
- The React state hooks. Card expansion is modelled as the initial flag plus `Toggle`.
- `App.jsx`: the axios call and markdown rendering. It reads no stream; the client never reassembles chunks.
- `ScanningLoader.jsx`: timer-driven animation.
