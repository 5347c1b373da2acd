/**
 * The review service: one-shot and streamed calls to the generation service
 * with the prompt built from the code and language.
 */
module ReviewService {
  import opened Wrappers
  import opened Text
  import opened Upstream
  import opened ReviewPrompt
  import Fence
  import Json
  import EventStream
  import StreamRelay

  /**
   * `reviewCode`: generate, clean, decode. A failed call propagates its error, and
   * text that does not decode raises a `SyntaxError`; nothing partial is returned.
   */
  function ReviewCode(code: string, language: Field, generate: string -> Generated,
                      parse: string -> ParseResult): (r: Result<Json.Value, JsError>)
    ensures r.Err? && r.error.kind != SyntaxError ==> generate(Prompt(code, language)) == GenerationFailed(r.error)
  {
    match generate(Prompt(code, language))
    case GenerationFailed(e) => Err(e)
    case Generated(text) =>
      match parse(Fence.Clean(text))
      case Parsed(review) => Ok(review)
      case Unparsable(m) => Err(JsError(SyntaxError, m))
  }

  /** A review is returned exactly when the cleaned response decodes, and it is the decoded value. */
  lemma ReviewCodeOutcome(code: string, language: Field, generate: string -> Generated,
                          parse: string -> ParseResult)
    ensures var g := generate(Prompt(code, language));
      var r := ReviewCode(code, language, generate, parse);
      (r.Ok? <==> g.Generated? && parse(Fence.Clean(g.text)).Parsed?)
      && (r.Ok? ==> r.value == parse(Fence.Clean(g.text)).value)
      && (g.GenerationFailed? ==> r == Err(g.error))
      && (g.Generated? && parse(Fence.Clean(g.text)).Unparsable? ==> r.Err? && r.error.kind == SyntaxError)
  {
  }

  /**
   * `reviewCodeStream`: hands every fragment to the chunk callback, in order, while
   * accumulating its own copy; returns that copy, or the error the stream threw.
   */
  method ReviewCodeStream(code: string, language: Field, stream: string -> Generation,
                          onChunk: StreamRelay.Relay)
    returns (r: Result<string, JsError>)
    requires onChunk.Valid() && !onChunk.ended
    modifies onChunk
    ensures onChunk.Valid() && !onChunk.ended
    ensures var g := stream(Prompt(code, language));
      onChunk.chunks == old(onChunk.chunks) + g.fragments
      && onChunk.fullText == old(onChunk.fullText) + Concat(g.fragments)
      && onChunk.frames == old(onChunk.frames) + EventStream.ChunkFrames(g.fragments)
      && r == (if g.failure.Some? then Err(g.failure.value) else Ok(Concat(g.fragments)))
  {
    var g := stream(Prompt(code, language));
    var fragments := g.fragments;
    ghost var chunks0, frames0, text0 := onChunk.chunks, onChunk.frames, onChunk.fullText;
    var fullText := "";
    var i := 0;
    while i < |fragments|
      invariant 0 <= i <= |fragments|
      invariant onChunk.Valid() && !onChunk.ended
      invariant fullText == Concat(fragments[..i])
      invariant onChunk.chunks == chunks0 + fragments[..i]
      invariant onChunk.fullText == text0 + fullText
      invariant onChunk.frames == frames0 + EventStream.ChunkFrames(fragments[..i])
    {
      var chunkText := fragments[i];
      AccumulatorEndsWithChunk(fragments, i);
      RelayStep(chunks0, frames0, text0, fragments, i);
      fullText := fullText + chunkText;
      onChunk.OnChunk(chunkText);
      i := i + 1;
    }
    assert fragments[..i] == fragments;
    if g.failure.Some? {
      return Err(g.failure.value);
    }
    return Ok(fullText);
  }

  /** When the callback sees a fragment, the accumulated text already ends with it. */
  lemma AccumulatorEndsWithChunk(fragments: seq<string>, i: nat)
    requires i < |fragments|
    ensures EndsWith(Concat(fragments[..i + 1]), fragments[i])
    ensures Concat(fragments[..i + 1]) == Concat(fragments[..i]) + fragments[i]
    ensures fragments[..i + 1] == fragments[..i] + [fragments[i]]
  {
    assert fragments[..i + 1][..i] == fragments[..i];
    var t := Concat(fragments[..i + 1]);
    assert t[|t| - |fragments[i]|..] == fragments[i];
  }

  /** One more fragment extends each of the three records of the relay by that fragment. */
  lemma RelayStep(chunks0: seq<string>, frames0: seq<EventStream.Frame>, text0: string,
                  fragments: seq<string>, i: nat)
    requires i < |fragments|
    ensures chunks0 + fragments[..i] + [fragments[i]] == chunks0 + fragments[..i + 1]
    ensures frames0 + EventStream.ChunkFrames(fragments[..i]) + [EventStream.ChunkFrame(fragments[i])]
         == frames0 + EventStream.ChunkFrames(fragments[..i + 1])
    ensures text0 + Concat(fragments[..i]) + fragments[i] == text0 + Concat(fragments[..i + 1])
  {
    AccumulatorEndsWithChunk(fragments, i);
    EventStream.ChunkFramesPrefix(fragments, i);
  }
}
