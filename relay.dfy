/**
 * The state of one streaming review request on the controller side: the
 * accumulator `fullText` that the chunk callback grows, and the response,
 * seen as the frames written to it and whether it has been ended.
 */
module StreamRelay {
  import opened Text
  import opened Upstream
  import opened EventStream
  import Fence
  import ErrorFormat

  const ParseFailureText := "Failed to parse AI response"

  /** The terminal frame once every fragment has arrived: the decoded review, or the parse failure. */
  function Conclusion(fullText: string, parse: string -> ParseResult): (f: Frame)
    ensures IsTerminal(f)
    ensures f.DoneFrame? <==> parse(Fence.Clean(fullText)).Parsed?
    ensures f.DoneFrame? ==> f.review == parse(Fence.Clean(fullText)).value
    ensures f.ErrorFrame? ==> f.error == ParseFailureText
  {
    match parse(Fence.Clean(fullText))
    case Parsed(review) => DoneFrame(review)
    case Unparsable(_) => ErrorFrame(ParseFailureText)
  }

  class Relay {
    var fullText: string
    var frames: seq<Frame>
    var ended: bool
    /** The fragments received so far. */
    ghost var chunks: seq<string>

    /**
     * The accumulator is the concatenation of the fragments received; the response
     * holds one chunk frame per fragment, in order, and once ended exactly one
     * terminal frame after them.
     */
    ghost predicate Valid()
      reads this
    {
      fullText == Concat(chunks)
      && |frames| == |chunks| + (if ended then 1 else 0)
      && frames[..|chunks|] == ChunkFrames(chunks)
      && (ended ==> IsTerminal(frames[|chunks|]))
    }

    constructor ()
      ensures Valid() && !ended
      ensures fullText == "" && frames == [] && chunks == []
    {
      fullText := "";
      frames := [];
      ended := false;
      chunks := [];
    }

    /** The chunk callback: append the fragment to the accumulator and write its chunk record. */
    method OnChunk(chunk: string)
      requires Valid() && !ended
      modifies this
      ensures Valid() && !ended
      ensures chunks == old(chunks) + [chunk]
      ensures fullText == old(fullText) + chunk
      ensures frames == old(frames) + [ChunkFrame(chunk)]
    {
      fullText := fullText + chunk;
      frames := frames + [ChunkFrame(chunk)];
      chunks := chunks + [chunk];
      assert chunks[..|chunks| - 1] == old(chunks);
    }

    /** The source finished: clean and decode the accumulator, write the one terminal record, end. */
    method Complete(parse: string -> ParseResult)
      requires Valid() && !ended
      modifies this
      ensures Valid() && ended
      ensures chunks == old(chunks) && fullText == old(fullText)
      ensures frames == old(frames) + [Conclusion(fullText, parse)]
    {
      var cleaned := Fence.Clean(fullText);
      match parse(cleaned) {
        case Parsed(review) =>
          frames := frames + [DoneFrame(review)];
        case Unparsable(_) =>
          frames := frames + [ErrorFrame(ParseFailureText)];
      }
      ended := true;
      assert frames[..|chunks|] == old(frames);
    }

    /** The source threw: write one error record with the classified message, end. */
    method Abort(error: JsError)
      requires Valid() && !ended
      modifies this
      ensures Valid() && ended
      ensures chunks == old(chunks) && fullText == old(fullText)
      ensures frames == old(frames) + [ErrorFrame(ErrorFormat.FormatError(error.message))]
    {
      frames := frames + [ErrorFrame(ErrorFormat.FormatError(error.message))];
      ended := true;
      assert frames[..|chunks|] == old(frames);
    }
  }
}
