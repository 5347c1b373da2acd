/**
 * The records of the review stream, in the event-stream format of section 9.2
 * of the WHATWG HTML Living Standard: each record is `data: <JSON>` followed by
 * a blank line. Because `JSON.stringify` escapes every control character
 * (section 7 of RFC 8259), a record's data never holds a line break of its own.
 */
module EventStream {
  import opened Text
  import opened Json
  import opened Wrappers

  datatype Frame =
    | ChunkFrame(chunk: string)       // `{ chunk }`
    | DoneFrame(review: Value)        // `{ done: true, review }`
    | ErrorFrame(error: string)       // `{ error }`

  predicate IsTerminal(f: Frame) {
    !f.ChunkFrame?
  }

  /** The object each record serialises. */
  function Payload(f: Frame): Value {
    match f
    case ChunkFrame(c) => JObject([("chunk", JString(c))])
    case DoneFrame(r) => JObject([("done", JBool(true)), ("review", r)])
    case ErrorFrame(e) => JObject([("error", JString(e))])
  }

  function DataLine(f: Frame): string {
    "data: " + Stringify(Payload(f))
  }

  /** What one `res.write` sends: the data line and the blank line that ends the record. */
  function Record(f: Frame): string {
    DataLine(f) + "\n\n"
  }

  /** The response body: the records in the order they were written. */
  function Wire(fs: seq<Frame>): string {
    if fs == [] then "" else Record(fs[0]) + Wire(fs[1..])
  }

  /** One chunk frame per fragment, in order. */
  function ChunkFrames(xs: seq<string>): (fs: seq<Frame>)
    ensures |fs| == |xs|
    ensures forall i :: 0 <= i < |xs| ==> fs[i] == ChunkFrame(xs[i])
  {
    seq(|xs|, i requires 0 <= i < |xs| => ChunkFrame(xs[i]))
  }

  lemma ChunkFramesPrefix(xs: seq<string>, i: nat)
    requires i < |xs|
    ensures ChunkFrames(xs[..i + 1]) == ChunkFrames(xs[..i]) + [ChunkFrame(xs[i])]
  {
  }

  /** The body read line by line: each record's data line, then its blank line. */
  function DataLines(fs: seq<Frame>): seq<string> {
    if fs == [] then [] else [DataLine(fs[0]), ""] + DataLines(fs[1..])
  }

  /** A data line holds no control character, so neither a line feed nor a carriage return. */
  lemma DataLinePrintable(f: Frame)
    ensures Printable(DataLine(f))
    ensures '\n' !in DataLine(f) && '\r' !in DataLine(f)
  {
    var j := Stringify(Payload(f));
    StringifyPrintable(Payload(f));
    PrintableConcat("data: ", j);
  }

  lemma PrintableConcat(a: string, b: string)
    requires Printable(a) && Printable(b)
    ensures Printable(a + b)
  {
    assert forall i :: 0 <= i < |b| ==> (a + b)[|a| + i] == b[i];
  }

  /**
   * Frame boundaries are unambiguous: splitting the whole body at line feeds gives
   * exactly each record's data line followed by one empty line, and a final empty
   * piece after the last record.
   */
  lemma {:induction false} WireLines(fs: seq<Frame>)
    ensures Split(Wire(fs), '\n') == DataLines(fs) + [""]
  {
    if fs != [] {
      WireLines(fs[1..]);
      DataLinePrintable(fs[0]);
      RecordLines(DataLine(fs[0]), Wire(fs[1..]));
    }
  }

  /** A record whose data line has no line feed splits into that line and one empty line. */
  lemma RecordLines(line: string, rest: string)
    requires '\n' !in line
    ensures Split(line + "\n\n" + rest, '\n') == [line, ""] + Split(rest, '\n')
  {
    var tail := "" + ['\n'] + rest;
    assert line + "\n\n" + rest == line + ['\n'] + tail;
    SplitAfterLine(line, tail, '\n');
    SplitAfterLine("", rest, '\n');
  }

  lemma StringifySingleMember(k: string, v: Value)
    ensures Stringify(JObject([(k, v)])) == "{" + Quote(k) + ":" + Stringify(v) + "}"
  {
    var ms := [(k, v)];
    var parts := seq(|ms|, i requires 0 <= i < |ms| => Quote(ms[i].0) + ":" + Stringify(ms[i].1));
    assert parts == [Quote(k) + ":" + Stringify(v)];
  }

  lemma QuoteChunkKey()
    ensures Quote("chunk") == "\"chunk\""
  {
    EscapePlain("chunk");
  }

  /** A chunk record is `data: {"chunk":"<escaped text>"}` and a blank line. */
  lemma ChunkRecordText(c: string)
    ensures DataLine(ChunkFrame(c)) == "data: {\"chunk\":\"" + Escape(c) + "\"}"
  {
    var e := Escape(c);
    StringifySingleMember("chunk", JString(c));
    QuoteChunkKey();
    assert Stringify(Payload(ChunkFrame(c))) == "{" + "\"chunk\"" + ":" + ("\"" + e + "\"") + "}";
    LiteralRegroup(e);
  }

  lemma LiteralRegroup(e: string)
    ensures "data: " + ("{" + "\"chunk\"" + ":" + ("\"" + e + "\"") + "}") == "data: {\"chunk\":\"" + e + "\"}"
  {
    var l := "data: " + ("{" + "\"chunk\"" + ":" + ("\"" + e + "\"") + "}");
    var r := "data: {\"chunk\":\"" + e + "\"}";
    assert |l| == |r|;
    forall i | 0 <= i < |l| ensures l[i] == r[i] {
    }
  }

  /** The chunk text reads back unchanged from the body of its record's string literal. */
  lemma ChunkRecordDecodes(c: string)
    ensures var line := DataLine(ChunkFrame(c));
      |line| >= 18 && Unescape(line[16..|line| - 2]) == Some(c)
  {
    ChunkRecordText(c);
    var line := DataLine(ChunkFrame(c));
    var e := Escape(c);
    assert line == "data: {\"chunk\":\"" + e + "\"}";
    assert |"data: {\"chunk\":\""| == 16;
    assert line[16..|line| - 2] == e;
    UnescapeEscape(c);
  }
}
