/**
 * The cleaner applied to the model's full response before it is decoded, used
 * by both the one-shot service call and the streaming controller: three
 * anchored regular-expression replacements, then `trim`.
 */
module Fence {
  import opened Text

  /** The marker that opens and closes a markdown code block. */
  const FenceMarker := "```"

  /** Drops one line feed at the start, the optional `\n?` after an opening marker. */
  function DropNewline(s: string): string {
    if s != [] && s[0] == '\n' then s[1..] else s
  }

  /** `.replace(/^```json\n?/, "")`. */
  function StripJsonFence(s: string): (r: string)
    ensures r == s <==> !StartsWith(s, "```json")
    ensures r != s ==> EndsWith(s, r) && (|s| - |r| == 7 || (|s| - |r| == 8 && s[7] == '\n'))
    ensures r != s && |s| > 7 && s[7] == '\n' ==> |s| - |r| == 8
  {
    if StartsWith(s, "```json") then DropNewline(s[7..]) else s
  }

  /** `.replace(/^```\n?/, "")`. */
  function StripOpenFence(s: string): (r: string)
    ensures r == s <==> !StartsWith(s, "```")
    ensures r != s ==> EndsWith(s, r) && (|s| - |r| == 3 || (|s| - |r| == 4 && s[3] == '\n'))
    ensures r != s && |s| > 3 && s[3] == '\n' ==> |s| - |r| == 4
  {
    if StartsWith(s, "```") then DropNewline(s[3..]) else s
  }

  /**
   * `.replace(/\n?```$/, "")`: `$` is the very end of the text, and the leftmost
   * match takes the line feed whenever one precedes the closing marker.
   */
  function StripCloseFence(s: string): (r: string)
    ensures r == s <==> !EndsWith(s, "```")
    ensures r != s ==> StartsWith(s, r) && (|s| - |r| == 3 || (|s| - |r| == 4 && s[|r|] == '\n'))
    ensures r != s && |s| > 3 && s[|s| - 4] == '\n' ==> |s| - |r| == 4
  {
    if EndsWith(s, "\n```") then s[..|s| - 4]
    else if EndsWith(s, "```") then s[..|s| - 3]
    else s
  }

  /** The cleaned text that is handed to `JSON.parse`. */
  function Clean(s: string): (r: string)
    ensures r == [] || (!IsJsSpace(r[0]) && !IsJsSpace(r[|r| - 1]))
  {
    Trim(StripCloseFence(StripOpenFence(StripJsonFence(s))))
  }

  /** Text that neither starts nor ends with a fence marker is only trimmed. */
  lemma CleanUnfenced(s: string)
    requires !StartsWith(s, "```") && !EndsWith(s, "```")
    ensures Clean(s) == Trim(s)
  {
    FenceMarkersNest(s);
  }

  /** Each longer marker contains the plain marker, so ruling out the plain one rules out both. */
  lemma FenceMarkersNest(s: string)
    ensures StartsWith(s, "```json") ==> StartsWith(s, "```")
    ensures EndsWith(s, "\n```") ==> EndsWith(s, "```")
  {
    if StartsWith(s, "```json") {
      assert s[..3] == "```json"[..3];
    }
    if EndsWith(s, "\n```") {
      assert s[|s| - 3..] == "\n```"[1..];
    }
  }

  /** A body wrapped in a ```json fence cleans to the trimmed body. */
  lemma CleanJsonFenced(t: string)
    requires !StartsWith(t, "```")
    ensures Clean("```json\n" + t + "\n```") == Trim(t)
  {
    var w := "```json\n" + t + "\n```";
    assert StartsWith(w, "```json");
    assert w[7..] == "\n" + t + "\n```";
    var u := t + "\n```";
    assert StripJsonFence(w) == u;
    NoFenceBeforeClose(t);
    assert EndsWith(u, "\n```");
    assert u[..|u| - 4] == t;
  }

  /** A body wrapped in a plain ``` fence cleans to the trimmed body. */
  lemma CleanPlainFenced(t: string)
    requires !StartsWith(t, "```")
    ensures Clean("```\n" + t + "\n```") == Trim(t)
  {
    var w := "```\n" + t + "\n```";
    assert !StartsWith(w, "```json") by { assert w[3] == '\n'; }
    assert StartsWith(w, "```");
    assert w[3..] == "\n" + t + "\n```";
    var u := t + "\n```";
    assert StripOpenFence(w) == u;
    assert EndsWith(u, "\n```");
    assert u[..|u| - 4] == t;
  }

  lemma NoFenceBeforeClose(t: string)
    requires !StartsWith(t, "```")
    ensures !StartsWith(t + "\n```", "```")
  {
    var u := t + "\n```";
    if |t| < 3 {
      assert u[|t|] == '\n';
    }
  }

  /**
   * The end anchor is tested before the trim, so a closing marker followed by
   * white space stays, here for text that does not itself open a fence;
   * FencedClosingKept states it for a ```json-fenced response.
   */
  lemma ClosingFenceBeforeWhitespaceKept(t: string, w: string)
    requires t != [] && t[0] != '`' && w != [] && AllSpace(w)
    ensures EndsWith(Clean(t + FenceMarker + w), FenceMarker)
  {
    var u := t + FenceMarker;
    TrailingSpaceOnlyTrimmed(u + w);
    assert u[|t|] == '`';
    TrimStartAppend(u, w, |t|);
    var v := TrimStart(u);
    TrimStartKeepsMarker(t);
    TrimEndAppendSpace(v, w);
  }

  /** A ```json-fenced response that ends in white space after its closing marker keeps that marker. */
  lemma FencedClosingKept(t: string, w: string)
    requires t != [] && t[0] != '`' && w != [] && AllSpace(w)
    ensures EndsWith(Clean("```json\n" + t + FenceMarker + w), FenceMarker)
  {
    var u := t + FenceMarker + w;
    assert "```json\n" + t + FenceMarker + w == "```json\n" + u;
    assert u[0] == t[0];
    JsonFenceDropped(u);
    ClosingFenceBeforeWhitespaceKept(t, w);
  }

  /** An opening ```json marker and its line feed are all that the opening strips remove. */
  lemma JsonFenceDropped(u: string)
    requires u != [] && u[0] != '`'
    ensures Clean("```json\n" + u) == Clean(u)
  {
    var s := "```json\n" + u;
    assert s[..7] == "```json";
    assert s[7..] == "\n" + u;
    assert StripJsonFence(s) == u;
    assert StripOpenFence(u) == u;
  }

  /** Text that starts with neither a marker nor white space and ends in white space is only trimmed. */
  lemma TrailingSpaceOnlyTrimmed(s: string)
    requires s != [] && s[0] != '`' && IsJsSpace(s[|s| - 1])
    ensures Clean(s) == Trim(s)
  {
    assert !StartsWith(s, "```") by { assert s[0] != "```"[0]; }
    assert !EndsWith(s, "```") by { assert s[|s| - 1] != "```"[2]; }
    CleanUnfenced(s);
  }

  /** Leading white space is dropped from `u` alone when `u` has a non-space character. */
  lemma {:induction false} TrimStartAppend(u: string, w: string, k: nat)
    requires k < |u| && !IsJsSpace(u[k])
    ensures TrimStart(u + w) == TrimStart(u) + w
    decreases k
  {
    if IsJsSpace(u[0]) {
      assert (u + w)[1..] == u[1..] + w;
      TrimStartAppend(u[1..], w, k - 1);
    }
  }

  /** Trailing white space after a non-space character is all that `TrimEnd` drops. */
  lemma {:induction false} TrimEndAppendSpace(v: string, w: string)
    requires v != [] && !IsJsSpace(v[|v| - 1]) && AllSpace(w)
    ensures TrimEnd(v + w) == v
    decreases |w|
  {
    if w == [] {
      assert v + w == v;
    } else {
      var w' := w[..|w| - 1];
      assert (v + w)[..|v + w| - 1] == v + w';
      TrimEndAppendSpace(v, w');
    }
  }

  /** Trimming the start of text ending in a marker keeps the marker. */
  lemma TrimStartKeepsMarker(t: string)
    ensures var v := TrimStart(t + FenceMarker);
      |v| >= 3 && EndsWith(v, FenceMarker) && !IsJsSpace(v[|v| - 1])
  {
    var u := t + FenceMarker;
    var v := TrimStart(u);
    var a := |u| - |v|;
    assert u[|t|] == '`';
    assert v[|v| - 3..] == u[|u| - 3..];
  }
}
