/**
 * The pure parts of the code editor: which highlighting grammar is used, how
 * many line numbers the gutter shows, what the Tab key does to the text and
 * the caret, and the padding that keeps the highlight layer as tall as the
 * text area.
 */
module CodeEditor {
  import opened Wrappers
  import opened Text

  /** The grammars whose Prism components the editor loads. */
  const LoadedGrammars: set<string> :=
    {"javascript", "typescript", "python", "java", "c", "cpp", "csharp", "go", "rust", "jsx", "tsx"}

  /** `LANG_MAP`: every language the selector offers, "auto" highlighted as JavaScript. */
  const LangMap: map<string, string> :=
    map["javascript" := "javascript", "typescript" := "typescript", "python" := "python",
        "java" := "java", "c" := "c", "cpp" := "cpp", "csharp" := "csharp", "go" := "go",
        "rust" := "rust", "jsx" := "jsx", "tsx" := "tsx", "auto" := "javascript"]

  /**
   * `LANG_MAP[language] || "javascript"`: the grammar name given to the
   * highlighter. A missing language, an unknown one and "auto" all fall back
   * to JavaScript, and the grammar is always one that was loaded.
   */
  function PrismLanguage(language: Option<string>): (g: string)
    ensures g in LoadedGrammars
    ensures language.Some? && language.value in LangMap && language.value != "auto" ==> g == language.value
    ensures language.None? || language.value !in LangMap || language.value == "auto" ==> g == "javascript"
  {
    var mapped := if language.Some? && language.value in LangMap then LangMap[language.value] else "";
    if mapped != "" then mapped else "javascript"
  }

  /** `(value || "").split("\n").length`. */
  function LineCount(value: Option<string>): nat {
    |Split(if value.Some? then value.value else "", '\n')|
  }

  /** One more line than there are newlines; a missing value counts as one empty line. */
  lemma LineCountNewlines(value: Option<string>)
    ensures value.Some? ==> LineCount(value) == Count(value.value, '\n') + 1
    ensures value.None? ==> LineCount(value) == 1
  {
    if value.Some? {
      SplitCount(value.value, '\n');
    }
  }

  /** The gutter: `max(lineCount, 1)` numbers, from 1 upwards. */
  function Gutter(lineCount: int): (numbers: seq<int>)
    ensures |numbers| == if lineCount > 1 then lineCount else 1
    ensures forall i :: 0 <= i < |numbers| ==> numbers[i] == i + 1
  {
    seq(if lineCount > 1 then lineCount else 1, i => i + 1)
  }

  /** For any text, the gutter numbers exactly the lines of that text. */
  lemma GutterNumbersLines(value: string)
    ensures Gutter(LineCount(Some(value))) == seq(Count(value, '\n') + 1, i => i + 1)
  {
    LineCountNewlines(Some(value));
  }

  /** An index argument of `String.prototype.substring`, clamped to the string. */
  function ClampIndex(s: string, i: int): (k: nat)
    ensures k <= |s|
  {
    if i < 0 then 0 else if i > |s| then |s| else i
  }

  /** `s.substring(a, b)`: both indices clamped, and swapped when out of order. */
  function Substring(s: string, a: int, b: int): (r: string)
    ensures |r| <= |s|
    ensures 0 <= a <= b <= |s| ==> r == s[a..b]
    ensures 0 <= b <= a <= |s| ==> r == s[b..a]
    ensures 0 <= a <= |s| <= b ==> r == s[a..]
    ensures a <= 0 && 0 <= b <= |s| ==> r == s[..b]
    ensures b <= 0 && 0 <= a <= |s| ==> r == s[..a]
    ensures 0 <= b <= |s| <= a ==> r == s[b..]
    ensures (a <= 0 && b >= |s|) || (b <= 0 && a >= |s|) ==> r == s
    ensures (a <= 0 && b <= 0) || (a >= |s| && b >= |s|) ==> r == []
  {
    var x := ClampIndex(s, a);
    var y := ClampIndex(s, b);
    if x <= y then s[x..y] else s[y..x]
  }

  /** What a handled key press does: the new text passed to `onChange`, and where the caret is put. */
  datatype Edit = Edit(text: string, caret: int)

  /**
   * `handleKeyDown`: Tab replaces the selection `[start, end)` by two spaces
   * and puts the caret after them; any other key is left to the text area.
   */
  function HandleKeyDown(key: string, value: string, start: int, end: int): (r: Option<Edit>)
    ensures r.Some? <==> key == "Tab"
  {
    if key == "Tab" then
      Some(Edit(Substring(value, 0, start) + "  " + Substring(value, end, |value|), start + 2))
    else None
  }

  /**
   * For a selection inside the text, Tab keeps the text before and after the
   * selection, puts two spaces in its place, and leaves the caret right after
   * the spaces.
   */
  lemma TabReplacesSelection(value: string, start: int, end: int)
    requires 0 <= start <= end <= |value|
    ensures var e := HandleKeyDown("Tab", value, start, end);
      e.Some?
      && e.value.text == value[..start] + "  " + value[end..]
      && |e.value.text| == |value| - (end - start) + 2
      && e.value.text[..start] == value[..start]
      && e.value.text[start..start + 2] == "  "
      && e.value.text[start + 2..] == value[end..]
      && e.value.caret == start + 2
      && e.value.text[..e.value.caret] == value[..start] + "  "
  {
    var t := HandleKeyDown("Tab", value, start, end).value.text;
    assert t == value[..start] + "  " + value[end..];
    assert t[..start] == value[..start];
    assert t[start + 2..] == value[end..];
  }

  /** With no selection, Tab inserts two spaces at the caret and nothing is lost. */
  lemma TabAtCaretInserts(value: string, caret: int)
    requires 0 <= caret <= |value|
    ensures var e := HandleKeyDown("Tab", value, caret, caret).value;
      e.text[..caret] + e.text[caret + 2..] == value
  {
    TabReplacesSelection(value, caret, caret);
    assert value[..caret] + value[caret..] == value;
  }

  /**
   * The highlighted markup, padded with one space when the text ends in a
   * newline (a trailing empty line would otherwise collapse).
   */
  function PadHighlight(highlighted: string, value: string): (r: string)
    ensures StartsWith(r, highlighted)
    ensures |r| == |highlighted| + 1 <==> EndsWith(value, "\n")
    ensures EndsWith(value, "\n") ==> r[|highlighted|] == ' '
    ensures !EndsWith(value, "\n") ==> r == highlighted
  {
    highlighted + (if EndsWith(value, "\n") then " " else "")
  }
}
