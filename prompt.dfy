/** The user part of the prompt sent to the generation service by both service calls. */
module ReviewPrompt {
  import opened Text
  import opened Upstream
  import Fence

  /** The language after the `language = "auto"` default and template interpolation (`${null}` is "null"). */
  function LanguageText(language: Field): string {
    match language
    case Undefined => "auto"
    case Null => "null"
    case Str(l) => l
  }

  const Intro := "Code to review:\n"

  function Header(language: Field): string {
    var l := LanguageText(language);
    if l != "auto" then "Language: " + l + "\n\n" + Intro + Fence.FenceMarker + l + "\n" else Intro + Fence.FenceMarker + "\n"
  }

  /** The prompt: a header naming the language (unless it is "auto"), the code, and a closing fence. */
  function Prompt(code: string, language: Field): (r: string)
    ensures StartsWith(r, Header(language))
    ensures EndsWith(r, code + "\n```")
    ensures |r| == |Header(language)| + |code| + 4
  {
    Assoc(Header(language), code, "\n```");
    PartsOfConcat(Header(language), code + "\n```");
    Header(language) + code + "\n```"
  }

  /** For a fixed language the code is carried verbatim, so different code gives different prompts. */
  lemma CodeRecoverable(c1: string, c2: string, language: Field)
    requires Prompt(c1, language) == Prompt(c2, language)
    ensures c1 == c2
  {
    var p := Prompt(c1, language);
    var h := |Header(language)|;
    assert |c1| == |c2|;
    assert c1 == p[h..|p| - 4];
    assert c2 == p[h..|p| - 4];
  }

  /** An omitted language is the "auto" branch; a `null` one is interpolated as the text "null". */
  lemma DefaultLanguage(code: string)
    ensures Prompt(code, Undefined) == Prompt(code, Str("auto")) == Intro + Fence.FenceMarker + "\n" + code + "\n```"
    ensures Prompt(code, Null) == Prompt(code, Str("null"))
  {
  }

  /** A named language is announced on the first line and tags the opening fence just before the code. */
  lemma NamedLanguage(code: string, l: string)
    requires l != "auto"
    ensures StartsWith(Prompt(code, Str(l)), "Language: " + l + "\n\n")
    ensures EndsWith(Prompt(code, Str(l)), Fence.FenceMarker + l + "\n" + code + "\n```")
    ensures Prompt(code, Str(l)) == "Language: " + l + "\n\n" + Intro + Fence.FenceMarker + l + "\n" + code + "\n```"
  {
    var head := "Language: " + l + "\n\n";
    var y := head + Intro;
    var p := Prompt(code, Str(l));
    assert p == ((((y + Fence.FenceMarker) + l) + "\n") + code) + "\n```";
    Assoc(y, Fence.FenceMarker, l);
    Assoc(y, Fence.FenceMarker + l, "\n");
    Assoc(y, Fence.FenceMarker + l + "\n", code);
    Assoc(y, Fence.FenceMarker + l + "\n" + code, "\n```");
    var tail := Fence.FenceMarker + l + "\n" + code + "\n```";
    assert p == y + tail;
    PartsOfConcat(y, tail);
    Assoc(head, Intro, tail);
    PartsOfConcat(head, Intro + tail);
  }

  lemma Assoc(a: string, b: string, c: string)
    ensures (a + b) + c == a + (b + c)
  {
  }

  lemma PartsOfConcat(a: string, b: string)
    ensures StartsWith(a + b, a) && EndsWith(a + b, b)
  {
    assert (a + b)[|a|..] == b;
  }
}
