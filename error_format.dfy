/**
 * `formatError` of the review controller: turns the text of an upstream error
 * into the message shown to the user. Rate limiting is recognised first, then
 * a credential problem; anything else is passed through.
 */
module ErrorFormat {
  import opened Wrappers
  import opened Text

  const InvalidKeyText := "Invalid API key. Please check your GEMINI_API_KEY in the .env file."
  const GenericFailureText := "Failed to generate review. Please try again."
  const DefaultWait := "30"
  const RateLimitPrefix := "Rate limit reached on the free tier. Please wait "
  const RateLimitSuffix := " seconds and try again. To remove limits, enable billing at https://ai.dev/rate-limit"

  predicate IsRateLimited(msg: string) {
    Contains(msg, "429") || Contains(msg, "Too Many Requests") || Contains(msg, "quota")
  }

  predicate IsCredentialError(msg: string) {
    Contains(msg, "API_KEY") || Contains(msg, "401")
  }

  function RateLimitText(seconds: string): string {
    RateLimitPrefix + seconds + RateLimitSuffix
  }

  /**
   * Case folding of a regular expression with the `i` flag and no `u` flag. That
   * folding also maps non-ASCII letters, but never a non-ASCII character onto an
   * ASCII one; since every pattern character here is ASCII, folding ASCII letters
   * alone decides a match exactly.
   */
  function FoldAscii(c: char): char {
    if 'a' <= c <= 'z' then (c as int - 32) as char else c
  }

  predicate CharMatches(c: char, p: char, ignoreCase: bool) {
    if ignoreCase then FoldAscii(c) == FoldAscii(p) else c == p
  }

  /** The literal part of a pattern matches `s` at index `i`. */
  predicate LiteralAt(s: string, i: nat, lit: string, ignoreCase: bool) {
    i + |lit| <= |s| && forall k :: 0 <= k < |lit| ==> CharMatches(s[i + k], lit[k], ignoreCase)
  }

  /** Length of the run of decimal digits starting at index `i` (`\d` is [0-9]). */
  function DigitRun(s: string, i: nat): (n: nat)
    requires i <= |s|
    ensures i + n <= |s| && AllDigits(s[i..i + n])
    ensures i + n == |s| || !IsDigit(s[i + n])
    decreases |s| - i
  {
    if i < |s| && IsDigit(s[i]) then
      var n := 1 + DigitRun(s, i + 1);
      assert s[i..i + n] == [s[i]] + s[i + 1..i + n];
      n
    else 0
  }

  /**
   * The capture of the pattern `lit(\d+)s` anchored at index `i`. The greedy `\d+`
   * takes the whole digit run; giving digits back leaves a digit where the `s`
   * must be, so the match succeeds only if the `s` follows the whole run.
   */
  function CaptureAt(s: string, i: nat, lit: string, ignoreCase: bool): (r: Option<string>)
    ensures r.Some? ==> i + |lit| < |s|
    ensures r.Some? ==> r.value != [] && AllDigits(r.value) && OccursAt(s, r.value, i + |lit|)
    ensures r.Some? <==> (
      LiteralAt(s, i, lit, ignoreCase) && DigitRun(s, i + |lit|) > 0
      && i + |lit| + DigitRun(s, i + |lit|) < |s|
      && CharMatches(s[i + |lit| + DigitRun(s, i + |lit|)], 's', ignoreCase))
    ensures r.Some? ==> r.value == s[i + |lit|..i + |lit| + DigitRun(s, i + |lit|)]
  {
    if LiteralAt(s, i, lit, ignoreCase) then
      var j := i + |lit|;
      var n := DigitRun(s, j);
      if n > 0 && j + n < |s| && CharMatches(s[j + n], 's', ignoreCase) then Some(s[j..j + n]) else None
    else None
  }

  /** `s.match(/lit(\d+)s/)`: the leftmost index at or after `from` where the pattern matches. */
  function FirstMatch(s: string, lit: string, ignoreCase: bool, from: nat): (r: Option<nat>)
    ensures r.Some? ==> from <= r.value && CaptureAt(s, r.value, lit, ignoreCase).Some?
    ensures r.Some? ==> forall k :: from <= k < r.value ==> CaptureAt(s, k, lit, ignoreCase).None?
    ensures r.None? ==> forall k :: from <= k ==> CaptureAt(s, k, lit, ignoreCase).None?
    decreases |s| - from
  {
    if from > |s| then None
    else if CaptureAt(s, from, lit, ignoreCase).Some? then Some(from)
    else FirstMatch(s, lit, ignoreCase, from + 1)
  }

  function Capture(s: string, lit: string, ignoreCase: bool): Option<string> {
    match FirstMatch(s, lit, ignoreCase, 0)
    case Some(i) => CaptureAt(s, i, lit, ignoreCase)
    case None => None
  }

  /**
   * The wait time in the rate-limit text: the digits of `retry in (\d+)s` (any case),
   * else those of `retryDelay":"(\d+)s`, else "30".
   */
  function RetrySeconds(msg: string): (w: string)
    ensures w != [] && AllDigits(w)
  {
    match Capture(msg, "retry in ", true)
    case Some(d) => d
    case None =>
      match Capture(msg, "retryDelay\":\"", false)
      case Some(d) => d
      case None => DefaultWait
  }

  /** `formatError(err)` applied to `err.message || ""`; never empty. */
  function FormatError(msg: string): (r: string)
    ensures r != []
  {
    if IsRateLimited(msg) then RateLimitText(RetrySeconds(msg))
    else if IsCredentialError(msg) then InvalidKeyText
    else if msg != "" then msg
    else GenericFailureText
  }

  /** A rate-limit marker decides the message even when a credential marker is also present. */
  lemma RateLimitFirst(msg: string)
    requires IsRateLimited(msg)
    ensures FormatError(msg) == RateLimitText(RetrySeconds(msg))
    ensures FormatError(msg) != InvalidKeyText
  {
    assert RateLimitPrefix == "Rate limit reached on the free tier. Please wait ";
    assert FormatError(msg)[0] == RateLimitPrefix[0];
    assert InvalidKeyText == "Invalid API key. Please check your GEMINI_API_KEY in the .env file.";
  }

  /** A credential marker without any rate-limit marker gives the fixed invalid-key text. */
  lemma CredentialText(msg: string)
    requires !IsRateLimited(msg) && IsCredentialError(msg)
    ensures FormatError(msg) == InvalidKeyText
  {
  }

  /** Any other message is shown verbatim, an empty one as the generic text. */
  lemma FallbackText(msg: string)
    requires !IsRateLimited(msg) && !IsCredentialError(msg)
    ensures msg != "" ==> FormatError(msg) == msg
    ensures msg == "" ==> FormatError(msg) == GenericFailureText
  {
  }

  /**
   * The wait time is always a non-empty run of digits. Unless neither pattern
   * matches (and it is "30"), it is copied verbatim from the message, and the
   * first pattern wins whenever it matches.
   */
  lemma {:induction false} RetrySecondsFromMessage(msg: string)
    ensures var w := RetrySeconds(msg);
      w != [] && AllDigits(w)
      && (Capture(msg, "retry in ", true).Some? || Capture(msg, "retryDelay\":\"", false).Some? ==> Contains(msg, w))
      && (Capture(msg, "retry in ", true).None? && Capture(msg, "retryDelay\":\"", false).None? ==> w == DefaultWait)
    ensures Capture(msg, "retry in ", true).Some? ==> RetrySeconds(msg) == Capture(msg, "retry in ", true).value
    ensures Capture(msg, "retry in ", true).None? && Capture(msg, "retryDelay\":\"", false).Some? ==>
      RetrySeconds(msg) == Capture(msg, "retryDelay\":\"", false).value
  {
    var w := RetrySeconds(msg);
    if Capture(msg, "retry in ", true).Some? {
      var i := FirstMatch(msg, "retry in ", true, 0).value;
      ContainsOccurrence(msg, w, i + 9);
    } else if Capture(msg, "retryDelay\":\"", false).Some? {
      var i := FirstMatch(msg, "retryDelay\":\"", false, 0).value;
      ContainsOccurrence(msg, w, i + 13);
    }
  }

  /** The wait time can be read back from the rate-limit text, so it reaches the user unchanged. */
  lemma RateLimitTextInjective(a: string, b: string)
    requires RateLimitText(a) == RateLimitText(b)
    ensures a == b
  {
    var p := |RateLimitPrefix|;
    assert a == RateLimitText(a)[p..p + |a|];
    assert b == RateLimitText(b)[p..p + |b|];
  }

  /** Conversely, the leftmost matching index is what the search reports. */
  lemma {:induction false} FirstMatchIsLeftmost(s: string, lit: string, ignoreCase: bool, from: nat, j: nat)
    requires from <= j && CaptureAt(s, j, lit, ignoreCase).Some?
    requires forall k :: from <= k < j ==> CaptureAt(s, k, lit, ignoreCase).None?
    ensures FirstMatch(s, lit, ignoreCase, from) == Some(j)
    decreases j - from
  {
    if from < j {
      assert CaptureAt(s, from, lit, ignoreCase).None?;
      FirstMatchIsLeftmost(s, lit, ignoreCase, from + 1, j);
    }
  }

  /** And when no index matches, the search reports no match. */
  lemma {:induction false} FirstMatchNone(s: string, lit: string, ignoreCase: bool, from: nat)
    requires forall k :: from <= k <= |s| ==> CaptureAt(s, k, lit, ignoreCase).None?
    ensures FirstMatch(s, lit, ignoreCase, from) == None
    decreases |s| - from
  {
    if from <= |s| {
      FirstMatchNone(s, lit, ignoreCase, from + 1);
    }
  }

  const TooManyRequests := "429 Too Many Requests, retry in 12s"
  const QuotaExceeded := "quota exceeded"

  lemma NoRetryBeforeStatedDelay()
    ensures forall k :: 0 <= k < 23 ==> CaptureAt(TooManyRequests, k, "retry in ", true).None?
  {
    var m := TooManyRequests;
    forall k | 0 <= k < 23 ensures CaptureAt(m, k, "retry in ", true).None? {
      if k == 13 { assert !CharMatches(m[k + 2], "retry in "[2], true); }
      else { assert !CharMatches(m[k + 0], "retry in "[0], true); }
    }
  }

  lemma RetryMatchInExample()
    ensures CaptureAt(TooManyRequests, 23, "retry in ", true) == Some("12")
  {
    var m := TooManyRequests;
    RetryLiteralInExample();
    DelayDigitsInExample();
    assert m[32..34] == "12";
  }

  lemma RetryLiteralInExample()
    ensures LiteralAt(TooManyRequests, 23, "retry in ", true)
  {
    var m := TooManyRequests;
    assert m[23..32] == "retry in ";
  }

  lemma DelayDigitsInExample()
    ensures DigitRun(TooManyRequests, 32) == 2 && TooManyRequests[34] == 's'
  {
    var m := TooManyRequests;
    assert IsDigit(m[32]) && IsDigit(m[33]) && !IsDigit(m[34]);
    assert DigitRun(m, 34) == 0;
  }

  /** Worked example: the delay stated in the message is carried over. */
  lemma StatedDelayExample()
    ensures FormatError(TooManyRequests) == RateLimitText("12")
  {
    NoRetryBeforeStatedDelay();
    RetryMatchInExample();
    FirstMatchIsLeftmost(TooManyRequests, "retry in ", true, 0, 23);
    assert IsRateLimited(TooManyRequests) by { assert "429" <= TooManyRequests; }
  }

  lemma NoRetryPattern()
    ensures forall k :: 0 <= k <= |QuotaExceeded| ==> CaptureAt(QuotaExceeded, k, "retry in ", true).None?
    ensures forall k :: 0 <= k <= |QuotaExceeded| ==> CaptureAt(QuotaExceeded, k, "retryDelay\":\"", false).None?
  {
    var q := QuotaExceeded;
    forall k | 0 <= k <= |q| ensures CaptureAt(q, k, "retry in ", true).None? {
      if k + 9 <= |q| { assert !CharMatches(q[k + 0], "retry in "[0], true); }
    }
    forall k | 0 <= k <= |q| ensures CaptureAt(q, k, "retryDelay\":\"", false).None? {
      if k + 13 <= |q| { assert !CharMatches(q[k + 0], "retryDelay\":\""[0], false); }
    }
  }

  /** Worked example: with no stated delay the text asks for 30 seconds. */
  lemma DefaultDelayExample()
    ensures FormatError(QuotaExceeded) == RateLimitText("30")
  {
    NoRetryPattern();
    FirstMatchNone(QuotaExceeded, "retry in ", true, 0);
    FirstMatchNone(QuotaExceeded, "retryDelay\":\"", false, 0);
    assert IsRateLimited(QuotaExceeded) by { assert "quota" <= QuotaExceeded; }
  }

  /** The quota example does not name the 429 status itself. */
  lemma QuotaExceededNot429()
    ensures !Contains(QuotaExceeded, "429")
  {
    var q := QuotaExceeded;
    assert forall k :: 0 <= k < |q| ==> q[k] != '4';
    forall i ensures !OccursAt(q, "429", i) {
      if 0 <= i && i + 3 <= |q| {
        assert q[i..i + 3][0] == q[i];
      }
    }
    ContainsIff(q, "429");
  }
}
