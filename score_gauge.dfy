/** The score gauge's verdict word and colour for a review score. */
module ScoreGauge {
  const Primary := "var(--accent-primary)"
  const Warning := "var(--accent-warning)"
  const Danger := "var(--accent-danger)"

  /** The arc and number colour: three bands, split at 80 and 60. */
  function Color(score: int): (c: string)
    ensures c == Primary <==> score >= 80
    ensures c == Warning <==> 60 <= score < 80
    ensures c == Danger <==> score < 60
  {
    if score >= 80 then Primary else if score >= 60 then Warning else Danger
  }

  /** The verdict under the number: four bands, split at 80, 60 and 40. */
  function Label(score: int): (l: string)
    ensures l == "Excellent" <==> score >= 80
    ensures l == "Good" <==> 60 <= score < 80
    ensures l == "Fair" <==> 40 <= score < 60
    ensures l == "Needs Work" <==> score < 40
  {
    if score >= 80 then "Excellent" else if score >= 60 then "Good" else if score >= 40 then "Fair" else "Needs Work"
  }

  /** The position of a verdict in the order Needs Work < Fair < Good < Excellent. */
  function Rank(verdict: string): nat {
    if verdict == "Excellent" then 3 else if verdict == "Good" then 2 else if verdict == "Fair" then 1 else 0
  }

  /** A higher score never gets a lower verdict. */
  lemma LabelMonotone(a: int, b: int)
    requires a <= b
    ensures Rank(Label(a)) <= Rank(Label(b))
  {
  }

  /**
   * The colour follows the verdict: Excellent is primary, Good is warning, and
   * both Fair and Needs Work are danger.
   */
  lemma ColorFollowsLabel(score: int)
    ensures Color(score) == Primary <==> Label(score) == "Excellent"
    ensures Color(score) == Warning <==> Label(score) == "Good"
    ensures Color(score) == Danger <==> Label(score) in {"Fair", "Needs Work"}
  {
  }
}
