/**
 * The review panel: what it shows for a decoded review. Fields the model may
 * leave out are `Option`s, and each display falls back as the panel does.
 */
module ReviewPanel {
  import opened Wrappers
  import opened Text
  import ScoreGauge

  datatype Issue = Issue(severity: Option<string>, line: Option<int>, title: string,
                         description: string, fix: Option<string>)

  datatype Practice = Practice(category: string, title: string, description: string)

  /** The review object; `metrics` lists the entries of the metrics object in order. */
  datatype Review = Review(score: Option<int>, language: Option<string>, summary: string,
                           issues: Option<seq<Issue>>, metrics: Option<seq<(string, string)>>,
                           bestPractices: Option<seq<Practice>>, fixedCode: Option<string>)

  // ---------------------------------------------------------------- counts

  /** `issues.filter(i => i.severity === sev).length`. */
  function Tally(issues: seq<Issue>, sev: string): nat {
    if issues == [] then 0
    else Tally(issues[..|issues| - 1], sev) + (if issues[|issues| - 1].severity == Some(sev) then 1 else 0)
  }

  /** The positions of the issues whose severity is exactly `sev`. */
  ghost function Positions(issues: seq<Issue>, sev: string): set<int> {
    set i | 0 <= i < |issues| && issues[i].severity == Some(sev)
  }

  /** The tally counts exactly the issues of that severity. */
  lemma {:induction false} TallyCountsPositions(issues: seq<Issue>, sev: string)
    ensures Tally(issues, sev) == |Positions(issues, sev)|
  {
    if issues != [] {
      var n := |issues| - 1;
      var front := issues[..n];
      TallyCountsPositions(front, sev);
      var p := Positions(front, sev);
      if issues[n].severity == Some(sev) {
        assert Positions(issues, sev) == p + {n};
      } else {
        assert Positions(issues, sev) == p;
      }
    }
  }

  /** `review.issues?.filter(...).length || 0`. */
  function SeverityCount(issues: Option<seq<Issue>>, sev: string): (n: nat)
    ensures issues.None? ==> n == 0
    ensures issues.Some? ==> n <= |issues.value|
  {
    match issues
    case None => 0
    case Some(xs) =>
      TallyBound(xs, sev);
      Tally(xs, sev)
  }

  lemma {:induction false} TallyBound(issues: seq<Issue>, sev: string)
    ensures Tally(issues, sev) <= |issues|
  {
    if issues != [] {
      TallyBound(issues[..|issues| - 1], sev);
    }
  }

  predicate KnownSeverity(i: Issue) {
    i.severity in {Some("critical"), Some("warning"), Some("info")}
  }

  /**
   * The three counts together never exceed the number of issues, and they add
   * up to it exactly when every issue has one of the three severities.
   */
  lemma {:induction false} CountsCoverIssues(issues: seq<Issue>)
    ensures var total := Tally(issues, "critical") + Tally(issues, "warning") + Tally(issues, "info");
      total <= |issues|
      && (total == |issues| <==> forall i :: 0 <= i < |issues| ==> KnownSeverity(issues[i]))
  {
    if issues != [] {
      var front := issues[..|issues| - 1];
      CountsCoverIssues(front);
      var total := Tally(issues, "critical") + Tally(issues, "warning") + Tally(issues, "info");
      if forall i :: 0 <= i < |issues| ==> KnownSeverity(issues[i]) {
        assert forall i :: 0 <= i < |front| ==> KnownSeverity(front[i]) by {
          forall i | 0 <= i < |front| ensures KnownSeverity(front[i]) {
            assert front[i] == issues[i];
          }
        }
        assert KnownSeverity(issues[|issues| - 1]);
      } else {
        var j :| 0 <= j < |issues| && !KnownSeverity(issues[j]);
        if j < |front| {
          assert front[j] == issues[j];
        }
      }
    }
  }

  /** The header badge for a count: shown only for a positive count, with the number first. */
  function CountBadge(count: nat, word: string): (badge: Option<string>)
    ensures badge.Some? <==> count > 0
    ensures badge.Some? ==> badge.value == NatToString(count) + " " + word
  {
    if count > 0 then Some(NatToString(count) + " " + word) else None
  }

  /** The three count badges of the header, in the order critical, warning, info. */
  function CountBadges(review: Review): seq<Option<string>> {
    [CountBadge(SeverityCount(review.issues, "critical"), "Critical"),
     CountBadge(SeverityCount(review.issues, "warning"), "Warnings"),
     CountBadge(SeverityCount(review.issues, "info"), "Info")]
  }

  /** A review with no issue list shows no count badge at all. */
  lemma NoIssuesNoBadges(review: Review)
    requires review.issues.None?
    ensures CountBadges(review) == [None, None, None]
  {
  }

  // ---------------------------------------------------------------- severity and metric styles

  datatype SeverityStyle = SeverityStyle(color: string, icon: string, name: string)

  const CriticalStyle := SeverityStyle("var(--accent-danger)", "\U{2715}", "Critical")
  const WarningStyle := SeverityStyle("var(--accent-warning)", "\U{26A0}", "Warning")
  const InfoStyle := SeverityStyle("var(--accent-info)", "\U{2139}", "Info")

  /** `SEVERITY_CONFIG[issue.severity] || SEVERITY_CONFIG.info`. */
  function SeverityConfig(severity: Option<string>): (style: SeverityStyle)
    ensures severity == Some("critical") ==> style == CriticalStyle
    ensures severity == Some("warning") ==> style == WarningStyle
    ensures severity !in {Some("critical"), Some("warning")} ==> style == InfoStyle
  {
    match severity
    case Some("critical") => CriticalStyle
    case Some("warning") => WarningStyle
    case Some("info") => InfoStyle
    case _ => InfoStyle
  }

  /** How a metric is drawn: bar width, bar colour, and the colour of its value (none when unset). */
  datatype MetricBar = MetricBar(width: string, background: string, textColor: Option<string>)

  const InfoColor := "var(--accent-info)"

  /** `METRIC_LEVELS[val]`, with the 50% info-coloured bar and an unset text colour for other values. */
  function MetricBarOf(level: string): (bar: MetricBar)
    ensures level == "Low" ==> bar == MetricBar("33%", "var(--accent-danger)", Some("var(--accent-danger)"))
    ensures level == "Medium" ==> bar == MetricBar("66%", "var(--accent-warning)", Some("var(--accent-warning)"))
    ensures level == "High" ==> bar == MetricBar("100%", "var(--accent-primary)", Some("var(--accent-primary)"))
    ensures level !in {"Low", "Medium", "High"} ==> bar == MetricBar("50%", InfoColor, None)
    ensures bar.textColor.Some? <==> level in {"Low", "Medium", "High"}
  {
    if level == "Low" then MetricBar("33%", "var(--accent-danger)", Some("var(--accent-danger)"))
    else if level == "Medium" then MetricBar("66%", "var(--accent-warning)", Some("var(--accent-warning)"))
    else if level == "High" then MetricBar("100%", "var(--accent-primary)", Some("var(--accent-primary)"))
    else MetricBar("50%", InfoColor, None)
  }

  /** The metrics grid: absent without metrics, else one bar per entry, in order, under its key. */
  function MetricsGrid(metrics: Option<seq<(string, string)>>): (grid: Option<seq<(string, MetricBar)>>)
    ensures grid.Some? <==> metrics.Some?
    ensures grid.Some? ==> |grid.value| == |metrics.value|
    ensures grid.Some? ==> forall i :: 0 <= i < |grid.value| ==>
      grid.value[i] == (metrics.value[i].0, MetricBarOf(metrics.value[i].1))
  {
    match metrics
    case None => None
    case Some(entries) => Some(seq(|entries|, i requires 0 <= i < |entries| => (entries[i].0, MetricBarOf(entries[i].1))))
  }

  // ---------------------------------------------------------------- issue cards

  /** Card `idx` starts expanded when it is one of the first two. */
  predicate InitiallyExpanded(idx: int) {
    idx < 2
  }

  /** Clicking a card's header flips whether it is expanded. */
  function Toggle(expanded: bool): (e: bool)
    ensures e != expanded
  {
    !expanded
  }

  /** The positions, among `n` cards, of those that start expanded. */
  ghost function ExpandedAtStart(n: nat): set<int> {
    set i | 0 <= i < n && InitiallyExpanded(i)
  }

  /** Of `n` cards, exactly `min(n, 2)` start expanded. */
  lemma {:induction false} ExpandedAtStartCount(n: nat)
    ensures |ExpandedAtStart(n)| == if n < 2 then n else 2
  {
    if n > 0 {
      ExpandedAtStartCount(n - 1);
      if n - 1 < 2 {
        assert ExpandedAtStart(n) == ExpandedAtStart(n - 1) + {n - 1};
      } else {
        assert ExpandedAtStart(n) == ExpandedAtStart(n - 1);
      }
    }
  }

  /**
   * `issue.line && <span>Line …</span>`: no badge for a missing line, the
   * badge for a non-zero line, and for line 0 the bare text "0", which is how
   * React renders the falsy number the `&&` yields.
   */
  datatype LineBadge = NoBadge | StrayZero | LineText(text: string)

  function LineBadgeOf(line: Option<int>): (b: LineBadge)
    ensures b.NoBadge? <==> line.None?
    ensures b.StrayZero? <==> line == Some(0)
    ensures b.LineText? ==> b.text == "Line " + IntToString(line.value)
  {
    match line
    case None => NoBadge
    case Some(n) => if n == 0 then StrayZero else LineText("Line " + IntToString(n))
  }

  /** The number on a line badge reads back as the issue's line. */
  lemma LineBadgeReadsBack(n: nat)
    requires n > 0
    ensures var b := LineBadgeOf(Some(n));
      b.LineText? && b.text[..5] == "Line " && AllDigits(b.text[5..]) && DigitsValue(b.text[5..]) == n
  {
    NatToStringRoundTrip(n);
    assert LineBadgeOf(Some(n)).text[5..] == NatToString(n);
  }

  datatype CardBody = CardBody(description: string, fix: Option<string>)

  datatype Card = Card(style: SeverityStyle, line: LineBadge, title: string, expandIcon: string,
                       body: Option<CardBody>)

  /** `IssueCard`: header always, body only while expanded, fix section only for a non-empty fix. */
  function IssueCard(issue: Issue, expanded: bool): (c: Card)
    ensures c.style == SeverityConfig(issue.severity)
    ensures c.body.Some? <==> expanded
    ensures c.expandIcon == (if expanded then "\U{2212}" else "+")
    ensures c.body.Some? ==> c.body.value.description == issue.description
    ensures c.body.Some? ==> (c.body.value.fix.Some? <==> issue.fix.Some? && issue.fix.value != "")
    ensures c.body.Some? && c.body.value.fix.Some? ==> c.body.value.fix == issue.fix
  {
    var fix := if issue.fix.Some? && issue.fix.value != "" then issue.fix else None;
    Card(SeverityConfig(issue.severity), LineBadgeOf(issue.line), issue.title,
         if expanded then "\U{2212}" else "+",
         if expanded then Some(CardBody(issue.description, fix)) else None)
  }

  // ---------------------------------------------------------------- header fields and tabs

  /** `review.score || 0`. */
  function ShownScore(review: Review): (s: int)
    ensures review.score.Some? ==> s == review.score.value
    ensures review.score.None? ==> s == 0
  {
    if review.score.Some? && review.score.value != 0 then review.score.value else 0
  }

  /** A review without a score is gauged as 0, "Needs Work" in the danger colour. */
  lemma MissingScoreNeedsWork(review: Review)
    requires review.score.None?
    ensures ScoreGauge.Label(ShownScore(review)) == "Needs Work"
    ensures ScoreGauge.Color(ShownScore(review)) == ScoreGauge.Danger
  {
  }

  /** `review.language || "Unknown"`: an empty name counts as missing. */
  function ShownLanguage(review: Review): (l: string)
    ensures l != ""
    ensures l == "Unknown" <==> review.language.None? || review.language.value in {"", "Unknown"}
    ensures l != "Unknown" ==> review.language == Some(l)
  {
    if review.language.Some? && review.language.value != "" then review.language.value else "Unknown"
  }

  /** `review.fixedCode || ""`: what the fixed-code tab copies. */
  function FixedCodeText(review: Review): (t: string)
    ensures review.fixedCode.Some? ==> t == review.fixedCode.value
    ensures review.fixedCode.None? ==> t == ""
  {
    if review.fixedCode.Some? then review.fixedCode.value else ""
  }

  function IssueCount(review: Review): nat {
    if review.issues.Some? then |review.issues.value| else 0
  }

  function PracticeCount(review: Review): nat {
    if review.bestPractices.Some? then |review.bestPractices.value| else 0
  }

  /** The labels of the three tabs, in order: issues, best practices, fixed code. */
  function TabLabels(review: Review): (labels: seq<string>)
    ensures |labels| == 3 && labels[2] == "Fixed Code"
  {
    ["Issues (" + NatToString(IssueCount(review)) + ")",
     "Best Practices (" + NatToString(PracticeCount(review)) + ")",
     "Fixed Code"]
  }

  /** The number in a tab label reads back as the length of the list it counts, 0 when the list is missing. */
  lemma TabLabelCounts(review: Review)
    ensures var labels := TabLabels(review);
      var a := labels[0][8..|labels[0]| - 1];
      var b := labels[1][16..|labels[1]| - 1];
      AllDigits(a) && AllDigits(b)
      && DigitsValue(a) == (if review.issues.Some? then |review.issues.value| else 0)
      && DigitsValue(b) == (if review.bestPractices.Some? then |review.bestPractices.value| else 0)
  {
    var labels := TabLabels(review);
    assert labels[0][8..|labels[0]| - 1] == NatToString(IssueCount(review));
    assert labels[1][16..|labels[1]| - 1] == NatToString(PracticeCount(review));
    NatToStringRoundTrip(IssueCount(review));
    NatToStringRoundTrip(PracticeCount(review));
  }

  /** The issues tab: the empty state, or one card per issue, the first two expanded. */
  datatype IssuesView = EmptyState | IssueCards(cards: seq<Card>)

  function IssuesTab(review: Review): (view: IssuesView)
    ensures view.EmptyState? <==> review.issues.None? || review.issues.value == []
    ensures view.IssueCards? ==> |view.cards| == |review.issues.value|
    ensures view.IssueCards? ==> forall i :: 0 <= i < |view.cards| ==>
      view.cards[i] == IssueCard(review.issues.value[i], InitiallyExpanded(i))
  {
    if review.issues.Some? && |review.issues.value| > 0 then
      var xs := review.issues.value;
      IssueCards(seq(|xs|, i requires 0 <= i < |xs| => IssueCard(xs[i], InitiallyExpanded(i))))
    else EmptyState
  }

  /** On first display, the cards with a body are exactly the first two. */
  lemma FirstTwoOpen(review: Review, i: int)
    requires review.issues.Some? && 0 <= i < |review.issues.value|
    ensures IssuesTab(review).cards[i].body.Some? <==> i < 2
  {
  }
}
