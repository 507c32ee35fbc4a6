/**
 The lead quality score: five behavioural signals, each worth points once
 it passes a threshold, summed and mapped to a three-level tier.
 */
module Analytics {

  /** Seconds on page and scroll percentage are fractional; the counts are whole. */
  datatype LeadScoreInput = LeadScoreInput(
    timeOnPage: real,
    scrollDepth: real,
    ctaClicks: int,
    sectionViews: int,
    completedOptionalFields: int)

  datatype LeadTier = Low | Medium | High {
    function Rank(): nat {
      match this
      case Low => 0
      case Medium => 1
      case High => 2
    }
  }

  function TimePoints(seconds: real): (p: nat)
    ensures p <= 2
    ensures p == 2 <==> seconds > 120.0
    ensures p == 0 <==> seconds <= 60.0
  {
    if seconds > 120.0 then 2 else if seconds > 60.0 then 1 else 0
  }

  function ScrollPoints(percent: real): (p: nat)
    ensures p <= 2
    ensures p == 2 <==> percent >= 75.0
    ensures p == 0 <==> percent < 50.0
  {
    if percent >= 75.0 then 2 else if percent >= 50.0 then 1 else 0
  }

  function Bonus(passed: bool): (p: nat)
    ensures p <= 1 && (p == 1 <==> passed)
  {
    if passed then 1 else 0
  }

  function Score(input: LeadScoreInput): (score: nat)
    ensures score <= 7
    ensures score == 7 <==>
      input.timeOnPage > 120.0 && input.scrollDepth >= 75.0
      && input.ctaClicks >= 2 && input.sectionViews >= 4 && input.completedOptionalFields >= 2
  {
    TimePoints(input.timeOnPage) + ScrollPoints(input.scrollDepth)
    + Bonus(input.ctaClicks >= 2) + Bonus(input.sectionViews >= 4) + Bonus(input.completedOptionalFields >= 2)
  }

  function TierOf(score: nat): (t: LeadTier)
    ensures t == High <==> score >= 6
    ensures t == Medium <==> 3 <= score <= 5
    ensures t == Low <==> score <= 2
  {
    if score >= 6 then High else if score >= 3 then Medium else Low
  }

  function CalculateLeadScore(input: LeadScoreInput): (t: LeadTier)
    ensures t == TierOf(Score(input))
    ensures t == Low ==> input.timeOnPage <= 120.0 || input.scrollDepth < 75.0 || input.ctaClicks < 2
  {
    TierOf(Score(input))
  }

  // ---------------------------------------------------------------- reference definition

  /** The seven thresholds, each worth one point; the upper time and scroll thresholds imply the lower ones. */
  function Thresholds(input: LeadScoreInput): seq<bool> {
    [ input.timeOnPage > 60.0, input.timeOnPage > 120.0,
      input.scrollDepth >= 50.0, input.scrollDepth >= 75.0,
      input.ctaClicks >= 2, input.sectionViews >= 4, input.completedOptionalFields >= 2 ]
  }

  function CountTrue(bs: seq<bool>): (n: nat)
    ensures n <= |bs|
  {
    if bs == [] then 0 else Bonus(bs[0]) + CountTrue(bs[1..])
  }

  /** The score is the number of thresholds the visitor passed. */
  lemma ScoreCountsThresholds(input: LeadScoreInput)
    ensures Score(input) == CountTrue(Thresholds(input))
  {
    var t := Thresholds(input);
    assert t == t[0..];
    CountTrueStep(t, 0);
    CountTrueStep(t, 1);
    CountTrueStep(t, 2);
    CountTrueStep(t, 3);
    CountTrueStep(t, 4);
    CountTrueStep(t, 5);
    CountTrueStep(t, 6);
  }

  lemma CountTrueStep(bs: seq<bool>, k: nat)
    requires k < |bs|
    ensures CountTrue(bs[k..]) == Bonus(bs[k]) + CountTrue(bs[k + 1..])
  {
    assert bs[k..][1..] == bs[k + 1..];
  }

  // ---------------------------------------------------------------- monotonicity

  /** `a` is at least as engaged as `b` on every signal. */
  predicate Dominates(a: LeadScoreInput, b: LeadScoreInput) {
    a.timeOnPage >= b.timeOnPage && a.scrollDepth >= b.scrollDepth && a.ctaClicks >= b.ctaClicks
    && a.sectionViews >= b.sectionViews && a.completedOptionalFields >= b.completedOptionalFields
  }

  /** Raising any signals never lowers the score or the tier. */
  lemma ScoreMonotone(a: LeadScoreInput, b: LeadScoreInput)
    requires Dominates(a, b)
    ensures Score(a) >= Score(b)
    ensures CalculateLeadScore(a).Rank() >= CalculateLeadScore(b).Rank()
  {
  }

  lemma ExampleHighIntent()
    ensures var input := LeadScoreInput(150.0, 80.0, 3, 5, 2);
      Score(input) == 7 && CalculateLeadScore(input) == High
  {
  }

  lemma ExampleMediumIntent()
    ensures var input := LeadScoreInput(90.0, 60.0, 2, 0, 0);
      Score(input) == 3 && CalculateLeadScore(input) == Medium
  {
  }
}
