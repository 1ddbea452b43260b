/**
 * The smart-suggestion panel: a burnout warning driven by the daily-hours
 * target, and one progress tier chosen from the overall completion ratio.
 */
module Suggestions {
  import opened Wrappers
  import opened Progress

  datatype Tier = LowProgress | GoodProgress | ExamReady

  datatype Advice = Advice(burnout: bool, tier: Option<Tier>)

  /**
   * The tier comparisons `percent < 40` and `percent < 75` on the real ratio
   * `completed / total * 100`, written by cross-multiplication.
   */
  function Suggest(dailyHours: int, completed: nat, total: nat): (r: Advice)
    ensures r.burnout <==> dailyHours >= 10
    ensures r.tier.Some? <==> total > 0
  {
    var tier :=
      if total == 0 then None
      else if 100 * completed < 40 * total then Some(LowProgress)
      else if 100 * completed < 75 * total then Some(GoodProgress)
      else Some(ExamReady);
    Advice(dailyHours >= 10, tier)
  }

  /**
   * When there are topics, the tier agrees with the truncated percent shown by the
   * progress bar: below 40 is low, 40 up to 74 is good, 75 and above is exam ready.
   */
  lemma TierByPercent(dailyHours: int, completed: nat, total: nat)
    requires total > 0
    ensures var p := Percent(completed, total).value;
      var tier := Suggest(dailyHours, completed, total).tier;
      && (tier == Some(LowProgress) <==> p < 40)
      && (tier == Some(GoodProgress) <==> 40 <= p < 75)
      && (tier == Some(ExamReady) <==> 75 <= p)
  {
    var p := Percent(completed, total).value;
    if p < 40 { MulMono(p + 1, 40, total); } else { MulMono(40, p, total); }
    if p < 75 { MulMono(p + 1, 75, total); } else { MulMono(75, p, total); }
  }

  /** Multiplying both sides of `a <= b` by the same natural number keeps the order. */
  lemma MulMono(a: int, b: int, t: nat)
    requires a <= b
    ensures a * t <= b * t
  {
  }

  /** The worked examples: 2 of 10 is low, 5 of 10 is good, 8 of 10 and 1 of 1 are exam ready. */
  lemma TierExamples()
    ensures Suggest(6, 2, 10).tier == Some(LowProgress)
    ensures Suggest(6, 5, 10).tier == Some(GoodProgress)
    ensures Suggest(6, 8, 10).tier == Some(ExamReady)
    ensures Suggest(6, 1, 1).tier == Some(ExamReady)
    ensures Suggest(10, 0, 0) == Advice(true, None)
  {
  }
}
