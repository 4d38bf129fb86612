/**
 * The company profile's ethical score: weighted environmental, social and
 * governance scores less a controversies penalty, clamped to 0..100.
 */
module CompanyProfile {
  import opened Wrappers
  import opened JsNumbers

  /** The ESG fields the score reads; each may be missing. */
  datatype EsgData = EsgData(
    environmentalScore: Option<real>,
    socialScore: Option<real>,
    governanceScore: Option<real>,
    controversies: Option<real>)

  /** A business association; the score does not use it. */
  datatype Association = Association(industry: string)

  const EnvironmentalWeight: real := 0.4
  const SocialWeight: real := 0.3
  const GovernanceWeight: real := 0.2
  const ControversyWeight: real := 0.1

  /** A field's weighted share when it is truthy, and nothing otherwise. */
  function Contribution(field: Option<real>, weight: real): real {
    if Truthy(field) then field.value * weight else 0.0
  }

  /** The weighted sum before clamping; no ESG data gives 0. */
  function WeightedScore(esg: Option<EsgData>): real {
    if esg.None? then 0.0
    else
      var e := esg.value;
      Contribution(e.environmentalScore, EnvironmentalWeight)
        + Contribution(e.socialScore, SocialWeight)
        + Contribution(e.governanceScore, GovernanceWeight)
        - Contribution(e.controversies, ControversyWeight)
  }

  /** `Math.max(0, Math.min(100, x))`. */
  function Clamp(x: real): (r: real)
    ensures 0.0 <= r <= 100.0
    ensures 0.0 <= x <= 100.0 ==> r == x
    ensures x < 0.0 ==> r == 0.0
    ensures x > 100.0 ==> r == 100.0
  {
    if x > 100.0 then 100.0 else if x < 0.0 then 0.0 else x
  }

  /**
   * `calculateEthicalScore`: the score is built up field by field and then
   * clamped; it lies in 0..100 and depends on the ESG data only.
   */
  method CalculateEthicalScore(esg: Option<EsgData>, associations: seq<Association>) returns (score: real)
    ensures 0.0 <= score <= 100.0
    ensures score == Clamp(WeightedScore(esg))
  {
    score := 0.0;
    if esg.Some? && Truthy(esg.value.environmentalScore) {
      score := score + esg.value.environmentalScore.value * EnvironmentalWeight;
    }
    if esg.Some? && Truthy(esg.value.socialScore) {
      score := score + esg.value.socialScore.value * SocialWeight;
    }
    if esg.Some? && Truthy(esg.value.governanceScore) {
      score := score + esg.value.governanceScore.value * GovernanceWeight;
    }
    if esg.Some? && Truthy(esg.value.controversies) {
      score := score - esg.value.controversies.value * ControversyWeight;
    }
    score := if score > 100.0 then 100.0 else if score < 0.0 then 0.0 else score;
  }

  /** The truthiness tests change nothing: a missing field weighs as 0. */
  lemma WeightedScoreCoalesces(e: EsgData)
    ensures WeightedScore(Some(e))
         == e.environmentalScore.GetOr(0.0) * 0.4 + e.socialScore.GetOr(0.0) * 0.3
          + e.governanceScore.GetOr(0.0) * 0.2 - e.controversies.GetOr(0.0) * 0.1
  {
  }

  /** No ESG data, or ESG data with every field missing or 0, scores 0. */
  lemma EmptyEsgScoresZero(esg: Option<EsgData>)
    requires esg.Some? ==>
      && !Truthy(esg.value.environmentalScore) && !Truthy(esg.value.socialScore)
      && !Truthy(esg.value.governanceScore) && !Truthy(esg.value.controversies)
    ensures Clamp(WeightedScore(esg)) == 0.0
  {
  }

  /**
   * Better environmental, social or governance scores, or fewer
   * controversies, never lower the clamped score.
   */
  lemma EthicalScoreMonotone(a: EsgData, b: EsgData)
    requires a.environmentalScore.GetOr(0.0) <= b.environmentalScore.GetOr(0.0)
    requires a.socialScore.GetOr(0.0) <= b.socialScore.GetOr(0.0)
    requires a.governanceScore.GetOr(0.0) <= b.governanceScore.GetOr(0.0)
    requires a.controversies.GetOr(0.0) >= b.controversies.GetOr(0.0)
    ensures WeightedScore(Some(a)) <= WeightedScore(Some(b))
    ensures Clamp(WeightedScore(Some(a))) <= Clamp(WeightedScore(Some(b)))
  {
    WeightedScoreCoalesces(a);
    WeightedScoreCoalesces(b);
  }

  /** With no controversies and every score in 0..100, the weighted sum needs no clamping. */
  lemma InRangeScoresNeedNoClamp(e: EsgData)
    requires 0.0 <= e.environmentalScore.GetOr(0.0) <= 100.0
    requires 0.0 <= e.socialScore.GetOr(0.0) <= 100.0
    requires 0.0 <= e.governanceScore.GetOr(0.0) <= 100.0
    requires e.controversies.GetOr(0.0) == 0.0
    ensures Clamp(WeightedScore(Some(e))) == WeightedScore(Some(e))
    ensures WeightedScore(Some(e)) <= 90.0
  {
    WeightedScoreCoalesces(e);
  }
}
