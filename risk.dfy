/**
 * The risk score and the three-tier risk level (dataExploration.py, lines
 * 127-139). Scores and thresholds are reals; the anomaly model that produces
 * the score is not part of this model.
 */
module Risk {

  datatype RiskLevel = Low | Medium | High
  {
    /** Position in the order Low < Medium < High. */
    function Rank(): nat
    {
      match this
      case Low => 0
      case Medium => 1
      case High => 2
    }

    /** The label written to the `risk_level` column. */
    function Name(): string
    {
      match this
      case Low => "Low"
      case Medium => "Medium"
      case High => "High"
    }
  }

  /** `risk_score = -anomaly_score`: higher means riskier. */
  function RiskScore(anomalyScore: real): (score: real)
    ensures anomalyScore < 0.0 <==> score > 0.0
  {
    -anomalyScore
  }

  /** `classify_risk` with the two global cut points `low_thresh` and `high_thresh`. */
  function ClassifyRisk(score: real, lowThresh: real, highThresh: real): (level: RiskLevel)
    ensures level == Low <==> score < lowThresh
    ensures level == Medium <==> lowThresh <= score < highThresh
    ensures level == High <==> lowThresh <= score && highThresh <= score
  {
    if score < lowThresh then Low
    else if score < highThresh then Medium
    else High
  }

  /**
   * The level never goes down as the score goes up. This holds for any pair
   * of cut points; the quantiles the pipeline uses satisfy low <= high.
   */
  lemma ClassifyRiskMonotone(s1: real, s2: real, lowThresh: real, highThresh: real)
    requires s1 <= s2
    ensures ClassifyRisk(s1, lowThresh, highThresh).Rank() <= ClassifyRisk(s2, lowThresh, highThresh).Rank()
  {
  }

  /** A more normal anomaly score never gets a higher risk level. */
  lemma ClassifyRiskAntitoneInAnomalyScore(a1: real, a2: real, lowThresh: real, highThresh: real)
    requires a1 <= a2
    ensures ClassifyRisk(RiskScore(a2), lowThresh, highThresh).Rank() <= ClassifyRisk(RiskScore(a1), lowThresh, highThresh).Rank()
  {
    ClassifyRiskMonotone(RiskScore(a2), RiskScore(a1), lowThresh, highThresh);
  }

  /** With ordered cut points every level is reachable and High means at or above the high cut point. */
  lemma ClassifyRiskOrderedThresholds(score: real, lowThresh: real, highThresh: real)
    requires lowThresh <= highThresh
    ensures ClassifyRisk(score, lowThresh, highThresh) == High <==> highThresh <= score
    ensures ClassifyRisk(lowThresh - 1.0, lowThresh, highThresh) == Low
    ensures ClassifyRisk(highThresh, lowThresh, highThresh) == High
    ensures lowThresh < highThresh ==> ClassifyRisk(lowThresh, lowThresh, highThresh) == Medium
  {
  }
}
