/** Enumerations and tables of models/base.py. */
module Base {

  datatype Option<+T> = None | Some(value: T)

  datatype FiveC = Character | Capacity | Capital | Collateral | Conditions

  datatype RiskBand = HighRisk | Poor | Fair | Good | Excellent

  datatype Severity = Critical | High | Medium | Low | Info

  datatype Sentiment = Positive | Neutral | Adverse

  datatype Recommendation = Reject | ApproveWithConditions | Approve

  function Weight(c: FiveC): real {
    match c
    case Character => 0.20
    case Capacity => 0.30
    case Capital => 0.20
    case Collateral => 0.15
    case Conditions => 0.15
  }

  function ScoreToRiskBand(score: real): RiskBand {
    if score >= 80.0 then Excellent
    else if score >= 65.0 then Good
    else if score >= 50.0 then Fair
    else if score >= 35.0 then Poor
    else HighRisk
  }

  /** Position of a band or a recommendation on its scale, worst first. */
  function BandRank(b: RiskBand): nat {
    match b
    case HighRisk => 0
    case Poor => 1
    case Fair => 2
    case Good => 3
    case Excellent => 4
  }

  function RecommendationRank(r: Recommendation): nat {
    match r
    case Reject => 0
    case ApproveWithConditions => 1
    case Approve => 2
  }
}
