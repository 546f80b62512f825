/** The rules that turn a dropout probability into the two derived fields of a
    scored record (app.py:77-86). */
module Risk {

  /** At or above this score a student is labelled High. */
  const HighFrom: real := 0.7
  /** At or above this score (and below HighFrom) a student is labelled Medium. */
  const MediumFrom: real := 0.4
  /** At or above this score a student is predicted to drop out. */
  const DropoutFrom: real := 0.5

  datatype Level = Low | Medium | High {
    /** The text written into the `risk_label` column. */
    function Name(): string {
      match this
      case Low => "Low"
      case Medium => "Medium"
      case High => "High"
    }

    /** Position in the order Low < Medium < High. */
    function Rank(): nat {
      match this
      case Low => 0
      case Medium => 1
      case High => 2
    }
  }

  /** `risk_label(score)`: total, with each threshold falling in the upper bucket. */
  function RiskLabel(score: real): (level: Level)
    ensures level == High <==> score >= HighFrom
    ensures level == Medium <==> MediumFrom <= score < HighFrom
    ensures level == Low <==> score < MediumFrom
  {
    if score >= 0.7 then High
    else if score >= 0.4 then Medium
    else Low
  }

  /** `int(score >= 0.5)`: the binary dropout prediction. */
  function PredictedDropout(score: real): (flag: int)
    ensures flag == 0 || flag == 1
    ensures flag == 1 <==> score >= DropoutFrom
  {
    if score >= 0.5 then 1 else 0
  }

  /** Raising the score never moves a student to a lower bucket. */
  lemma RiskLabelMonotone(lower: real, higher: real)
    requires lower <= higher
    ensures RiskLabel(lower).Rank() <= RiskLabel(higher).Rank()
  {
  }

  /** The prediction only depends on the 0.5 threshold; it agrees with the
      outer buckets and is split inside Medium. */
  lemma PredictionAgainstLabel(score: real)
    ensures RiskLabel(score) == High ==> PredictedDropout(score) == 1
    ensures RiskLabel(score) == Low ==> PredictedDropout(score) == 0
    ensures MediumFrom <= score < DropoutFrom ==> RiskLabel(score) == Medium && PredictedDropout(score) == 0
    ensures DropoutFrom <= score < HighFrom ==> RiskLabel(score) == Medium && PredictedDropout(score) == 1
  {
  }
}
