/** The scoring path of the web app (app.py:35-126): clean the uploaded
    column names, refuse a table that lacks a required feature, attach the
    classifier's scores with their label and binary prediction, and derive the
    top-20 view and the three-column export. The classifier itself is opaque:
    its outcome for the upload is an input. */
module Predictor {
  import opened Frames
  import opened Risk
  import opened Ranking

  /** The eleven feature columns the classifier was trained on. */
  const FEATURES: seq<string> := [
    "gender", "StageID", "GradeID", "Topic", "Semester",
    "raisedhands", "VisITedResources",
    "AnnouncementsView", "Discussion",
    "StudentAbsenceDays", "Relation"
  ]

  const ScoreColumn: string := "risk_score"
  const LabelColumn: string := "risk_label"
  const DecisionColumn: string := "predicted_dropout"

  /** The columns of the downloadable predictions, in this order. */
  const ExportColumns: seq<string> := [ScoreColumn, LabelColumn, DecisionColumn]

  /** How many rows the high-risk view shows. */
  const TopCount: nat := 20

  /** What `predict_proba(X)[:, 1]` gave for the upload: one dropout
      probability per row, or the message of the exception it raised. */
  datatype Inference = Probabilities(scores: seq<real>) | Raised(message: string)

  /** Why processing of an upload stopped. */
  datatype Halt =
    | MissingRequired(missing: seq<string>)   // reported, then st.stop()
    | InferenceFailed(message: string)        // reported, then st.stop()
    | AmbiguousScoreColumn                    // two columns named risk_score: labelling raises

  datatype Outcome =
    | Halted(reason: Halt)
    | Scored(top: seq<nat>, download: seq<Column>)

  /** The outcome together with the state the table is left in. */
  datatype Run = Run(outcome: Outcome, columns: seq<Column>)

  /** `sub` keeps a selection of the entries of `s`, in the order of `s`. */
  predicate IsSubsequence(sub: seq<string>, s: seq<string>) {
    if sub == [] then true
    else if s == [] then false
    else if sub[0] == s[0] then IsSubsequence(sub[1..], s[1..])
    else IsSubsequence(sub, s[1..])
  }

  /** `[c for c in required if c not in present]` */
  function Missing(required: seq<string>, present: seq<string>): (missing: seq<string>)
    ensures forall c :: c in missing <==> c in required && c !in present
    ensures IsSubsequence(missing, required)
    ensures missing == [] <==> forall c :: c in required ==> c in present
  {
    if required == [] then []
    else if required[0] in present then Missing(required[1..], present)
    else [required[0]] + Missing(required[1..], present)
  }

  /** A required name is reported as often as it is required, or not at all. */
  lemma {:induction false} MissingCounts(required: seq<string>, present: seq<string>)
    ensures forall c :: multiset(Missing(required, present))[c] == if c in present then 0 else multiset(required)[c]
  {
    if required != [] {
      MissingCounts(required[1..], present);
      assert required == [required[0]] + required[1..];
    }
  }

  /** The `risk_score` column: the probabilities as they came. */
  function ScoreCells(scores: seq<real>): seq<Value> {
    seq(|scores|, i requires 0 <= i < |scores| => Number(scores[i]))
  }

  /** `df['risk_score'].apply(risk_label)` */
  function LabelCells(scores: seq<real>): seq<Value> {
    seq(|scores|, i requires 0 <= i < |scores| => Text(RiskLabel(scores[i]).Name()))
  }

  /** `(df['risk_score'] >= 0.5).astype(int)` */
  function DecisionCells(scores: seq<real>): seq<Value> {
    seq(|scores|, i requires 0 <= i < |scores| => Whole(PredictedDropout(scores[i])))
  }

  /** The cleaned table after `df['risk_score'] = ...`, `df['risk_label'] = ...`
      and `df['predicted_dropout'] = ...`, in that order. */
  function ScoreTable(cleaned: seq<Column>, scores: seq<real>): seq<Column> {
    var withScores := Assign(cleaned, ScoreColumn, ScoreCells(scores));
    Assign(Assign(withScores, LabelColumn, LabelCells(scores)), DecisionColumn, DecisionCells(scores))
  }

  /** The whole upload, from the cleaned names to the export. */
  function Predict(uploaded: seq<Column>, inference: Inference): Run {
    var cleaned := StripNames(uploaded);
    var missing := Missing(FEATURES, Names(cleaned));
    if missing != [] then Run(Halted(MissingRequired(missing)), cleaned)
    else
      match inference
      case Raised(message) => Run(Halted(InferenceFailed(message)), cleaned)
      case Probabilities(scores) =>
        var withScores := Assign(cleaned, ScoreColumn, ScoreCells(scores));
        if |Matching(withScores, ScoreColumn)| > 1 then Run(Halted(AmbiguousScoreColumn), withScores)
        else
          var scored := ScoreTable(cleaned, scores);
          Run(Scored(TopRows(scores, TopCount), Select(scored, ExportColumns)), scored)
  }

  /** The run halts on missing columns exactly when some feature is absent
      after cleaning; it then names exactly those features, in feature order,
      and no score, label or prediction has been attached to the table. */
  lemma HaltsOnMissingColumns(uploaded: seq<Column>, inference: Inference)
    ensures var cleaned := StripNames(uploaded);
      var missing := Missing(FEATURES, Names(cleaned));
      var run := Predict(uploaded, inference);
      && ((run.outcome.Halted? && run.outcome.reason.MissingRequired?) <==> missing != [])
      && (missing != [] ==> run == Run(Halted(MissingRequired(missing)), cleaned))
  {
  }

  /** Scores are produced exactly when every feature is present, the
      classifier returned probabilities, and at most one cleaned column is
      already called `risk_score`; the table is then the scored table, the
      view is its top-20 view and the download its three output columns. */
  lemma ScoredIff(uploaded: seq<Column>, inference: Inference)
    ensures var cleaned := StripNames(uploaded);
      var run := Predict(uploaded, inference);
      && (run.outcome.Scored? <==>
            && Missing(FEATURES, Names(cleaned)) == []
            && inference.Probabilities?
            && |Matching(cleaned, ScoreColumn)| <= 1)
      && (run.outcome.Scored? ==>
            && run.columns == ScoreTable(cleaned, inference.scores)
            && IsTopView(inference.scores, TopCount, run.outcome.top)
            && run.outcome.download == Select(run.columns, ExportColumns))
  {
    var cleaned := StripNames(uploaded);
    if inference.Probabilities? {
      AssignMatching(cleaned, ScoreColumn, ScoreCells(inference.scores), ScoreColumn);
      MatchingCount(cleaned, ScoreColumn);
    }
  }

  /** Scoring adds one score, label and prediction per row: the table keeps
      its row count, every column that is not one of the three output columns
      stays where it was with its contents, new columns appear only at the end
      and only under the three output names, and every column under an output
      name holds the derived cells. */
  lemma ScoreTableShape(cleaned: seq<Column>, scores: seq<real>)
    requires Rectangular(cleaned, |scores|)
    ensures var scored := ScoreTable(cleaned, scores);
      && Rectangular(scored, |scores|)
      && Names(cleaned) <= Names(scored)
      && ScoreColumn in Names(scored) && LabelColumn in Names(scored) && DecisionColumn in Names(scored)
      && (forall i :: 0 <= i < |cleaned| && cleaned[i].name !in ExportColumns ==> scored[i] == cleaned[i])
      && (forall i :: |cleaned| <= i < |scored| ==> scored[i].name in ExportColumns)
      && (forall i :: 0 <= i < |scored| && scored[i].name == ScoreColumn ==> scored[i].cells == ScoreCells(scores))
      && (forall i :: 0 <= i < |scored| && scored[i].name == LabelColumn ==> scored[i].cells == LabelCells(scores))
      && (forall i :: 0 <= i < |scored| && scored[i].name == DecisionColumn ==> scored[i].cells == DecisionCells(scores))
  {
    var c1 := Assign(cleaned, ScoreColumn, ScoreCells(scores));
    var c2 := Assign(c1, LabelColumn, LabelCells(scores));
    var c3 := Assign(c2, DecisionColumn, DecisionCells(scores));
    AssignKeeps(cleaned, ScoreColumn, ScoreCells(scores), |scores|);
    AssignKeeps(c1, LabelColumn, LabelCells(scores), |scores|);
    AssignKeeps(c2, DecisionColumn, DecisionCells(scores), |scores|);
    assert ScoreTable(cleaned, scores) == c3;
    forall i | |cleaned| <= i < |c3|
      ensures c3[i].name in ExportColumns
    {
      assert c3[i].name == Names(c3)[i];
      if i < |c1| {
        assert c1[i].name == Names(c1)[i] == Names(c3)[i];
      } else if i < |c2| {
        assert c2[i].name == Names(c2)[i] == Names(c3)[i];
      }
    }
    forall i | 0 <= i < |c3| && c3[i].name == ScoreColumn
      ensures c3[i].cells == ScoreCells(scores)
    {
      assert c3[i].name == Names(c3)[i];
      assert c1[i].name == Names(c1)[i] == Names(c3)[i];
    }
    forall i | 0 <= i < |c3| && c3[i].name == LabelColumn
      ensures c3[i].cells == LabelCells(scores)
    {
      assert c3[i].name == Names(c3)[i];
      assert c2[i].name == Names(c2)[i] == Names(c3)[i];
    }
  }

  /** How many columns a label selects after `df[name] = cells`: all it
      selected before, or one new column. */
  lemma AssignCount(cols: seq<Column>, name: string, cells: seq<Value>)
    ensures var n := |Matching(cols, name)|;
      Matching(Assign(cols, name, cells), name) == Repeat(Column(name, cells), if n == 0 then 1 else n)
  {
    MatchingCount(cols, name);
    AssignMatching(cols, name, cells, name);
  }

  lemma ScoredScoreColumns(cleaned: seq<Column>, scores: seq<real>)
    requires |Matching(cleaned, ScoreColumn)| <= 1
    ensures Matching(ScoreTable(cleaned, scores), ScoreColumn) == [Column(ScoreColumn, ScoreCells(scores))]
  {
    var c1 := Assign(cleaned, ScoreColumn, ScoreCells(scores));
    var c2 := Assign(c1, LabelColumn, LabelCells(scores));
    AssignCount(cleaned, ScoreColumn, ScoreCells(scores));
    assert Repeat(Column(ScoreColumn, ScoreCells(scores)), 1) == [Column(ScoreColumn, ScoreCells(scores))] + [];
    AssignMatching(c1, LabelColumn, LabelCells(scores), ScoreColumn);
    AssignMatching(c2, DecisionColumn, DecisionCells(scores), ScoreColumn);
  }

  lemma ScoredLabelColumns(cleaned: seq<Column>, scores: seq<real>)
    ensures var n := |Matching(cleaned, LabelColumn)|;
      Matching(ScoreTable(cleaned, scores), LabelColumn) ==
        Repeat(Column(LabelColumn, LabelCells(scores)), if n == 0 then 1 else n)
  {
    var c1 := Assign(cleaned, ScoreColumn, ScoreCells(scores));
    var c2 := Assign(c1, LabelColumn, LabelCells(scores));
    AssignMatching(cleaned, ScoreColumn, ScoreCells(scores), LabelColumn);
    AssignCount(c1, LabelColumn, LabelCells(scores));
    AssignMatching(c2, DecisionColumn, DecisionCells(scores), LabelColumn);
  }

  lemma ScoredDecisionColumns(cleaned: seq<Column>, scores: seq<real>)
    ensures var n := |Matching(cleaned, DecisionColumn)|;
      Matching(ScoreTable(cleaned, scores), DecisionColumn) ==
        Repeat(Column(DecisionColumn, DecisionCells(scores)), if n == 0 then 1 else n)
  {
    var c1 := Assign(cleaned, ScoreColumn, ScoreCells(scores));
    var c2 := Assign(c1, LabelColumn, LabelCells(scores));
    AssignMatching(cleaned, ScoreColumn, ScoreCells(scores), DecisionColumn);
    AssignMatching(c1, LabelColumn, LabelCells(scores), DecisionColumn);
    AssignCount(c2, DecisionColumn, DecisionCells(scores));
  }

  /** The download holds, in this order, every column called `risk_score`,
      `risk_label` and `predicted_dropout`: one of each unless the cleaned
      table already had several columns under one of the last two names, and
      each of them with the derived cells in row order. */
  lemma ScoreTableExport(cleaned: seq<Column>, scores: seq<real>)
    requires |Matching(cleaned, ScoreColumn)| <= 1
    ensures var labels := |Matching(cleaned, LabelColumn)|;
      var decisions := |Matching(cleaned, DecisionColumn)|;
      Select(ScoreTable(cleaned, scores), ExportColumns) ==
        [Column(ScoreColumn, ScoreCells(scores))]
        + Repeat(Column(LabelColumn, LabelCells(scores)), if labels == 0 then 1 else labels)
        + Repeat(Column(DecisionColumn, DecisionCells(scores)), if decisions == 0 then 1 else decisions)
  {
    var scored := ScoreTable(cleaned, scores);
    ScoredScoreColumns(cleaned, scores);
    ScoredLabelColumns(cleaned, scores);
    ScoredDecisionColumns(cleaned, scores);
    SelectThree(scored, ScoreColumn, LabelColumn, DecisionColumn);
  }

  /** When the cleaned table carries none of the output names twice, the
      download is exactly the three output columns, in order. */
  lemma ExportIsThreeColumns(cleaned: seq<Column>, scores: seq<real>)
    requires |Matching(cleaned, ScoreColumn)| <= 1
    requires |Matching(cleaned, LabelColumn)| <= 1
    requires |Matching(cleaned, DecisionColumn)| <= 1
    ensures Select(ScoreTable(cleaned, scores), ExportColumns) == [
      Column(ScoreColumn, ScoreCells(scores)),
      Column(LabelColumn, LabelCells(scores)),
      Column(DecisionColumn, DecisionCells(scores))
    ]
  {
    var scoreColumn := Column(ScoreColumn, ScoreCells(scores));
    var labelColumn := Column(LabelColumn, LabelCells(scores));
    var decisionColumn := Column(DecisionColumn, DecisionCells(scores));
    var labels := |Matching(cleaned, LabelColumn)|;
    var decisions := |Matching(cleaned, DecisionColumn)|;
    ScoreTableExport(cleaned, scores);
    RepeatOnce(labelColumn, labels);
    RepeatOnce(decisionColumn, decisions);
    assert [scoreColumn] + [labelColumn] + [decisionColumn] == [scoreColumn, labelColumn, decisionColumn];
  }

  /** The upload as the app processes it: the table is changed in place and
      the outcome reported. */
  method Process(t: Table, inference: Inference) returns (outcome: Outcome)
    requires t.Valid()
    requires inference.Probabilities? ==> |inference.scores| == t.rows
    modifies t
    ensures t.Valid() && t.rows == old(t.rows)
    ensures Run(outcome, t.columns) == Predict(old(t.columns), inference)
  {
    t.StripColumnNames();
    var missing := Missing(FEATURES, t.ColumnNames());
    if missing != [] {
      return Halted(MissingRequired(missing));
    }
    match inference
    case Raised(message) =>
      return Halted(InferenceFailed(message));
    case Probabilities(scores) =>
      t.SetColumn(ScoreColumn, ScoreCells(scores));
      if |Matching(t.columns, ScoreColumn)| > 1 {
        return Halted(AmbiguousScoreColumn);
      }
      t.SetColumn(LabelColumn, LabelCells(scores));
      t.SetColumn(DecisionColumn, DecisionCells(scores));
      var top := TopRows(scores, TopCount);
      outcome := Scored(top, Select(t.columns, ExportColumns));
  }
}
