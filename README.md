# Student dropout early-warning system: the scoring path in Dafny

This project models the part of the early-warning web app that turns an
uploaded student table into risk predictions (`app.py`). The table arrives as
CSV. Its column names are cleaned of surrounding whitespace. The upload is
refused when one of the eleven required feature columns (`FEATURES`) is
missing. The trained classifier's dropout probability for each row is attached
as `risk_score`. Each score gets a bucket label `risk_label` (Low below 0.4,
High from 0.7, Medium between) and a binary `predicted_dropout` (1 from 0.5).
The app then shows the twenty highest-scoring rows and offers a download with
only the three derived columns.

Modules, one per concern of `app.py`:

- `Cleaning` (`cleaning.dfy`): Python's `str.strip()`, with the exact set of
  characters `str.isspace` accepts.
- `Frames` (`frames.dfy`): the table as an ordered list of named columns. It
  covers column assignment (`df[name] = cells`) and column selection
  (`df[[...]]`), and the class `Table` whose methods change the uploaded table
  in place. It follows the data-frame library even when stripping makes two
  column names equal:
  - assignment overwrites every column under that name;
  - selection returns all of them.

  These rules give the values the app computes. Whether the app goes on to
  display them and offer the download when a cleaned name repeats is up to its
  display calls (see "## Left out").
- `Risk` (`risk.dfy`): `risk_label` and `predicted_dropout`.
- `Ranking` (`ranking.dfy`): the top-20 view, specified by `IsTopView` and
  computed by an insertion sort of row positions.
- `Predictor` (`predictor.dfy`): `FEATURES`, the missing-column check, and the
  whole run on one upload. `Predictor.Predict` is the run as a pure function
  and `Predictor.Process` is the same run changing a `Table` in place.
- `Training` (`training.dfy`): the only rule of the training script that is not
  a library call, the binary target `1 if Class == 'L' else 0`.

The classifier is opaque. Its outcome for an upload is an input: either one
probability per row, or the message of the exception it raised. Any probability
works, because the rules hold for every real score.

In the model, a run ends in one of four ways:

- halted, naming the missing features in feature order, before any score
  exists;
- halted with the classifier's error message;
- halted because at least two cleaned columns were already called `risk_score`;
- scored, with the top-20 view and the download.

The scored ending gives the values the app computes. It does not say that the
app offers them, because two display calls come before the download:
- with two cleaned `risk_label` columns, `st.metric` at app.py:107 raises an
  error that nothing catches, so the download is never offered;
- whether the table display at app.py:92-95 accepts a repeated cleaned column
  name, whatever the name, is up to the display library, which is not part of
  this model.

The third halt is not a check the app makes. With two such columns,
`df['risk_score']` is a frame of two columns, so `.apply(risk_label)` hands a
whole column to `risk_label`, and its `score >= 0.7` test raises an error that
nothing catches.

A stable sort would keep tied rows in input order. `app.py:93` calls
`sort_values` with the library's default sort, which is not stable, so
`Ranking.IsTopView` says nothing about the order of rows with equal scores.

Scores are real numbers. A floating-point score stands for the shortest
decimal that reads back as that float (what Python prints for it). That mapping
is strictly increasing and sends the constants 0.4, 0.5 and 0.7 to themselves,
so every threshold comparison in the model agrees with the binary64 comparison
the app makes.

## Model

| member | source | states |
|---|---|---|
| `Cleaning.Strip` | app.py:52 | a stripped name is empty or starts and ends with a non-whitespace character, and is no longer than the original |
| `Cleaning.StripSplits` | app.py:52 | every name is whitespace, then its stripped form, then whitespace: only surrounding whitespace is removed |
| `Cleaning.StripPadded` | app.py:52 | a trimmed name padded on either side with whitespace strips back to exactly itself; with `StripSplits` this determines `strip()` uniquely |
| `Cleaning.StripIdempotent` | app.py:52 | stripping a stripped name changes nothing |
| `Frames.StripNamesSound` | app.py:52 | `StripNames`, cleaning the column names, keeps the number, order and cells of the columns, leaves every name trimmed, keeps the table rectangular and is idempotent |
| `Frames.Table.StripColumnNames` | app.py:52 | the table's columns become their cleaned form; the row count is unchanged |
| `Frames.Matching` | app.py:74-86 | `df[name]`: a column is selected exactly when it is a column of the table carrying that name |
| `Frames.MatchingCount` | app.py:74-86 | the number of columns a name selects is the number of times it occurs in `df.columns`, so it is positive exactly when the name is a column |
| `Frames.AssignMatching` | app.py:74-86 | after `df[name] = cells` (`Frames.Assign`) the name selects every column it selected before (at least one), each now holding `cells`, and every other name selects exactly what it selected before |
| `Frames.AssignKeeps` | app.py:74-86 | column assignment keeps the existing columns in place, changes only those under the assigned name, appends at most one column at the end, and keeps the table rectangular |
| `Frames.Table.SetColumn` | app.py:74-86 | the table's columns become the assignment of the new cells; the row count is unchanged |
| `Frames.SelectMembers` | app.py:125 | `df[keys]` (`Frames.Select`) holds exactly the table's columns whose name is one of the keys |
| `Frames.SelectAppend` | app.py:125 | selecting a list of keys gives the selection of its first part followed by that of its second, so the columns come key by key in the order of the keys |
| `Risk.RiskLabel` | app.py:77-83 | High exactly when the score is at least 0.7, Medium exactly when it is in [0.4, 0.7), Low exactly when it is below 0.4, so each threshold falls in the upper bucket |
| `Risk.RiskLabelMonotone` | app.py:77-83 | raising the score never moves the label to a lower bucket |
| `Risk.PredictedDropout` | app.py:86 | the prediction is 0 or 1, and 1 exactly when the score is at least 0.5 |
| `Risk.PredictionAgainstLabel` | app.py:77-86 | High implies 1, Low implies 0, and Medium splits: [0.4, 0.5) gives 0 and [0.5, 0.7) gives 1 |
| `Training.DropoutTarget` | train_model.py:22 | the target is 0 or 1, and 1 exactly for the case-sensitive class "L" |
| `Ranking.SortDescending` | app.py:93 | the ordering is a permutation of its input, listed by non-increasing score |
| `Ranking.PrefixIsTopView` | app.py:93 | the first `min(limit, n)` entries of a descending permutation of all rows satisfy the top-view specification |
| `Ranking.TopRows` | app.py:93 | the view has `min(limit, n)` distinct rows of the table, in non-increasing score order, and no omitted row scores above a shown row |
| `Predictor.Missing` | app.py:58 | a name is reported exactly when it is required and absent, the report keeps the order of the required list, and it is empty exactly when every required name is present |
| `Predictor.MissingCounts` | app.py:58 | a missing required name is reported as many times as it is required, and a present one never |
| `Predictor.HaltsOnMissingColumns` | app.py:57-61 | the run halts on missing columns exactly when a feature is absent after cleaning; the halt names exactly those features, and the table then holds only the cleaned upload, with no score, label or prediction |
| `Predictor.ScoredIff` | app.py:57-93 | in the run `Predict`, scores are produced exactly when every feature is present, the classifier returned probabilities and at most one cleaned column is already `risk_score`; the table is then the scored table, the view meets the top-20 specification, and the download is the selection of the three output columns |
| `Predictor.ScoreTableShape` | app.py:74-86 | scoring (`ScoreTable`) keeps the row count, adds all three output columns, keeps every other column in place and unchanged, adds columns only at the end and only under the three output names, and every column under an output name holds the score, label or prediction of each row in row order |
| `Predictor.ScoredLabelColumns` | app.py:85 | after scoring, `risk_label` selects as many columns as before (at least one), each holding the label of every row's score |
| `Predictor.ScoreTableExport` | app.py:125 | the download holds one `risk_score` column, then every `risk_label` column, then every `predicted_dropout` column, each with the derived cells in row order |
| `Predictor.ExportIsThreeColumns` | app.py:125-126 | when the cleaned upload has none of the output names twice, the download is exactly `risk_score`, `risk_label`, `predicted_dropout`, in that order, with one cell per row |
| `Predictor.Process` | app.py:50-126 | the in-place run leaves the table and the outcome exactly as `Predict` describes, with the row count unchanged |

## Left out

- The web interface is not modelled: page setup, titles, the debug listing of columns, the file uploader, table display, the student selector, metrics, the explanation text and the download button (app.py:8-14, 45-48, 55, 91-132). The error and success messages and `st.stop()` are modelled only as the `Halted` outcomes.
- Loading the trained model with `joblib` under the resource cache (app.py:19-30) is file I/O and library caching. A failed load stops the app before any upload is read, which is outside the modelled run.
- `predict_proba` (app.py:68) is a numeric library call. Its result is the input `Inference`. `Predictor.Process` requires one probability per row, which that call always returns; the library would raise on a length mismatch.
- CSV parsing and writing (`read_csv`, `to_csv`, app.py:51, 126) are I/O. Only the column selection of the download is modelled.
- Risk.RiskLabel, Risk.PredictedDropout: the score is a real number, not a binary64 float. A float stands for the shortest decimal that reads back as it; taking its exact binary value instead would disagree at the thresholds, since the float nearest 0.7 lies just below 7/10 yet is High in the app.
- The order of rows with equal scores in the top-20 view is not fixed, because the library's default sort is not stable. The view is given as row positions, which equal the index labels that `read_csv` assigns.
- The single-student view (app.py:100-107) displays `df.loc[i, "risk_score"]`, rounded to three places, and `df.loc[i, "risk_label"]`. When a cleaned name is unique this reads one cell, which the model's columns give. A repeated `risk_score` halts the run before this view. A repeated `risk_label` makes `df.loc` return several values, which `st.metric` rejects, and the app stops with an error.
- Predictor.ScoreTableExport: when a cleaned column name repeats, the lemma gives the value `df[[...]]` at app.py:125 would have, not a download known to be offered. A repeated `risk_label` makes the metric at app.py:107 raise before the download. For any other repeated name, whether the table display at app.py:92-95 accepts it is up to the display library, which is not part of this model. `Predictor.Predict` returns `Scored` in these cases and models neither failure as a halt. `Predictor.ExportIsThreeColumns` gives the three-column selection whenever no output name repeats.
- `Frames.Select` returns nothing for an absent name, where the library raises `KeyError`. The run selects only after all three output columns exist, so this case never arises in it.
- Everything in train_model.py except the target mapping is not modelled: fitting the scaler, encoder and logistic regression, the stratified split, the metrics report and saving the artifact. These are floating-point numerics inside libraries that are not part of this model.
