/** `roda_csv` of simulador_csv.py: the uploaded table gets the same
    timestamp and weekday features as the training table, the classifier
    labels every row, and the page shows how many rows got each label. */
module Simulator {
  import opened Wrappers
  import opened Sequences
  import opened Text
  import opened Frames
  import opened Timestamps
  import opened Features

  /** `value_counts().sort_index()` of the predicted labels. */
  function Distribution(labels: seq<string>): seq<(string, nat)> {
    LexIsStrictTotalOrder();
    SortedCounts(labels, LexLess)
  }

  /** One entry per distinct label, labels in ascending order, each count
      the exact number of rows with that label (never zero), and the counts
      adding up to the number of rows. */
  lemma DistributionSpec(labels: seq<string>)
    ensures var d := Distribution(labels);
      && (forall i, j :: 0 <= i < j < |d| ==> LexLess(d[i].0, d[j].0))
      && (forall x :: x in labels <==> exists i :: 0 <= i < |d| && d[i].0 == x)
      && (forall i :: 0 <= i < |d| ==> d[i].1 == Count(labels, d[i].0) && d[i].1 > 0)
      && SumOfCounts(d) == |labels|
  {
    LexIsStrictTotalOrder();
    SortedCountsSpec(labels, LexLess);
  }

  /** What the page computes: the table with its predictions, and the label
      distribution. */
  datatype Outcome = Outcome(ypred: Frame, distribution: seq<(string, nat)>)

  /** Lines 15-33: the timestamp features, then the weekday. */
  method DeriveCsvFeatures(raw: Frame) returns (r: Result<Frame, PipelineError>)
    requires Valid(raw)
    ensures r.Err? <==> ParsedStamps(raw).Err?
    ensures r.Err? ==> r.error == ParsedStamps(raw).error
    ensures r.Ok? ==> Valid(r.value) && r.value.height == raw.height
    ensures r.Ok? ==> ColumnOf(r.value, "data_hora_gmt") == None && ColumnOf(r.value, "data") == None
    ensures r.Ok? ==> ColumnOf(r.value, "horario") == Some(HorarioColumn(ParsedStamps(raw).value))
    ensures r.Ok? ==> ColumnOf(r.value, "dia_de_semana") == Some(WeekdayColumn(DatePartColumn(ParsedStamps(raw).value)))
    ensures r.Ok? ==> forall n :: n != "data_hora_gmt" && n != "data" && n != "horario" && n != "dia_de_semana" ==>
              ColumnOf(r.value, n) == ColumnOf(raw, n)
  {
    var step := DeriveTimestampFeatures(raw);
    if step.Err? {
      return Err(step.error);
    }
    var df := DeriveWeekday(step.value);
    return Ok(df);
  }

  /** The classifier's output is a parameter, since the classifier is outside
      this model: `predicted` holds the label `predict_model` assigns to each
      row, and `scores` the score it reports for that label. */
  method RunCsv(raw: Frame, predicted: seq<string>, scores: seq<real>) returns (r: Result<Outcome, PipelineError>)
    requires Valid(raw) && |predicted| == raw.height && |scores| == raw.height
    ensures r.Err? <==> ParsedStamps(raw).Err?
    ensures r.Err? ==> r.error == ParsedStamps(raw).error
    ensures r.Ok? ==> Valid(r.value.ypred) && r.value.ypred.height == raw.height
    ensures r.Ok? ==> ColumnOf(r.value.ypred, "data_hora_gmt") == None && ColumnOf(r.value.ypred, "data") == None
    ensures r.Ok? ==> ColumnOf(r.value.ypred, "horario") == Some(HorarioColumn(ParsedStamps(raw).value))
    ensures r.Ok? ==> ColumnOf(r.value.ypred, "dia_de_semana") == Some(WeekdayColumn(DatePartColumn(ParsedStamps(raw).value)))
    ensures r.Ok? ==> ColumnOf(r.value.ypred, "prediction_label") == Some(Texts(predicted))
    ensures r.Ok? ==> ColumnOf(r.value.ypred, "prediction_score") == Some(Numbers(scores))
    ensures r.Ok? ==> forall n ::
              n != "data_hora_gmt" && n != "data" && n != "horario" && n != "dia_de_semana" && n != "prediction_label" && n != "prediction_score" ==>
                ColumnOf(r.value.ypred, n) == ColumnOf(raw, n)
    ensures r.Ok? ==> r.value.distribution == Distribution(predicted)
  {
    var features := DeriveCsvFeatures(raw);
    if features.Err? {
      return Err(features.error);
    }
    var outcome := Predict(features.value, predicted, scores);
    return Ok(outcome);
  }

  /** Lines 39-46: `predict_model` appends `prediction_label` and then
      `prediction_score` (a classifier with class probabilities reports the
      score of the chosen label), and the page counts the labels. */
  method Predict(df: Frame, predicted: seq<string>, scores: seq<real>) returns (out: Outcome)
    requires Valid(df) && |predicted| == df.height && |scores| == df.height
    ensures Valid(out.ypred) && out.ypred.height == df.height
    ensures ColumnOf(out.ypred, "prediction_label") == Some(Texts(predicted))
    ensures ColumnOf(out.ypred, "prediction_score") == Some(Numbers(scores))
    ensures forall n :: n != "prediction_label" && n != "prediction_score" ==> ColumnOf(out.ypred, n) == ColumnOf(df, n)
    ensures out.distribution == Distribution(predicted)
  {
    var labelled := WithColumn(df, "prediction_label", Texts(predicted));
    WithColumnLookup(df, "prediction_label", Texts(predicted));
    var ypred := WithColumn(labelled, "prediction_score", Numbers(scores));
    WithColumnLookup(labelled, "prediction_score", Numbers(scores));
    var contagem := Distribution(predicted);
    out := Outcome(ypred, contagem);
  }

  /** Scores as numeric cells. */
  function Numbers(scores: seq<real>): (r: seq<Value>)
    ensures |r| == |scores|
    ensures forall k :: 0 <= k < |scores| ==> r[k] == Number(scores[k])
  {
    seq(|scores|, k requires 0 <= k < |scores| => Number(scores[k]))
  }

  /** Labels as text cells. */
  function Texts(labels: seq<string>): (r: seq<Value>)
    ensures |r| == |labels|
    ensures forall k :: 0 <= k < |labels| ==> r[k] == Text(labels[k])
  {
    seq(|labels|, k requires 0 <= k < |labels| => Text(labels[k]))
  }
}
