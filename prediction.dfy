/** The rules around the risk classifier in app_analise_preditiva.py and the
    second tab of app2.py: the risk card lookup, the gate that refuses to
    predict on "Todos", the slider default, the feature row sent to the model
    and the choice of the most probable class. The classifier itself is not
    part of this model. */
module Prediction {
  import opened Wrappers
  import opened Sequences
  import opened Calendar
  import opened Risk
  import Dashboard

  // ---------------------------------------------------------------------------
  // The risk card

  datatype CardStyle = CardStyle(border: string, bg: string, text: string, icon: string)

  datatype RiskCard = RiskCard(level: string, style: CardStyle, message: string)

  /** `estilos`. */
  const Estilos: map<string, CardStyle> := map[
    "Baixo" := CardStyle("#2ecc71", "#e9f7ef", "#27ae60", "✅"),
    "Médio" := CardStyle("#f1c40f", "#fef9e7", "#f39c12", "⚠️"),
    "Alto" := CardStyle("#e67e22", "#fbeee6", "#d35400", "🔥"),
    "Muito Alto" := CardStyle("#c0392b", "#fdecea", "#e74c3c", "🚨")
  ]

  /** `descricoes`. */
  const Descricoes: map<string, string> := map[
    "Baixo" := "Baixo risco: condições seguras para atividades externas normais.",
    "Médio" := "Risco moderado: fique atento e evite fogueiras ou queimadas.",
    "Alto" := "Risco alto: limite todas as atividades com fogo e siga orientações locais.",
    "Muito Alto" := "Risco crítico: perigo iminente. Procure abrigo e siga instruções de emergência."
  ]

  /** `display_risk_card`: the card for a known label, the error message
      `Nível de risco desconhecido: <label>` for any other. */
  function DisplayRiskCard(risco: string): (r: Result<RiskCard, string>)
    ensures r.Ok? <==> risco in RiskLabels
    ensures r.Ok? ==> r.value.level == risco && r.value.message != ""
    ensures r.Err? ==> r.error == "Nível de risco desconhecido: " + risco
  {
    if risco !in Estilos then Err("Nível de risco desconhecido: " + risco)
    else
      var msg := if risco in Descricoes then Descricoes[risco] else "";
      Ok(RiskCard(risco, Estilos[risco], msg))
  }

  /** Every label with a style has a non-empty description, so the `""`
      fallback of `descricoes.get` is never shown. */
  lemma DescriptionsCoverStyles()
    ensures forall level :: level in Estilos <==> level in RiskLabels
    ensures forall level :: level in Estilos ==> level in Descricoes && Descricoes[level] != ""
  {
  }

  /** The card accepts exactly the labels the training binning produces, so
      every risk index in [0, 1] has a card. */
  lemma BinnedLabelsHaveCards(x: real)
    requires 0.0 <= x <= 1.0
    ensures DisplayRiskCard(Bin(x).value).Ok?
  {
  }

  // ---------------------------------------------------------------------------
  // The slider default

  /** `int(n / 2)`: true division, then truncation toward zero. */
  function TruncatedHalf(n: int): (h: int)
    ensures n >= 0 ==> 2 * h == n || 2 * h == n - 1
    ensures n < 0 ==> 2 * h == n || 2 * h == n + 1
  {
    if n >= 0 then n / 2 else -((-n) / 2)
  }

  /** `int((dias_min + dias_max) / 2)`: the default lies within the
      slider's range whenever the range is not reversed. */
  function SliderDefault(lo: int, hi: int): (v: int)
    ensures lo <= hi ==> lo <= v <= hi
  {
    TruncatedHalf(lo + hi)
  }

  // ---------------------------------------------------------------------------
  // The feature row and the gate

  /** The sidebar choices the prediction uses. */
  datatype Selection = Selection(estado: string, municipio: string, bioma: string)

  /** `df_input`: one row sent to the classifier. */
  datatype FeatureRow = FeatureRow(municipio: string, estado: string, numeroDiasSemChuva: int,
                                   bioma: string, horario: nat, diaDeSemana: string)

  /** The fixed reference date of the weekday feature, 2025-06-06. */
  function ReferenceDay(): int {
    DaysFromCivil(2025, 6, 6)
  }

  /** The row as the script builds it: the weekday is
      `calendar.day_name[Timestamp("2025-06-06 <h>:00").dayofweek]`, an
      English name. */
  function FeatureRowAsWritten(sel: Selection, dias: int, hora: nat): (row: FeatureRow)
    requires hora < 24
  {
    FeatureRow(sel.municipio, sel.estado, dias, sel.bioma, hora, DayName(ReferenceDay()))
  }

  /** The weekday the script sends is the English "Friday" whatever the
      hour, while the training table's `dia_de_semana` holds only Portuguese
      names: the value is outside the vocabulary the classifier was trained on. */
  lemma AsWrittenWeekdayIsUntrained(sel: Selection, dias: int, hora: nat)
    requires hora < 24
    ensures FeatureRowAsWritten(sel, dias, hora).diaDeSemana == "Friday"
    ensures FeatureRowAsWritten(sel, dias, hora).diaDeSemana !in PortugueseDayNames
  {
    CalendarAnchors();
  }

  /** The row with the weekday named as in training: the reference date's
      weekday translated through `dia_semana_portugues`. */
  function FeatureRowCorrected(sel: Selection, dias: int, hora: nat): (row: FeatureRow)
    requires hora < 24
  {
    DayNameTranslates(ReferenceDay());
    FeatureRow(sel.municipio, sel.estado, dias, sel.bioma, hora, ToPortuguese(DayName(ReferenceDay())).value)
  }

  /** The corrected row carries the inputs unchanged and "Sexta-feira", the
      name training gives every Friday, for every hour. */
  lemma CorrectedRowSpec(sel: Selection, dias: int, hora: nat)
    requires hora < 24
    ensures var row := FeatureRowCorrected(sel, dias, hora);
            && row.municipio == sel.municipio && row.estado == sel.estado && row.bioma == sel.bioma
            && row.numeroDiasSemChuva == dias && row.horario == hora
            && row.diaDeSemana == "Sexta-feira"
            && row.diaDeSemana in PortugueseDayNames
            && ToPortuguese(DayName(ReferenceDay())) == Some(row.diaDeSemana)
  {
    CalendarAnchors();
    DayNameTranslates(ReferenceDay());
  }

  /** The gate: no row, hence no prediction, while any selector is "Todos". */
  function PredictionInput(sel: Selection, dias: int, hora: nat): (r: Option<FeatureRow>)
    requires hora < 24
    ensures r.None? <==> sel.estado == Dashboard.Todos || sel.municipio == Dashboard.Todos || sel.bioma == Dashboard.Todos
    ensures r.Some? ==> r.value == FeatureRowCorrected(sel, dias, hora)
  {
    if sel.estado == Dashboard.Todos || sel.municipio == Dashboard.Todos || sel.bioma == Dashboard.Todos then None
    else Some(FeatureRowCorrected(sel, dias, hora))
  }

  // ---------------------------------------------------------------------------
  // The most probable class

  /** Index of the first highest probability. */
  function ArgMax(probas: seq<real>): (i: nat)
    requires probas != []
    ensures i < |probas|
    ensures forall j :: 0 <= j < |probas| ==> probas[j] <= probas[i]
    decreases |probas|
  {
    if |probas| == 1 then 0
    else
      var k := ArgMax(probas[1..]);
      assert forall j :: 1 <= j < |probas| ==> probas[j] == probas[1..][j - 1];
      if probas[0] >= probas[1 + k] then 0 else 1 + k
  }

  /** `sort_values(by="probabilidade", ascending=False).iloc[0]`: the class
      and probability on top. A fitted classifier never gives an empty table;
      there `iloc[0]` would raise IndexError, and the model gives nothing. */
  function PredictedClass(classes: seq<string>, probas: seq<real>): (r: Option<(string, real)>)
    requires |classes| == |probas|
    ensures r.None? <==> probas == []
    ensures r.Some? ==> exists i :: 0 <= i < |classes| && r.value == (classes[i], probas[i])
    ensures r.Some? ==> forall j :: 0 <= j < |probas| ==> probas[j] <= r.value.1
  {
    if probas == [] then None
    else
      var i := ArgMax(probas);
      Some((classes[i], probas[i]))
  }
}
