# Prevenção de Desastres Naturais — a verified model of the data rules

This project is a Dafny model of the data-handling rules behind the
Streamlit fire-risk dashboards in Prevencao_Desastres_Naturais. The model
leaves out the widgets, charts and trained classifier. It covers:

- **Loader** (`loader.dfy`). `load_data` is repeated in three scripts. It
  picks the date column by a case-insensitive substring search over the
  labels, fails when no label holds "data", and silently drops rows whose
  date does not parse. It renames the date column and two fixed columns,
  and derives `data_somente`.
- **Descriptive dashboard** (`dashboard.dfy`, `indicators.dfy`). This
  covers:
  - the sorted selector option lists;
  - the filter mask built by `mask &= ...`, where "Todos" imposes no
    constraint and the period is inclusive;
  - the KPIs;
  - the 30-day daily series, zero-filled;
  - the top-5 municipality ranking.
- **Prediction side** (`prediction.dfy`, `risk.dfy`). This covers:
  - the risk-label card lookup;
  - the gate that refuses to predict while a selector is "Todos";
  - the slider midpoint;
  - the feature row sent to the classifier, with its weekday;
  - the choice of the most probable class.
- **Training and simulation preprocessing** (`timestamps.dfy`,
  `features.dfy`, `training.dfy`, `simulator.dfy`). This covers:
  - the strict `%d/%m/%Y %H:%M` parse, which raises on the first bad
    value;
  - `horario`, computed through the `%H:%M` text;
  - the four-level risk binning;
  - the English-to-Portuguese weekday translation;
  - `drop_duplicates`, the column drops and the train/validation split;
  - the predicted-label distribution.
- **Chat history** (`chat.dfy`). The session history is created once. It
  grows by a question and a fixed reply per non-empty submission, and is
  displayed as "Você" / "Assistente".
- **Events page** (`events.dfy`). It filters by type and period, counts
  the events, sums the area and victims, and counts events per day.

Shared foundations:

- `frame.dfy` models a pandas DataFrame as labelled columns of cells. A
  cell is missing, text, a number, a timestamp or a date. The module
  covers:
  - label lookup, where the first column with that label wins;
  - column assignment, drop and rename;
  - row masks, `drop_duplicates` and positional row selection.
- `sequences.dfy` holds mask filtering, occurrence counts, first
  occurrences and sorted grouped counts.
- `text.dfy` holds lower-casing, substring search, lexicographic order and
  digit fields.
- `calendar.dfy` represents dates as day numbers, with 1970-01-01 as day
  0. So "`fim - timedelta(days=29)`" is `fim - 29`. It also holds the
  civil calendar, the weekday and the day-name tables.
- `wrappers.dfy` holds `Option` and `Result`. `Err` stands for an
  exception the source raises.

Three things are parameters of the model rather than parts of it:

- the permissive `pd.to_datetime(dayfirst=True, errors="coerce")` used by
  the loaders, as a function from a cell to an optional timestamp;
- the random `df.sample` choice, as the list of positions it picks;
- the classifier's output: the label and score it gives each row, or its class
  probabilities.

The model follows the code where the system's specification describes
something else:

- The labels searched are "data" and "hora", not "date" and "time".
- A reversed period is not rejected. It yields an empty view
  (`Dashboard.ReversedPeriodIsEmpty`).
- The 30-day series is not produced at all for an empty view
  (`Indicators.DailySeries` is `None`). The specification says it is
  zero-filled.

## Model

| member | source | states |
|---|---|---|
| Loader.DetectDateColumn | app_analise_descritiva.py:19-26 | The loop returns the first label containing both "data" and "hora" (case-insensitive) if there is one, else the first label containing "data", else nothing; equal to the reference `DateColumn` |
| Loader.DateColumnSpec | app2.py:38-47 | Detection finds nothing iff no label contains "data"; whatever it finds contains "data"; when some label contains both "data" and "hora" the first such label is chosen, even after a data-only label; otherwise the first label containing "data" is chosen |
| Loader.LoadErrors | app_analise_descritiva.py:28-32 | Loading fails with the missing-date-column error exactly when no label contains "data"; with a detected column, it succeeds iff no other label is renamed to "data" as well |
| Loader.NoDateColumnError | app_analise_descritiva.py:28-32 | Loading fails with the missing-date-column error exactly when no label contains "data" |
| Loader.DuplicateDateLabelError | app2.py:56-66 | With column i detected, loading succeeds exactly when no other label is sent to "data" by the rename table, so `dropna(subset=["data"])` selects a single column |
| Loader.LoadSpec | app_analise_descritiva.py:34-41 | The loaded table has exactly the rows whose date parsed, in order; the date column is renamed "data" and holds the parsed timestamps; every other column keeps its values filtered the same way and its name through the rename table; `data_somente` is the date part of `data`; at most one column is added, and an added column is `data_somente` |
| Loader.LoadData | app_analise_preditiva.py:15-35 | The imperative loader (detect, parse, rename, drop, derive) computes exactly `Load` |
| Loader.Survivors | app2.py:56-66 | Row k survives iff its date cell is present and parses |
| Loader.RenameStepSpec | app_analise_descritiva.py:35-39 | Renaming sends the detected column to "data", `numero_dias_sem_chuva` to `dias_sem_chuva`, `risco_fogo` to `risco`, and keeps every other label |
| Loader.FixedNamesAreNotDateNames | app_analise_preditiva.py:29-33 | Neither fixed column label contains "data", so the rename table never sends two of its keys to the same place by accident |
| Loader.RenamedHasData | app2.py:59-63 | After the rename the table has a "data" column |
| Loader.FinishStepSpec | app2.py:65-69 | Dropping rows with a missing `data` keeps exactly the rows whose date is present, and `data_somente` is their date part |
| Frames.RenameSpec | app_analise_descritiva.py:35-39 | `rename` keeps the shape and maps each label through the table, absent keys being skipped |
| Frames.SelectRowsSpec | app_analise_descritiva.py:96 | `df[mask]` keeps every label, filters every column by the mask, and yields the masked rows in order |
| Frames.WithColumnSpec | app_analise_descritiva.py:41 | Assigning a column makes that label read the new values and leaves every other label unchanged |
| Frames.DropSpec | models_create/modelo.py:19 | Dropping a label removes it and leaves every other label unchanged |
| Frames.DropDuplicatesSpec | models_create/modelo.py:14 | After `drop_duplicates` no two rows are identical, every original row has an identical row kept (its first occurrence), and order is kept |
| Dashboard.RecordsSpec | app_analise_descritiva.py:60-96 | The records exist iff the six columns the page reads are present and every `data_somente` cell is a date; record k holds row k's cells |
| Dashboard.Options | app_analise_descritiva.py:60 | `sorted(col.dropna().unique())`: strictly sorted, duplicate-free, and holding exactly the texts of the column |
| Dashboard.StaticOptionsSpec | app2.py:113-126 | The state and biome lists are sorted, duplicate-free, null-free and hold exactly the values present in their column |
| Dashboard.MunicipioOptionsSpec | app_analise_descritiva.py:64-69 | With a state chosen, the municipality options are exactly the distinct municipalities of that state's rows, sorted; with "Todos", those of all rows |
| Dashboard.BuildMask | app_analise_descritiva.py:86-95 | The mask built by successive `&=` is true at row k iff the row satisfies every non-"Todos" equality and `inicio <= data_somente <= fim` |
| Dashboard.ViewMembership | app_analise_descritiva.py:86-96 | A row is in the filtered view iff it is a table row satisfying the criteria |
| Dashboard.ViewOrder | app2.py:141-155 | The view lists the matching rows in table order: entry j is the j-th matching row, positions strictly increasing |
| Dashboard.ReversedPeriodIsEmpty | app_analise_descritiva.py:94-95 | A period with start after end yields an empty view (no range validation) |
| Dashboard.AllTodosKeepsEverything | app2.py:141-153 | With every selector "Todos" and a period covering all rows, the view is the whole table |
| Dashboard.NarrowingNeverEnlarges | app_analise_descritiva.py:87-92 | Replacing "Todos" by a value, or shrinking the period, never adds a row to the view |
| Indicators.ComputeKpis | app_analise_descritiva.py:103-125 | Total is the view size; the two means and the last date are absent ("—") exactly when the view is empty; the last date bounds every row's date and is attained |
| Indicators.NumericMean | app2.py:164-166 | The mean is a sum over at most as many values as the view has cells |
| Indicators.MeanCountsEveryCell | app_analise_descritiva.py:104 | The mean averages every row exactly when every cell is a number |
| Indicators.MeanAtLeast | app2.py:183 | If every numeric cell is at least `lo`, the sum is at least `lo` times the count |
| Indicators.MeanAtMost | app_analise_descritiva.py:122 | If every numeric cell is at most `hi`, the sum is at most `hi` times the count |
| Indicators.MaxDay | app2.py:175-176 | The latest date of a non-empty view bounds every row's date and is attained |
| Indicators.MinDay | app_analise_descritiva.py:76-77 | The earliest date of a non-empty table is a lower bound that is attained |
| Indicators.DefaultCriteriaShowAll | app_analise_descritiva.py:76-83 | With the default period (min, max) and every selector "Todos", the view is the whole table |
| Indicators.DailySeries | app_analise_descritiva.py:131-148 | No series for an empty view; otherwise exactly 30 entries for the consecutive days `fim-29 .. fim`, ascending |
| Indicators.DailySeriesSpec | app2.py:195-216 | Each entry counts the view's rows on that day whose `risco` is present; days with no rows get 0; the counts sum to the rows with a risk in the window |
| Indicators.DayRiskCountAbsent | app2.py:209-216 | A day on which no row falls counts 0 |
| Indicators.TallySpec | app_analise_descritiva.py:166-167 | The tally pairs every value of the list with its exact number of occurrences, lists no value that does not occur and no entry twice, and its counts sum to the number of values |
| Indicators.SortByCountSpec | app_analise_descritiva.py:167 | Ordering by count gives a non-increasing table with exactly the same entries, keeping them duplicate-free and keeping the sum of counts |
| Indicators.InsertByCountSpec | app2.py:235 | Inserting an entry into a non-increasing table keeps it non-increasing, adds exactly that entry, and adds its count to the sum |
| Indicators.ValueCountsEntries | app2.py:234-235 | `value_counts`: one entry per distinct non-null value with its exact count, counts non-increasing, summing to the non-null count |
| Indicators.TopMunicipiosSpec | app_analise_descritiva.py:164-171 | At most 5 entries, as many as there are distinct municipalities when fewer; non-null, distinct, exact counts, non-increasing; any unlisted municipality occurs no more often than any listed one; counts sum to at most the view size |
| Indicators.TopBounds | app2.py:232-239 | No municipality left out of the top 5 occurs more often than any listed one, and the listed counts sum to at most the view size |
| Prediction.DisplayRiskCard | app_analise_preditiva.py:39-58 | A card is produced iff the label is "Baixo", "Médio", "Alto" or "Muito Alto", carrying that label and a non-empty message; any other label gives the error "Nível de risco desconhecido: <label>" |
| Prediction.DescriptionsCoverStyles | app_analise_preditiva.py:41-53 | The styled labels are exactly the four risk labels and each has a non-empty description, so the `""` fallback is never used |
| Prediction.BinnedLabelsHaveCards | app_analise_preditiva.py:55-58 | Every label the training binning can produce is accepted by the card |
| Prediction.SliderDefault | app_analise_preditiva.py:98-105 | `int((min+max)/2)` lies in [min, max] whenever min <= max |
| Prediction.TruncatedHalf | app_analise_preditiva.py:104 | Halving truncates toward zero: twice the result is the input or one closer to zero |
| Prediction.PredictionInput | app_analise_preditiva.py:116-126 | No feature row (no prediction) exactly when estado, municipio or bioma is "Todos"; otherwise the corrected row |
| Prediction.AsWrittenWeekdayIsUntrained | app_analise_preditiva.py:127-129 | As written, the row's weekday is "Friday" for every hour, a value absent from the Portuguese names the classifier was trained on |
| Prediction.CorrectedRowSpec | app_analise_preditiva.py:120-129 | The corrected row holds municipio, estado, days without rain, bioma and hour from the inputs, and "Sexta-feira", the translated weekday of 2025-06-06, for every hour |
| Prediction.PredictedClass | app2.py:369-376 | For a non-empty probability table, a class of the table whose probability is at least every other class's. A fitted classifier never gives an empty table; the page would raise IndexError at `iloc[0]` there, and the model returns nothing instead |
| Prediction.ArgMax | app2.py:372-375 | The position of a highest probability: in range and at least every entry |
| Risk.BinIndex | models_create/modelo.py:22-30 | A bin exists iff 0 <= x <= 1; bin i covers (edge i, edge i+1], the first one also closed on the left |
| Risk.BinIntervals | models_create/modelo.py:22-30 | [0, 0.3] is Baixo, (0.3, 0.6] Médio, (0.6, 0.8] Alto, (0.8, 1.0] Muito Alto, each an iff |
| Risk.BinMonotone | models_create/modelo.py:22-30 | A higher risk value never gets a lower-ordered label |
| Risk.BinCell | models_create/modelo.py:26-30 | A cell gets a label iff it is a number in [0, 1], and that label is its bin's |
| Calendar.TranslationIsBijection | models_create/modelo.py:34-44 | The translation's keys are exactly the seven English names, each maps to the same weekday's Portuguese name, and both name lists are duplicate-free |
| Calendar.DayNameTranslates | simulador_csv.py:22-32 | Every date's English weekday name translates, to the Portuguese name of that weekday |
| Calendar.CalendarAnchors | app_analise_preditiva.py:127-129 | 1970-01-01 is day 0, and 2025-06-06 is day 20245, a Friday |
| Timestamps.ParseText | models_create/modelo.py:15 | An accepted text yields a valid in-range timestamp built from fields the format matched; the value is refused as unmatched iff the format does not match; a matched day that does not exist in its month is refused; a matched valid date is accepted iff it is in the timestamp range, and then as exactly the matched fields |
| Timestamps.ParseStrict | simulador_csv.py:15 | The column parses iff every value does, value by value; otherwise the error is that of the first refused row (it raises, nothing is dropped) |
| Timestamps.ParseCell | models_create/modelo.py:15 | A missing value and the NaT spellings stay missing; any other text is accepted iff the strict text parse accepts it, as that timestamp, and is otherwise refused with its error; a number is refused |
| Timestamps.ParseFormatRoundTrip | models_create/modelo.py:15 | A valid in-range timestamp written as `dd/mm/YYYY HH:MM` parses back to itself |
| Timestamps.ParseLooseFormat | models_create/modelo.py:15 | The format also accepts day, month, hour and minute without leading zeros and any run of spaces between date and clock: every valid in-range timestamp so written parses to itself |
| Timestamps.NoRollOver | simulador_csv.py:15 | A matched date whose day does not exist in its month raises instead of rolling over |
| Timestamps.ClockRoundTrip | simulador_csv.py:17-18 | The `%H:%M` text of an hour and minute reads back as that hour and minute |
| Timestamps.HorarioIsHour | models_create/modelo.py:17-18 | `horario` is the timestamp's own hour, in 0..23, and missing exactly where the timestamp is |
| Features.ParsedStampsErrors | models_create/modelo.py:15 | The parse step fails with KeyError iff `data_hora_gmt` is absent, else with the first refused row's error iff some value is refused |
| Features.DeriveTimestampFeatures | simulador_csv.py:15-19 | On success `data` is the date part and `horario` the hour column of the parsed timestamps, `data_hora_gmt` is gone and every other column is unchanged; it fails exactly as the parse does |
| Features.AddStampColumns | models_create/modelo.py:16-19 | Given the parsed timestamps, `data` becomes their date part and `horario` their hour, `data_hora_gmt` is gone, the table keeps its height and every other column is unchanged |
| Features.DeriveWeekday | simulador_csv.py:22-33 | `dia_de_semana` is the translated weekday of `data`, `data` is gone, every other column is unchanged |
| Features.WeekdayColumnSpec | models_create/modelo.py:33-44 | Each date gets the Portuguese name of its own weekday; only a missing date gets none |
| Features.DerivedFeatureValues | models_create/modelo.py:15-18 | Row by row: hour in 0..23 and Portuguese weekday of the parsed timestamp, both missing where it is |
| Training.Preprocess | models_create/modelo.py:14-45 | De-duplicates (no identical rows, every row represented), then fails iff the parse fails or `risco_fogo` is absent; otherwise `horario`, `dia_de_semana` and `risco_fogo_binned` are derived from the de-duplicated rows |
| Training.DeriveFeatures | models_create/modelo.py:15-45 | The derived columns as above, `data_hora_gmt`, `data` and `risco_fogo` removed, every other column unchanged |
| Training.BinAndWeekday | models_create/modelo.py:22-45 | Fails with KeyError iff `risco_fogo` is absent; otherwise `risco_fogo_binned` is its binning, `dia_de_semana` the Portuguese weekday of `data`, `risco_fogo` and `data` are gone and every other column is unchanged |
| Training.BinRisk | models_create/modelo.py:26-32 | `risco_fogo_binned` is the binning of `risco_fogo`, which is then removed; KeyError when it is absent |
| Training.PartitionSpec | models_create/modelo.py:48-51 | The training rows are the sampled rows in sample order, the validation rows the others in table order, and every row position is in exactly one part |
| Simulator.RunCsv | simulador_csv.py:15-46 | Fails exactly as the timestamp parse does; otherwise the features are derived as in training, `prediction_label` and `prediction_score` hold the classifier's labels and scores, every other column is unchanged, and the distribution is that of the labels |
| Simulator.DeriveCsvFeatures | simulador_csv.py:15-33 | Fails exactly as the timestamp parse does; otherwise `horario` and the Portuguese `dia_de_semana` come from the parsed timestamps, `data_hora_gmt` and `data` are gone and every other column is unchanged |
| Simulator.Predict | simulador_csv.py:39-46 | `prediction_label` holds the classifier's labels row by row and `prediction_score` the score of each label; every other column and the height are unchanged, and the distribution is that of the labels |
| Simulator.DistributionSpec | simulador_csv.py:46 | One entry per distinct predicted label, labels ascending, counts exact and positive, summing to the number of rows |
| Chat.Session.EnsureHistory | app_assistente_ia.py:11-12 | The history is created empty only when absent; an existing history is kept |
| Chat.Session.Submit | app_assistente_ia.py:18-33 | A click with a non-empty question appends the user's question and then the reply; otherwise the history is unchanged |
| Chat.Turns | app2.py:419-432 | A click with a non-empty question yields exactly [user: question, assistant: reply]; anything else yields nothing |
| Chat.ReplayAppendOnly | app_assistente_ia.py:18-33 | Over any run of submissions the old history stays a prefix, the history grows by exactly two per answered submission, and the new entries alternate user/assistant with the fixed reply |
| Chat.Speaker | app_assistente_ia.py:36-40 | An entry is labelled "Você" iff its role is "user", otherwise "Assistente" |
| Chat.Transcript | app2.py:435-439 | One displayed line per entry, in history order, with its speaker and content |
| Chat.TranscriptAppend | app_assistente_ia.py:36-40 | Displaying a longer history shows the earlier lines first, unchanged |
| Chat.Session.Display | app_assistente_ia.py:36-40 | The display loop produces the transcript of the history |
| Chat.Session.Render | app_assistente_ia.py:7-40 | One rerun: the history (created if absent) gains the submission's turns, and the display shows all of it |
| Events.SelectMask | pages/1_Descritiva.py:22 | Row k is selected iff its type is among the chosen types and its date lies in the period, bounds included; a missing date never does |
| Events.FilterEventsSpec | pages/1_Descritiva.py:21-23 | An event is shown iff it is in the table and selected; shown events keep table order |
| Events.DefaultSelection | pages/1_Descritiva.py:18-19 | With all types and the period from the earliest to the latest date, exactly the dated events are shown, so all of them when every date is present |
| Events.Earliest | pages/1_Descritiva.py:19 | The earliest date is present and bounds all dates from below |
| Events.PageMetrics | pages/1_Descritiva.py:26-29 | "Eventos" is the number of events shown |
| Events.Truncate | pages/1_Descritiva.py:28-29 | `int()` truncates toward zero |
| Events.TotalSplit | pages/1_Descritiva.py:29 | The victims (or area) of the shown events plus those of the hidden ones equal the table's total |
| Events.TotalMonotone | pages/1_Descritiva.py:29 | With non-negative victim counts, the shown total lies between 0 and the table's total |
| Events.PerDaySpec | pages/1_Descritiva.py:33 | One entry per distinct date and no other (no zero-filled days), days ascending, counts exact and positive, summing to the number of rows |
| Events.EventsPerDaySpec | pages/1_Descritiva.py:33 | The per-day counts of the view sum to the number of events shown |

## Findings

| source | as written | input that shows it | evidently intended | confidence | as-written member | corrected member |
|---|---|---|---|---|---|---|
| app_analise_preditiva.py:127-129 | `dia_de_semana` is `calendar.day_name[...]`, the English name of the weekday of 2025-06-06 | any prediction request, e.g. hour 12: the row carries "Friday" | the Portuguese name the training table uses (models_create/modelo.py:33-44): "Sexta-feira" | medium (the classifier's handling of an unseen category is outside the model); not executed | Prediction.AsWrittenWeekdayIsUntrained | Prediction.CorrectedRowSpec |

`Prediction.FeatureRowAsWritten` models the row as the script builds it.
`Prediction.FeatureRowCorrected` translates the weekday, and
`Prediction.PredictionInput` uses the corrected row.

## Left out

- Out of scope:
  - Streamlit widgets, layout, tabs, `st.metric` formatting and the HTML card markup.
  - plotly and pydeck charts, including the map centre.
  - `@st.cache_data` memoisation.
  - CSV reading, CSV type inference and the CSV export.
- The classifier is a parameter, not part of the model. That covers pycaret/pickle loading and prediction
  (`predict_model`, `predict_proba`, `setup`, `compare_models`, `tune_model`, `save_model`). The
  prediction is represented by its output: each row's label and score (`predict_model` of pycaret 3
  appends `prediction_label`, then `prediction_score`), or the class probabilities.
- The OpenAI client calls and the other wiring files are left out. They are network clients or
  duplicates of the modelled logic.
- `df.sample` randomness: the chosen positions are a parameter. The sample size `round(0.95 * n)` is not
  modelled.
- Loader: `pd.to_datetime(dayfirst=True, errors="coerce")` is the `parse` parameter. Its permissive
  format guessing is not modelled.
- Loader, dashboard: lower-casing is ASCII only. Python's full Unicode `str.lower` is not modelled.
- A label that occurs twice in a table is read as its first column. pandas would return a sub-table
  there.
- Indicators.NumericMean: the float means of `dias_sem_chuva` and `risco` are modelled as a sum and
  count over `real`, with no division or rounding. Text cells in those columns are skipped; pandas would
  raise on them.
- Indicators.DailySeries: pandas compares `datetime.date` keys against a `DatetimeIndex` in `reindex`,
  and that behaviour depends on the pandas version. The intended matching by calendar day is modelled.
- Indicators.ValueCounts: the tie order of `value_counts` is not modelled (ties keep first appearance),
  and neither are the version-dependent column names after `reset_index`.
- Dashboard.Options: only text cells are listed. A column mixing text and numbers would make `sorted`
  raise.
- Dashboard.RecordsSpec: a missing `dias_sem_chuva` or `risco` column is reported even when the view is
  empty; the page would only fail on reading it.
- Dashboard: the period widget returning a single date while the user is picking is not modelled. The
  view always gets a (start, end) pair.
- Prediction.SliderDefault: the median default of the corresponding slider in app2.py is not modelled.
  The float division before `int()` is exact here.
- Prediction.PredictedClass: ties between equal probabilities pick the first class. `sort_values` does
  not promise any order for ties.
- Prediction.PredictedClass: the empty probability table cannot come from a fitted classifier. The
  IndexError that `iloc[0]` would raise there is modelled as `None`.
- The second prediction form of app2.py is not modelled beyond its choice of class. That form sends
  `dias_sem_chuva`, `hora` and `umidade_relativa` to a pickled model.
- Timestamps.ReadFields: only ASCII digits and ASCII whitespace are accepted. The format's regular
  expression also accepts other Unicode digits and spaces.
- Timestamps.InBounds: bounds are whole seconds. The nanosecond limits of a timestamp cannot matter for
  minute-resolution values.
- Risk.BinIndex: bin edges are exact reals. The float64 values of 0.3, 0.6 and 0.8 are not modelled.
- Risk.BinCell: a non-numeric `risco_fogo` cell is given no label; `pd.cut` would raise.
- Events.PageMetrics: the area and victim sums are exact sums of reals. The float64 rounding of
  `Series.sum()` is not modelled, so where the float sum falls just below an integer the exact sum
  reaches, the page shows one less than `Truncate(Total(..))`; `TotalSplit` holds for exact sums only.
- Events: dates are whole days. The comparison of a `datetime64` column with `datetime.date` bounds is
  version-dependent in pandas, and the intended comparison by day is modelled. The map's mean latitude
  and longitude are not modelled.
