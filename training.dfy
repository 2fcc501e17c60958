/** The preprocessing of models_create/modelo.py, up to the point where the
    table is handed to the classifier library: de-duplication, timestamp
    features, risk binning, weekday feature, and the train/validation
    partition. */
module Training {
  import opened Wrappers
  import opened Sequences
  import opened Frames
  import opened Timestamps
  import opened Risk
  import opened Features

  /** Lines 26-32: `risco_fogo_binned` from `risco_fogo`, which is then dropped. */
  method BinRisk(df0: Frame) returns (r: Result<Frame, PipelineError>)
    requires Valid(df0)
    ensures r.Err? <==> ColumnOf(df0, "risco_fogo").None?
    ensures r.Err? ==> r.error == MissingColumn("risco_fogo")
    ensures r.Ok? ==> Valid(r.value) && r.value.height == df0.height
    ensures r.Ok? ==> ColumnOf(r.value, "risco_fogo") == None
    ensures r.Ok? ==> ColumnOf(r.value, "risco_fogo_binned") == Some(BinColumn(ColumnOf(df0, "risco_fogo").value))
    ensures r.Ok? ==> forall n :: n != "risco_fogo" && n != "risco_fogo_binned" ==> ColumnOf(r.value, n) == ColumnOf(df0, n)
  {
    var risco := ColumnOf(df0, "risco_fogo");
    if risco.None? {
      return Err(MissingColumn("risco_fogo"));
    }
    LookupValid(df0, "risco_fogo");
    var binned := BinColumn(risco.value);
    var df1 := WithColumn(df0, "risco_fogo_binned", binned);
    WithColumnLookup(df0, "risco_fogo_binned", binned);
    var df2 := Drop(df1, "risco_fogo");
    DropLookup(df1, "risco_fogo");
    return Ok(df2);
  }

  /** Lines 22-45, on the table with the timestamp features: the binned
      risk, then the weekday of `data`, which is dropped. */
  method BinAndWeekday(df1: Frame) returns (r: Result<Frame, PipelineError>)
    requires Valid(df1) && ColumnOf(df1, "data").Some?
    ensures r.Err? <==> ColumnOf(df1, "risco_fogo").None?
    ensures r.Err? ==> r.error == MissingColumn("risco_fogo")
    ensures r.Ok? ==> Valid(r.value) && r.value.height == df1.height
    ensures r.Ok? ==> ColumnOf(r.value, "risco_fogo_binned") == Some(BinColumn(ColumnOf(df1, "risco_fogo").value))
    ensures r.Ok? ==> ColumnOf(r.value, "dia_de_semana") == Some(WeekdayColumn(ColumnOf(df1, "data").value))
    ensures r.Ok? ==> ColumnOf(r.value, "risco_fogo") == None && ColumnOf(r.value, "data") == None
    ensures r.Ok? ==> forall n :: n != "risco_fogo" && n != "risco_fogo_binned" && n != "data" && n != "dia_de_semana" ==>
              ColumnOf(r.value, n) == ColumnOf(df1, n)
  {
    var binned := BinRisk(df1);
    if binned.Err? {
      return Err(binned.error);
    }
    var out := DeriveWeekday(binned.value);
    return Ok(out);
  }

  /** Lines 15-45, after de-duplication: the features of `df`, or the
      exception the script stops with. */
  method DeriveFeatures(df: Frame) returns (r: Result<Frame, PipelineError>)
    requires Valid(df)
    ensures r.Err? <==> ParsedStamps(df).Err? || ColumnOf(df, "risco_fogo").None?
    ensures ParsedStamps(df).Err? ==> r == Err(ParsedStamps(df).error)
    ensures ParsedStamps(df).Ok? && ColumnOf(df, "risco_fogo").None? ==> r == Err(MissingColumn("risco_fogo"))
    ensures r.Ok? ==> Valid(r.value) && r.value.height == df.height
    ensures r.Ok? ==> ColumnOf(r.value, "horario") == Some(HorarioColumn(ParsedStamps(df).value))
    ensures r.Ok? ==> ColumnOf(r.value, "dia_de_semana") == Some(WeekdayColumn(DatePartColumn(ParsedStamps(df).value)))
    ensures r.Ok? ==> ColumnOf(r.value, "risco_fogo_binned") == Some(BinColumn(ColumnOf(df, "risco_fogo").value))
    ensures r.Ok? ==> ColumnOf(r.value, "data_hora_gmt") == None && ColumnOf(r.value, "data") == None
    ensures r.Ok? ==> ColumnOf(r.value, "risco_fogo") == None
    ensures r.Ok? ==> forall n ::
              n != "data_hora_gmt" && n != "data" && n != "horario" && n != "risco_fogo" && n != "risco_fogo_binned" && n != "dia_de_semana" ==>
                ColumnOf(r.value, n) == ColumnOf(df, n)
  {
    var step := DeriveTimestampFeatures(df);
    if step.Err? {
      return Err(step.error);
    }
    var out := BinAndWeekday(step.value);
    return out;
  }

  /** Lines 14-45: `drop_duplicates`, then the features. `dedup` is the
      de-duplicated table the rest of the script works on. */
  method Preprocess(raw: Frame) returns (dedup: Frame, r: Result<Frame, PipelineError>)
    requires Valid(raw)
    ensures dedup == DropDuplicates(raw)
    ensures Valid(dedup) && Header(dedup) == Header(raw)
    ensures Distinct(Rows(dedup)) && forall row :: row in Rows(raw) <==> row in Rows(dedup)
    ensures r.Err? <==> ParsedStamps(dedup).Err? || ColumnOf(dedup, "risco_fogo").None?
    ensures r.Ok? ==> Valid(r.value) && r.value.height == dedup.height
    ensures r.Ok? ==> ColumnOf(r.value, "horario") == Some(HorarioColumn(ParsedStamps(dedup).value))
    ensures r.Ok? ==> ColumnOf(r.value, "dia_de_semana") == Some(WeekdayColumn(DatePartColumn(ParsedStamps(dedup).value)))
    ensures r.Ok? ==> ColumnOf(r.value, "risco_fogo_binned") == Some(BinColumn(ColumnOf(dedup, "risco_fogo").value))
  {
    dedup := DropDuplicates(raw);
    DropDuplicatesSpec(raw);
    r := DeriveFeatures(dedup);
  }

  // ---------------------------------------------------------------------------
  // Lines 48-51: the train/validation partition

  /** The rows `df.sample` did not take. */
  function Unsampled(height: nat, sample: seq<nat>): (mask: seq<bool>)
    ensures |mask| == height
    ensures forall k :: 0 <= k < height ==> mask[k] == (k !in sample)
  {
    seq(height, k requires 0 <= k < height => k !in sample)
  }

  /** `df.sample(frac=0.95, random_state=123)` as the positions it picks,
      in the order it picks them (the choice itself is a parameter), and
      `df.drop(df_train_test.index)`: (train, validation). */
  function Partition(df: Frame, sample: seq<nat>): (parts: (Frame, Frame))
    requires Valid(df) && forall j :: 0 <= j < |sample| ==> sample[j] < df.height
  {
    (Gather(df, sample), SelectRows(df, Unsampled(df.height, sample)))
  }

  /** The training rows are the sampled rows in sample order, the validation
      rows are the others in table order, and every row position lies in
      exactly one of the two parts. */
  lemma PartitionSpec(df: Frame, sample: seq<nat>)
    requires Valid(df) && forall j :: 0 <= j < |sample| ==> sample[j] < df.height
    ensures var (train, valid) := Partition(df, sample);
      && Valid(train) && Valid(valid) && Header(train) == Header(df) && Header(valid) == Header(df)
      && train.height == |sample|
      && (forall j :: 0 <= j < |sample| ==> Rows(train)[j] == Rows(df)[sample[j]])
      && valid.height == |Kept(Unsampled(df.height, sample))|
      && (forall j :: 0 <= j < valid.height ==> Rows(valid)[j] == Rows(df)[Kept(Unsampled(df.height, sample))[j]])
      && (forall k :: 0 <= k < df.height ==> (k in sample <==> k !in Kept(Unsampled(df.height, sample))))
  {
    var mask := Unsampled(df.height, sample);
    SelectRowsSpec(df, mask);
    FilterIsKept(Rows(df), mask);
  }
}
