/** The feature derivation shared, line for line, by the training script
    (models_create/modelo.py) and the CSV simulator (simulador_csv.py):
    strict timestamp parse, date and hour columns, and the Portuguese
    weekday name. */
module Features {
  import opened Wrappers
  import opened Calendar
  import opened Frames
  import opened Timestamps

  /** The exceptions these steps raise: a missing column (KeyError) and a
      value the strict parse refuses (ValueError), with its row. */
  datatype PipelineError = MissingColumn(name: string) | BadTimestamp(row: nat, error: CellError)

  /** `.dt.date`: the date of a timestamp; missing stays missing. */
  function DatePartColumn(values: seq<Value>): (r: seq<Value>)
    ensures |r| == |values|
    ensures forall k :: 0 <= k < |values| ==> r[k] == if values[k].Stamp? then Day(values[k].t.day) else Null
  {
    seq(|values|, k requires 0 <= k < |values| => if values[k].Stamp? then Day(values[k].t.day) else Null)
  }

  /** `pd.to_datetime(dates).dt.day_name()`: English weekday names. */
  function DayNameColumn(values: seq<Value>): (r: seq<Value>)
    ensures |r| == |values|
    ensures forall k :: 0 <= k < |values| ==> r[k] == if values[k].Day? then Text(DayName(values[k].d)) else Null
  {
    seq(|values|, k requires 0 <= k < |values| => if values[k].Day? then Text(DayName(values[k].d)) else Null)
  }

  /** `Series.map(dia_semana_portugues)` on one cell: a name missing from
      the table, or a missing value, becomes NaN. */
  function TranslateCell(v: Value): Value {
    if v.Text? && ToPortuguese(v.s).Some? then Text(ToPortuguese(v.s).value) else Null
  }

  function TranslateColumn(values: seq<Value>): (r: seq<Value>)
    ensures |r| == |values|
    ensures forall k :: 0 <= k < |values| ==> r[k] == TranslateCell(values[k])
  {
    seq(|values|, k requires 0 <= k < |values| => TranslateCell(values[k]))
  }

  /** The Portuguese weekday of each date, the feature the classifier is trained on. */
  function WeekdayColumn(dates: seq<Value>): (r: seq<Value>)
    ensures |r| == |dates|
  {
    TranslateColumn(DayNameColumn(dates))
  }

  /** Every date gets the Portuguese name of its own weekday (the table
      covers all seven English names), and only a missing date gets no name. */
  lemma WeekdayColumnSpec(dates: seq<Value>)
    ensures forall k :: 0 <= k < |dates| && dates[k].Day? ==>
              WeekdayColumn(dates)[k] == Text(PortugueseDayNames[Weekday(dates[k].d)])
    ensures forall k :: 0 <= k < |dates| && !dates[k].Day? ==> WeekdayColumn(dates)[k] == Null
  {
    forall k | 0 <= k < |dates| && dates[k].Day?
      ensures WeekdayColumn(dates)[k] == Text(PortugueseDayNames[Weekday(dates[k].d)])
    {
      DayNameTranslates(dates[k].d);
    }
  }

  /** The parsed timestamps of a frame's `data_hora_gmt`, when it has one
      and every value parses. */
  function ParsedStamps(df: Frame): Result<seq<Value>, PipelineError> {
    var raw := ColumnOf(df, "data_hora_gmt");
    if raw.None? then Err(MissingColumn("data_hora_gmt"))
    else
      var p := ParseStrict(raw.value);
      if p.Err? then Err(BadTimestamp(p.error.0, p.error.1)) else Ok(p.value)
  }

  /** The failure cases of the parse step: a missing column, or the first
      row whose value the strict format refuses. */
  lemma ParsedStampsErrors(df: Frame)
    ensures ParsedStamps(df) == Err(MissingColumn("data_hora_gmt")) <==> "data_hora_gmt" !in Header(df)
    ensures ParsedStamps(df).Err? && "data_hora_gmt" in Header(df) ==>
              exists k :: 0 <= k < |ColumnOf(df, "data_hora_gmt").value| &&
                ParseCell(ColumnOf(df, "data_hora_gmt").value[k]).Err? &&
                ParsedStamps(df) == Err(BadTimestamp(k, ParseCell(ColumnOf(df, "data_hora_gmt").value[k]).error)) &&
                forall j :: 0 <= j < k ==> ParseCell(ColumnOf(df, "data_hora_gmt").value[j]).Ok?
    ensures ParsedStamps(df).Ok? <==>
              "data_hora_gmt" in Header(df) &&
              forall k :: 0 <= k < |ColumnOf(df, "data_hora_gmt").value| ==> ParseCell(ColumnOf(df, "data_hora_gmt").value[k]).Ok?
  {
    LookupFound(df.columns, "data_hora_gmt");
    if "data_hora_gmt" in Header(df) {
      var p := ParseStrict(ColumnOf(df, "data_hora_gmt").value);
      if p.Err? {
        assert ParsedStamps(df) == Err(BadTimestamp(p.error.0, ParseCell(ColumnOf(df, "data_hora_gmt").value[p.error.0]).error));
      }
    }
  }

  /** Row by row, the derived features of a parsed timestamp: `horario` is
      its hour (0-23) and `dia_de_semana` the Portuguese name of its
      weekday; a missing timestamp leaves both missing. */
  lemma DerivedFeatureValues(df: Frame)
    requires ParsedStamps(df).Ok?
    requires forall v :: v in ColumnOf(df, "data_hora_gmt").value && v.Stamp? ==> ValidDateTime(v.t)
    ensures var p := ParsedStamps(df).value;
      forall k :: 0 <= k < |p| ==>
        if p[k].Stamp? then
          && HorarioColumn(p)[k] == Number(Hour(p[k].t) as real) && Hour(p[k].t) < 24
          && WeekdayColumn(DatePartColumn(p))[k] == Text(PortugueseDayNames[Weekday(p[k].t.day)])
        else
          HorarioColumn(p)[k] == Null && WeekdayColumn(DatePartColumn(p))[k] == Null
  {
    var raw := ColumnOf(df, "data_hora_gmt").value;
    var p := ParsedStamps(df).value;
    WeekdayColumnSpec(DatePartColumn(p));
    forall k | 0 <= k < |p|
      ensures p[k].Stamp? ==> HorarioColumn(p)[k] == Number(Hour(p[k].t) as real) && Hour(p[k].t) < 24
      ensures !p[k].Stamp? ==> HorarioColumn(p)[k] == Null
    {
      assert raw[k] in raw;
      HorarioIsHour(p[k]);
    }
  }

  /** Lines 15-19 of both scripts: parse `data_hora_gmt`, derive `data` and
      `horario` from it, then drop it. */
  method DeriveTimestampFeatures(df0: Frame) returns (r: Result<Frame, PipelineError>)
    requires Valid(df0)
    ensures r.Err? <==> ParsedStamps(df0).Err?
    ensures r.Err? ==> r.error == ParsedStamps(df0).error
    ensures r.Ok? ==> Valid(r.value) && r.value.height == df0.height
    ensures r.Ok? ==> ColumnOf(r.value, "data_hora_gmt") == None
    ensures r.Ok? ==> ColumnOf(r.value, "data") == Some(DatePartColumn(ParsedStamps(df0).value))
    ensures r.Ok? ==> ColumnOf(r.value, "horario") == Some(HorarioColumn(ParsedStamps(df0).value))
    ensures r.Ok? ==> forall n :: n != "data_hora_gmt" && n != "data" && n != "horario" ==>
              ColumnOf(r.value, n) == ColumnOf(df0, n)
  {
    var stamps := ParsedStamps(df0);
    if stamps.Err? {
      return Err(stamps.error);
    }
    LookupValid(df0, "data_hora_gmt");
    var df := AddStampColumns(df0, stamps.value);
    return Ok(df);
  }

  /** The assignments that follow a successful parse `p`: the parsed column
      replaces `data_hora_gmt`, `data` and `horario` are derived from it, and
      `data_hora_gmt` is dropped. */
  method AddStampColumns(df0: Frame, p: seq<Value>) returns (df: Frame)
    requires Valid(df0) && |p| == df0.height
    ensures Valid(df) && df.height == df0.height
    ensures ColumnOf(df, "data_hora_gmt") == None
    ensures ColumnOf(df, "data") == Some(DatePartColumn(p))
    ensures ColumnOf(df, "horario") == Some(HorarioColumn(p))
    ensures forall n :: n != "data_hora_gmt" && n != "data" && n != "horario" ==> ColumnOf(df, n) == ColumnOf(df0, n)
  {
    var df1 := WithColumn(df0, "data_hora_gmt", p);
    WithColumnLookup(df0, "data_hora_gmt", p);
    var df2 := WithColumn(df1, "data", DatePartColumn(p));
    WithColumnLookup(df1, "data", DatePartColumn(p));
    var df3 := WithColumn(df2, "horario", HorarioColumn(p));
    WithColumnLookup(df2, "horario", HorarioColumn(p));
    df := Drop(df3, "data_hora_gmt");
    DropLookup(df3, "data_hora_gmt");
    LookupRemoveAll(df3.columns, "data_hora_gmt", "horario");
    LookupRemoveAll(df3.columns, "data_hora_gmt", "data");
    forall n | n != "data_hora_gmt" && n != "data" && n != "horario"
      ensures ColumnOf(df, n) == ColumnOf(df0, n)
    {
      assert ColumnOf(df, n) == ColumnOf(df3, n) == ColumnOf(df2, n) == ColumnOf(df1, n);
    }
  }

  /** The weekday lines of both scripts: `dia_de_semana` from `data`, first
      in English, then translated; then `data` is dropped. */
  method DeriveWeekday(df0: Frame) returns (df: Frame)
    requires Valid(df0) && ColumnOf(df0, "data").Some?
    ensures Valid(df) && df.height == df0.height
    ensures ColumnOf(df, "data") == None
    ensures ColumnOf(df, "dia_de_semana") == Some(WeekdayColumn(ColumnOf(df0, "data").value))
    ensures forall n :: n != "data" && n != "dia_de_semana" ==> ColumnOf(df, n) == ColumnOf(df0, n)
  {
    LookupValid(df0, "data");
    var dates := ColumnOf(df0, "data").value;
    var english := DayNameColumn(dates);
    var df1 := WithColumn(df0, "dia_de_semana", english);
    WithColumnLookup(df0, "dia_de_semana", english);
    var df2 := WithColumn(df1, "dia_de_semana", TranslateColumn(ColumnOf(df1, "dia_de_semana").value));
    WithColumnLookup(df1, "dia_de_semana", TranslateColumn(english));
    df := Drop(df2, "data");
    DropLookup(df2, "data");
  }
}
