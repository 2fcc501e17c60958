/** `load_data`: reads the observations table, detects the timestamp column
    by its name, parses it permissively, renames the fixed columns, drops the
    rows whose timestamp did not parse and derives `data_somente`.
    The same routine appears in app_analise_descritiva.py, app2.py and
    app_analise_preditiva.py. */
module Loader {
  import opened Wrappers
  import opened Sequences
  import opened Text
  import opened Calendar
  import opened Frames

  datatype LoadError =
    | NoDateColumn        // ValueError: no header mentions "data"
    | DuplicateDateLabel  // more than one column ends up labelled "data": `df["data"].dt` fails

  // ---------------------------------------------------------------------------
  // Column detection

  predicate IsDateName(name: string) {
    Contains(Lower(name), "data")
  }

  predicate IsDateTimeName(name: string) {
    Contains(Lower(name), "data") && Contains(Lower(name), "hora")
  }

  /** First position at or after `from` whose name mentions "data" and "hora". */
  function FirstDateTimeFrom(names: seq<string>, from: nat): (r: Option<nat>)
    requires from <= |names|
    ensures r.None? <==> forall j :: from <= j < |names| ==> !IsDateTimeName(names[j])
    ensures r.Some? ==> from <= r.value < |names| && IsDateTimeName(names[r.value])
                        && forall j :: from <= j < r.value ==> !IsDateTimeName(names[j])
    decreases |names| - from
  {
    if from == |names| then None
    else if IsDateTimeName(names[from]) then Some(from)
    else FirstDateTimeFrom(names, from + 1)
  }

  /** First position at or after `from` whose name mentions "data". */
  function FirstDateFrom(names: seq<string>, from: nat): (r: Option<nat>)
    requires from <= |names|
    ensures r.None? <==> forall j :: from <= j < |names| ==> !IsDateName(names[j])
    ensures r.Some? ==> from <= r.value < |names| && IsDateName(names[r.value])
                        && forall j :: from <= j < r.value ==> !IsDateName(names[j])
    decreases |names| - from
  {
    if from == |names| then None
    else if IsDateName(names[from]) then Some(from)
    else FirstDateFrom(names, from + 1)
  }

  /** The column `load_data` picks: the first name mentioning both "data" and
      "hora" if there is one, otherwise the first name mentioning "data". */
  function DateColumn(names: seq<string>): Option<nat> {
    if FirstDateTimeFrom(names, 0).Some? then FirstDateTimeFrom(names, 0) else FirstDateFrom(names, 0)
  }

  /** The detection loop: scans the labels left to right, stops at the first
      "data"+"hora" label, and otherwise remembers the first "data" label. */
  method DetectDateColumn(names: seq<string>) returns (col: Option<nat>)
    ensures col == DateColumn(names)
  {
    col := None;
    var i := 0;
    while i < |names|
      invariant 0 <= i <= |names|
      invariant forall j :: 0 <= j < i ==> !IsDateTimeName(names[j])
      invariant col.None? <==> forall j :: 0 <= j < i ==> !IsDateName(names[j])
      invariant col.Some? ==> col.value < i && IsDateName(names[col.value])
                              && forall j :: 0 <= j < col.value ==> !IsDateName(names[j])
    {
      var lower := Lower(names[i]);
      if Contains(lower, "data") && Contains(lower, "hora") {
        col := Some(i);
        return;
      }
      if col.None? && Contains(lower, "data") {
        col := Some(i);
      }
      i := i + 1;
    }
  }

  /** The detected column is the first "data"+"hora" label when one exists
      (even if a plain "data" label comes earlier), otherwise the first
      "data" label; there is none exactly when no label mentions "data". */
  lemma DateColumnSpec(names: seq<string>)
    ensures DateColumn(names).None? <==> forall j :: 0 <= j < |names| ==> !IsDateName(names[j])
    ensures DateColumn(names).Some? ==> DateColumn(names).value < |names| && IsDateName(names[DateColumn(names).value])
    ensures (exists j :: 0 <= j < |names| && IsDateTimeName(names[j])) ==>
              var i := DateColumn(names).value;
              i < |names| && IsDateTimeName(names[i]) && forall j :: 0 <= j < i ==> !IsDateTimeName(names[j])
    ensures (forall j :: 0 <= j < |names| ==> !IsDateTimeName(names[j])) && DateColumn(names).Some? ==>
              forall j :: 0 <= j < DateColumn(names).value ==> !IsDateName(names[j])
  {
    if FirstDateTimeFrom(names, 0).Some? {
      assert IsDateName(names[FirstDateTimeFrom(names, 0).value]);
    }
  }

  // ---------------------------------------------------------------------------
  // Parsing, renaming, dropping and deriving

  /** `pd.to_datetime(column, dayfirst=True, errors="coerce")`: a missing
      value or one the parser rejects becomes NaT. */
  function ParseColumn(values: seq<Value>, parse: Value -> Option<DateTime>): (r: seq<Value>)
    ensures |r| == |values|
  {
    seq(|values|, k requires 0 <= k < |values| =>
      if values[k] == Null then Null
      else match parse(values[k]) case Some(t) => Stamp(t) case None => Null)
  }

  /** The rename table of `load_data`. */
  function RenameTable(dateName: string): map<string, string> {
    map[dateName := "data", "numero_dias_sem_chuva" := "dias_sem_chuva", "risco_fogo" := "risco"]
  }

  /** True for the rows whose timestamp is present (`dropna(subset=["data"])`). */
  function Present(values: seq<Value>): (mask: seq<bool>)
    ensures |mask| == |values|
  {
    seq(|values|, k requires 0 <= k < |values| => values[k] != Null)
  }

  /** `.dt.date`. */
  function DatesOf(values: seq<Value>): (r: seq<Value>)
    ensures |r| == |values|
  {
    seq(|values|, k requires 0 <= k < |values| =>
      match values[k] case Stamp(t) => Day(DatePart(t)) case _ => Null)
  }

  /** Rows whose detected timestamp parses: the rows `load_data` keeps. */
  function Survivors(dateValues: seq<Value>, parse: Value -> Option<DateTime>): (mask: seq<bool>)
    ensures |mask| == |dateValues|
    ensures forall k :: 0 <= k < |dateValues| ==> mask[k] == (dateValues[k] != Null && parse(dateValues[k]).Some?)
  {
    Present(ParseColumn(dateValues, parse))
  }

  /** The two fixed source labels never mention "data", so the detected
      column is never one of them and the rename table sends it to "data". */
  lemma FixedNamesAreNotDateNames()
    ensures !IsDateName("numero_dias_sem_chuva") && !IsDateName("risco_fogo")
  {
    var a := "numero_dias_sem_chuva";
    var b := "risco_fogo";
    forall i | 0 <= i <= |a| ensures !OccursAt(Lower(a), "data", i) {
      if i + 4 <= |a| {
        assert Lower(a)[i..i + 4][0] == LowerChar(a[i]);
        assert Lower(a)[i..i + 4][1] == LowerChar(a[i + 1]);
      }
    }
    forall i | 0 <= i <= |b| ensures !OccursAt(Lower(b), "data", i) {
      if i + 4 <= |b| {
        assert Lower(b)[i..i + 4][0] == LowerChar(b[i]);
      }
    }
  }

  lemma RenameTableSendsDate(dateName: string)
    requires IsDateName(dateName)
    ensures dateName in RenameTable(dateName) && RenameTable(dateName)[dateName] == "data"
  {
    FixedNamesAreNotDateNames();
  }

  lemma RenamedHasData(f: Frame, dateName: string)
    requires Valid(f) && dateName in Header(f) && IsDateName(dateName)
    ensures Valid(Rename(f, RenameTable(dateName)))
    ensures "data" in Header(Rename(f, RenameTable(dateName)))
  {
    RenameSpec(f, RenameTable(dateName));
    RenameTableSendsDate(dateName);
    var i :| 0 <= i < |f.columns| && Header(f)[i] == dateName;
    assert Header(Rename(f, RenameTable(dateName)))[i] == "data";
  }

  /** Step 1: the detected column replaced by its parsed timestamps. */
  function ParseStep(raw: Frame, name: string, parse: Value -> Option<DateTime>): (f: Frame)
    requires Valid(raw) && name in Header(raw)
    ensures Valid(f) && f.height == raw.height && Header(f) == Header(raw)
  {
    LookupFound(raw.columns, name);
    LookupValid(raw, name);
    WithColumnSpec(raw, name, ParseColumn(ColumnOf(raw, name).value, parse));
    WithColumn(raw, name, ParseColumn(ColumnOf(raw, name).value, parse))
  }

  /** Steps 3 and 4, once exactly one column is labelled "data": drop the
      rows without a timestamp and add the calendar date of the rest. */
  function FinishStep(renamed: Frame): (f: Frame)
    requires Valid(renamed) && "data" in Header(renamed)
  {
    LookupFound(renamed.columns, "data");
    LookupValid(renamed, "data");
    var stamps := ColumnOf(renamed, "data").value;
    SelectRowsValid(renamed, Present(stamps));
    var kept := SelectRows(renamed, Present(stamps));
    LookupFound(kept.columns, "data");
    LookupValid(kept, "data");
    WithColumn(kept, "data_somente", DatesOf(ColumnOf(kept, "data").value))
  }

  /** `load_data` once the label `name` has been detected. */
  function LoadFrom(raw: Frame, name: string, parse: Value -> Option<DateTime>): Result<Frame, LoadError>
    requires Valid(raw) && name in Header(raw) && IsDateName(name)
  {
    var parsed := ParseStep(raw, name, parse);
    var renamed := Rename(parsed, RenameTable(name));
    if Count(Header(renamed), "data") != 1 then Err(DuplicateDateLabel)
    else
      RenamedHasData(parsed, name);
      Ok(FinishStep(renamed))
  }

  /** The whole of `load_data` on an already-read table. */
  function Load(raw: Frame, parse: Value -> Option<DateTime>): Result<Frame, LoadError>
    requires Valid(raw)
  {
    DateColumnSpec(Header(raw));
    match DateColumn(Header(raw))
    case None => Err(NoDateColumn)
    case Some(i) => LoadFrom(raw, Header(raw)[i], parse)
  }

  /** `load_data` as the script runs it: the detection loop, then one
      reassignment of the frame per step. */
  method LoadData(raw: Frame, parse: Value -> Option<DateTime>) returns (r: Result<Frame, LoadError>)
    requires Valid(raw)
    ensures r == Load(raw, parse)
  {
    var col := DetectDateColumn(Header(raw));
    DateColumnSpec(Header(raw));
    if col.None? {
      return Err(NoDateColumn);
    }
    var name := Header(raw)[col.value];
    var df := ParseStep(raw, name, parse);
    RenamedHasData(df, name);
    df := Rename(df, RenameTable(name));
    if Count(Header(df), "data") != 1 {
      return Err(DuplicateDateLabel);
    }
    df := FinishStep(df);
    r := Ok(df);
  }

  // ---------------------------------------------------------------------------
  // What `load_data` guarantees

  /** After the rename, "data" labels exactly one column iff no column other
      than the detected one is renamed to "data". */
  lemma RenamedDataUnique(parsed: Frame, name: string, i: nat)
    requires Valid(parsed) && i < |parsed.columns| && Header(parsed)[i] == name && IsDateName(name)
    ensures Count(Header(Rename(parsed, RenameTable(name))), "data") == 1 <==>
              forall j :: 0 <= j < |parsed.columns| && j != i ==> Renamed(Header(parsed)[j], RenameTable(name)) != "data"
  {
    var renamed := Rename(parsed, RenameTable(name));
    RenameSpec(parsed, RenameTable(name));
    RenameTableSendsDate(name);
    CountOne(Header(renamed), "data", i);
  }

  /** Loading fails for want of a date column exactly when no label mentions "data". */
  lemma NoDateColumnError(raw: Frame, parse: Value -> Option<DateTime>)
    requires Valid(raw)
    ensures Load(raw, parse) == Err(NoDateColumn) <==> forall j :: 0 <= j < |raw.columns| ==> !IsDateName(raw.columns[j].name)
  {
    DateColumnSpec(Header(raw));
    if DateColumn(Header(raw)).Some? {
      var i := DateColumn(Header(raw)).value;
      LoadIsLoadFrom(raw, parse, i);
      LoadFromOk(raw, raw.columns[i].name, parse);
    } else {
      assert forall j :: 0 <= j < |raw.columns| ==> Header(raw)[j] == raw.columns[j].name;
    }
  }

  /** With column `i` detected, `Load` is `LoadFrom` on its label. */
  lemma LoadIsLoadFrom(raw: Frame, parse: Value -> Option<DateTime>, i: nat)
    requires Valid(raw) && DateColumn(Header(raw)) == Some(i)
    ensures i < |raw.columns| && Header(raw)[i] == raw.columns[i].name
    ensures raw.columns[i].name in Header(raw) && IsDateName(raw.columns[i].name)
    ensures Load(raw, parse) == LoadFrom(raw, raw.columns[i].name, parse)
  {
    DateColumnSpec(Header(raw));
  }

  /** `LoadFrom` succeeds exactly when the renamed header has one "data" label. */
  lemma LoadFromOk(raw: Frame, name: string, parse: Value -> Option<DateTime>)
    requires Valid(raw) && name in Header(raw) && IsDateName(name)
    ensures LoadFrom(raw, name, parse).Ok? <==> Count(Header(Rename(ParseStep(raw, name, parse), RenameTable(name))), "data") == 1
    ensures LoadFrom(raw, name, parse) != Err(NoDateColumn)
  {
  }

  /** Once column `i` is detected, loading succeeds exactly when no other
      column is renamed to "data". */
  lemma DuplicateDateLabelError(raw: Frame, parse: Value -> Option<DateTime>, i: nat)
    requires Valid(raw) && DateColumn(Header(raw)) == Some(i)
    ensures i < |raw.columns|
    ensures Load(raw, parse).Ok? <==>
              forall j :: 0 <= j < |raw.columns| && j != i ==>
                Renamed(raw.columns[j].name, RenameTable(raw.columns[i].name)) != "data"
  {
    LoadIsLoadFrom(raw, parse, i);
    var name := raw.columns[i].name;
    LoadFromOk(raw, name, parse);
    var parsed := ParseStep(raw, name, parse);
    assert |parsed.columns| == |raw.columns| by {
      assert |Header(parsed)| == |parsed.columns| && |Header(raw)| == |raw.columns|;
    }
    RenamedDataUnique(parsed, name, i);
    var table := RenameTable(name);
    if forall j :: 0 <= j < |parsed.columns| && j != i ==> Renamed(Header(parsed)[j], table) != "data" {
      forall j | 0 <= j < |raw.columns| && j != i ensures Renamed(raw.columns[j].name, table) != "data" {
        assert Header(parsed)[j] == Header(raw)[j];
      }
    } else {
      var j :| 0 <= j < |parsed.columns| && j != i && Renamed(Header(parsed)[j], table) == "data";
      assert Header(parsed)[j] == Header(raw)[j];
    }
  }

  /** The two ways `load_data` fails: no label mentions "data", or once the
      detected column is renamed more than one column is labelled "data". */
  lemma LoadErrors(raw: Frame, parse: Value -> Option<DateTime>)
    requires Valid(raw)
    ensures Load(raw, parse) == Err(NoDateColumn) <==> forall j :: 0 <= j < |raw.columns| ==> !IsDateName(raw.columns[j].name)
    ensures DateColumn(Header(raw)).Some? ==>
              var i := DateColumn(Header(raw)).value;
              i < |raw.columns| &&
              (Load(raw, parse).Ok? <==>
                 forall j :: 0 <= j < |raw.columns| && j != i ==>
                   Renamed(raw.columns[j].name, RenameTable(raw.columns[i].name)) != "data")
  {
    NoDateColumnError(raw, parse);
    if DateColumn(Header(raw)).Some? {
      DuplicateDateLabelError(raw, parse, DateColumn(Header(raw)).value);
    }
  }

  /** `df[mask]` keeps column `i` as the only "data" column. */
  lemma SelectStepSpec(renamed: Frame, i: nat)
    requires Valid(renamed) && i < |renamed.columns| && renamed.columns[i].name == "data"
    requires forall j :: 0 <= j < |renamed.columns| && j != i ==> renamed.columns[j].name != "data"
    ensures ColumnOf(renamed, "data") == Some(renamed.columns[i].values)
    ensures var kept := SelectRows(renamed, Present(renamed.columns[i].values));
            Valid(kept) && kept.height == |Kept(Present(renamed.columns[i].values))|
            && kept.columns == FilterColumns(renamed.columns, Present(renamed.columns[i].values))
            && ColumnOf(kept, "data") == Some(kept.columns[i].values)
  {
    LookupUnique(renamed.columns, "data", i);
    var mask := Present(renamed.columns[i].values);
    SelectRowsValid(renamed, mask);
    var kept := SelectRows(renamed, mask);
    LookupUnique(kept.columns, "data", i);
  }

  /** Adding `data_somente` leaves the columns before it in place, replacing
      only one that is itself labelled "data_somente"; the only column it may
      append is `data_somente` itself. */
  lemma DerivedColumnShape(kept: Frame, dates: seq<Value>)
    requires Valid(kept) && |dates| == kept.height
    ensures var g := WithColumn(kept, "data_somente", dates);
            Valid(g) && g.height == kept.height && |kept.columns| <= |g.columns| <= |kept.columns| + 1
            && (|g.columns| > |kept.columns| ==> g.columns[|kept.columns|] == Column("data_somente", dates))
            && (forall c :: 0 <= c < |kept.columns| ==> g.columns[c].name == kept.columns[c].name)
            && (forall c :: 0 <= c < |kept.columns| && g.columns[c].name != "data_somente" ==> g.columns[c] == kept.columns[c])
  {
    var g := WithColumn(kept, "data_somente", dates);
    if "data_somente" in Header(kept) {
      assert g.columns == ReplaceAll(kept.columns, "data_somente", dates);
    } else {
      assert g.columns == kept.columns + [Column("data_somente", dates)];
    }
  }

  /** After adding `data_somente`, "data" still reads column `i` and
      `data_somente` reads the dates of it, also when it is appended. */
  lemma DerivedColumnLookups(kept: Frame, i: nat)
    requires Valid(kept) && i < |kept.columns| && kept.columns[i].name == "data"
    requires forall j :: 0 <= j < |kept.columns| && j != i ==> kept.columns[j].name != "data"
    ensures var dates := DatesOf(kept.columns[i].values);
            var g := WithColumn(kept, "data_somente", dates);
            i < |g.columns|
            && ColumnOf(g, "data") == Some(g.columns[i].values)
            && ColumnOf(g, "data_somente") == Some(DatesOf(g.columns[i].values))
            && (|g.columns| > |kept.columns| ==> g.columns[|kept.columns|] == Column("data_somente", DatesOf(g.columns[i].values)))
  {
    var dates := DatesOf(kept.columns[i].values);
    var g := WithColumn(kept, "data_somente", dates);
    DerivedColumnShape(kept, dates);
    WithColumnSpec(kept, "data_somente", dates);
    assert g.columns[i] == kept.columns[i];
    LookupUnique(kept.columns, "data", i);
  }

  /** Dropping the rows without a timestamp and deriving `data_somente`,
      when column `i` is the only one labelled "data". */
  lemma FinishStepSpec(renamed: Frame, i: nat)
    requires Valid(renamed) && i < |renamed.columns| && renamed.columns[i].name == "data"
    requires forall j :: 0 <= j < |renamed.columns| && j != i ==> renamed.columns[j].name != "data"
    ensures "data" in Header(renamed)
    ensures var mask := Present(renamed.columns[i].values);
            var g := FinishStep(renamed);
            Valid(g) && g.height == |Kept(mask)| && |renamed.columns| <= |g.columns| <= |renamed.columns| + 1
            && (forall c :: 0 <= c < |renamed.columns| ==> g.columns[c].name == renamed.columns[c].name)
            && g.columns[i].values == Filter(renamed.columns[i].values, mask)
            && (|g.columns| > |renamed.columns| ==> g.columns[|renamed.columns|] == Column("data_somente", DatesOf(g.columns[i].values)))
            && (forall c :: 0 <= c < |renamed.columns| && g.columns[c].name != "data_somente" ==>
                  g.columns[c].values == Filter(renamed.columns[c].values, mask))
            && ColumnOf(g, "data") == Some(g.columns[i].values)
            && ColumnOf(g, "data_somente") == Some(DatesOf(g.columns[i].values))
  {
    FinishStepStages(renamed, i);
    var mask := Present(renamed.columns[i].values);
    var kept := SelectRows(renamed, mask);
    var dates := DatesOf(kept.columns[i].values);
    DerivedColumnShape(kept, dates);
    DerivedColumnLookups(kept, i);
  }

  /** `FinishStep` as its two stages: the rows with a present date, each
      column filtered in place, then `data_somente` derived from column `i`. */
  lemma FinishStepStages(renamed: Frame, i: nat)
    requires Valid(renamed) && i < |renamed.columns| && renamed.columns[i].name == "data"
    requires forall j :: 0 <= j < |renamed.columns| && j != i ==> renamed.columns[j].name != "data"
    ensures "data" in Header(renamed)
    ensures var mask := Present(renamed.columns[i].values);
            var kept := SelectRows(renamed, mask);
            Valid(kept) && kept.height == |Kept(mask)| && |kept.columns| == |renamed.columns|
            && (forall c :: 0 <= c < |renamed.columns| ==> kept.columns[c] == Column(renamed.columns[c].name, Filter(renamed.columns[c].values, mask)))
            && (forall j :: 0 <= j < |kept.columns| && j != i ==> kept.columns[j].name != "data")
            && FinishStep(renamed) == WithColumn(kept, "data_somente", DatesOf(kept.columns[i].values))
  {
    assert Header(renamed)[i] == "data";
    SelectStepSpec(renamed, i);
  }

  /** `df[name] = pd.to_datetime(...)` touches only column `i` when no other
      column carries its label. */
  lemma ParseStepSpec(raw: Frame, parse: Value -> Option<DateTime>, i: nat)
    requires Valid(raw) && i < |raw.columns|
    requires forall j :: 0 <= j < |raw.columns| && j != i ==> raw.columns[j].name != raw.columns[i].name
    ensures raw.columns[i].name in Header(raw)
    ensures ParseStep(raw, raw.columns[i].name, parse).columns
              == ReplaceAll(raw.columns, raw.columns[i].name, ParseColumn(raw.columns[i].values, parse))
  {
    assert Header(raw)[i] == raw.columns[i].name;
    LookupUnique(raw.columns, raw.columns[i].name, i);
  }

  /** Renaming after the parse step. */
  lemma RenameStepSpec(parsed: Frame, raw: Frame, parse: Value -> Option<DateTime>, i: nat)
    requires Valid(parsed) && i < |raw.columns| && IsDateName(raw.columns[i].name)
    requires forall j :: 0 <= j < |raw.columns| && j != i ==> raw.columns[j].name != raw.columns[i].name
    requires parsed.columns == ReplaceAll(raw.columns, raw.columns[i].name, ParseColumn(raw.columns[i].values, parse))
    ensures var renamed := Rename(parsed, RenameTable(raw.columns[i].name));
            Valid(renamed) && |renamed.columns| == |raw.columns|
            && renamed.columns[i] == Column("data", ParseColumn(raw.columns[i].values, parse))
            && forall c :: 0 <= c < |raw.columns| && c != i ==>
                 renamed.columns[c] == Column(Renamed(raw.columns[c].name, RenameTable(raw.columns[i].name)), raw.columns[c].values)
  {
    RenameTableSendsDate(raw.columns[i].name);
    RenameSpec(parsed, RenameTable(raw.columns[i].name));
  }

  /** Parsing then renaming, when column `i` carries the detected label and
      no other column is renamed to "data". */
  lemma ParseRenameSpec(raw: Frame, parse: Value -> Option<DateTime>, i: nat)
    requires Valid(raw) && i < |raw.columns| && IsDateName(raw.columns[i].name)
    requires forall j :: 0 <= j < |raw.columns| && j != i ==>
               Renamed(raw.columns[j].name, RenameTable(raw.columns[i].name)) != "data"
    ensures raw.columns[i].name in Header(raw)
    ensures var name := raw.columns[i].name;
            var renamed := Rename(ParseStep(raw, name, parse), RenameTable(name));
            Valid(renamed) && |renamed.columns| == |raw.columns|
            && renamed.columns[i] == Column("data", ParseColumn(raw.columns[i].values, parse))
            && forall c :: 0 <= c < |raw.columns| && c != i ==>
                 renamed.columns[c] == Column(Renamed(raw.columns[c].name, RenameTable(name)), raw.columns[c].values)
  {
    RenameTableSendsDate(raw.columns[i].name);
    assert forall j :: 0 <= j < |raw.columns| && j != i ==> raw.columns[j].name != raw.columns[i].name;
    ParseStepSpec(raw, parse, i);
    RenameStepSpec(ParseStep(raw, raw.columns[i].name, parse), raw, parse, i);
  }

  /** The stage facts of `load_data`, chained: what holds of the renamed
      frame and of the final frame gives the statement about the input. */
  lemma ChainStages(raw: Frame, renamed: Frame, g: Frame, parse: Value -> Option<DateTime>, i: nat, mask: seq<bool>)
    requires i < |raw.columns| && |renamed.columns| == |raw.columns|
    requires RenameTable(raw.columns[i].name)[raw.columns[i].name] == "data"
    requires raw.columns[i].name in RenameTable(raw.columns[i].name)
    requires renamed.columns[i] == Column("data", ParseColumn(raw.columns[i].values, parse))
    requires forall c :: 0 <= c < |raw.columns| && c != i ==>
               renamed.columns[c] == Column(Renamed(raw.columns[c].name, RenameTable(raw.columns[i].name)), raw.columns[c].values)
    requires |mask| == |raw.columns[i].values|
    requires |g.columns| >= |renamed.columns|
    requires forall c :: 0 <= c < |renamed.columns| ==> g.columns[c].name == renamed.columns[c].name
    requires g.columns[i].values == Filter(renamed.columns[i].values, mask)
    requires forall c :: 0 <= c < |renamed.columns| && g.columns[c].name != "data_somente" ==>
               |renamed.columns[c].values| == |mask| && g.columns[c].values == Filter(renamed.columns[c].values, mask)
    ensures forall c :: 0 <= c < |raw.columns| ==> g.columns[c].name == Renamed(raw.columns[c].name, RenameTable(raw.columns[i].name))
    ensures g.columns[i].name == "data"
    ensures g.columns[i].values == Filter(ParseColumn(raw.columns[i].values, parse), mask)
    ensures forall c :: 0 <= c < |raw.columns| && c != i && g.columns[c].name != "data_somente" ==>
              |raw.columns[c].values| == |mask| && g.columns[c].values == Filter(raw.columns[c].values, mask)
  {
  }

  /** The renamed frame of a successful load: column `i` is the only one
      labelled "data", its present rows are the survivors, and the result is
      the finishing step applied to it. */
  lemma LoadStages(raw: Frame, parse: Value -> Option<DateTime>, i: nat)
    requires Valid(raw) && DateColumn(Header(raw)) == Some(i) && Load(raw, parse).Ok?
    ensures i < |raw.columns| && raw.columns[i].name in Header(raw) && IsDateName(raw.columns[i].name)
    ensures var name := raw.columns[i].name;
            var renamed := Rename(ParseStep(raw, name, parse), RenameTable(name));
            Valid(renamed) && |renamed.columns| == |raw.columns|
            && renamed.columns[i] == Column("data", ParseColumn(raw.columns[i].values, parse))
            && (forall c :: 0 <= c < |raw.columns| && c != i ==>
                  renamed.columns[c] == Column(Renamed(raw.columns[c].name, RenameTable(name)), raw.columns[c].values))
            && (forall j :: 0 <= j < |renamed.columns| && j != i ==> renamed.columns[j].name != "data")
            && "data" in Header(renamed)
            && Load(raw, parse) == Ok(FinishStep(renamed))
            && Present(renamed.columns[i].values) == Survivors(raw.columns[i].values, parse)
  {
    LoadIsLoadFrom(raw, parse, i);
    DuplicateDateLabelError(raw, parse, i);
    var name := raw.columns[i].name;
    ParseRenameSpec(raw, parse, i);
    var renamed := Rename(ParseStep(raw, name, parse), RenameTable(name));
    assert Header(renamed)[i] == "data";
  }

  /** On success: the rows kept are exactly the input rows whose detected
      timestamp is present and parses, in their original order; every input
      column keeps its position under its renamed label; the detected column
      holds the parsed timestamps, every other column its own values;
      `data_somente` holds the calendar date of each kept timestamp; and at
      most one column is added, which is then `data_somente`. */
  lemma LoadSpec(raw: Frame, parse: Value -> Option<DateTime>, i: nat)
    requires Valid(raw) && DateColumn(Header(raw)) == Some(i) && Load(raw, parse).Ok?
    ensures i < |raw.columns|
    ensures var name := raw.columns[i].name;
            var mask := Survivors(raw.columns[i].values, parse);
            var g := Load(raw, parse).value;
            Valid(g) && g.height == |Kept(mask)| && |raw.columns| <= |g.columns| <= |raw.columns| + 1
            && (|g.columns| > |raw.columns| ==> g.columns[|raw.columns|] == Column("data_somente", DatesOf(g.columns[i].values)))
            && (forall c :: 0 <= c < |raw.columns| ==> g.columns[c].name == Renamed(raw.columns[c].name, RenameTable(name)))
            && g.columns[i].name == "data"
            && g.columns[i].values == Filter(ParseColumn(raw.columns[i].values, parse), mask)
            && (forall c :: 0 <= c < |raw.columns| && c != i && g.columns[c].name != "data_somente" ==>
                  g.columns[c].values == Filter(raw.columns[c].values, mask))
            && ColumnOf(g, "data") == Some(g.columns[i].values)
            && ColumnOf(g, "data_somente") == Some(DatesOf(g.columns[i].values))
  {
    var name := raw.columns[i].name;
    var renamed := Rename(ParseStep(raw, name, parse), RenameTable(name));
    LoadStages(raw, parse, i);
    FinishStepSpec(renamed, i);
    var mask := Survivors(raw.columns[i].values, parse);
    RenameTableSendsDate(name);
    ChainStages(raw, renamed, Load(raw, parse).value, parse, i, mask);
  }
}
