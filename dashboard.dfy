/** The descriptive dashboard (`render` in app_analise_descritiva.py and the
    first tab of app2.py): option lists for the sidebar, the filter mask, the
    KPIs, the 30-day series and the top-5 municipalities, computed on the
    rows of the loaded table. */
module Dashboard {
  import opened Wrappers
  import opened Sequences
  import opened Text
  import opened Frames

  // ---------------------------------------------------------------------------
  // Rows as records

  /** The cells of one loaded row that the dashboard reads; `day` is
      `data_somente` as a day number. */
  datatype Record = Record(estado: Value, municipio: Value, bioma: Value,
                           diasSemChuva: Value, risco: Value, day: int)

  datatype DashboardError =
    | MissingColumn(name: string)  // KeyError on `df[name]`
    | NotADate(row: nat)           // a `data_somente` cell that is not a date

  const UsedColumns: seq<string> := ["estado", "municipio", "bioma", "dias_sem_chuva", "risco", "data_somente"]

  function FirstMissing(f: Frame, names: seq<string>): (r: Option<string>)
    ensures r.None? <==> forall n :: n in names ==> ColumnOf(f, n).Some?
    ensures r.Some? ==> r.value in names && ColumnOf(f, r.value).None?
  {
    if names == [] then None
    else if ColumnOf(f, names[0]).None? then Some(names[0])
    else FirstMissing(f, names[1..])
  }

  function FirstNonDay(cells: seq<Value>, from: nat): (r: Option<nat>)
    requires from <= |cells|
    ensures r.None? <==> forall k :: from <= k < |cells| ==> cells[k].Day?
    ensures r.Some? ==> from <= r.value < |cells| && !cells[r.value].Day?
    decreases |cells| - from
  {
    if from == |cells| then None
    else if !cells[from].Day? then Some(from)
    else FirstNonDay(cells, from + 1)
  }

  /** Zips the six columns the dashboard reads into records. */
  function Zip(estado: seq<Value>, municipio: seq<Value>, bioma: seq<Value>,
               dias: seq<Value>, risco: seq<Value>, days: seq<Value>): (r: Result<seq<Record>, DashboardError>)
    requires |municipio| == |estado| && |bioma| == |estado| && |dias| == |estado|
    requires |risco| == |estado| && |days| == |estado|
    ensures r.Ok? <==> forall k :: 0 <= k < |days| ==> days[k].Day?
    ensures r.Ok? ==> |r.value| == |estado| && forall k :: 0 <= k < |estado| ==>
              r.value[k] == Record(estado[k], municipio[k], bioma[k], dias[k], risco[k], days[k].d)
  {
    match FirstNonDay(days, 0)
    case Some(k) => Err(NotADate(k))
    case None =>
      Ok(seq(|estado|, k requires 0 <= k < |estado| =>
        Record(estado[k], municipio[k], bioma[k], dias[k], risco[k], days[k].d)))
  }

  /** The rows of the loaded table as records: fails when a column the
      dashboard reads is missing or a `data_somente` cell is not a date. */
  function Records(f: Frame): Result<seq<Record>, DashboardError>
    requires Valid(f)
  {
    match FirstMissing(f, UsedColumns)
    case Some(n) => Err(MissingColumn(n))
    case None =>
      assert "estado" in UsedColumns && "municipio" in UsedColumns && "bioma" in UsedColumns;
      assert "dias_sem_chuva" in UsedColumns && "risco" in UsedColumns && "data_somente" in UsedColumns;
      LookupValid(f, "estado");
      LookupValid(f, "municipio");
      LookupValid(f, "bioma");
      LookupValid(f, "dias_sem_chuva");
      LookupValid(f, "risco");
      LookupValid(f, "data_somente");
      Zip(ColumnOf(f, "estado").value, ColumnOf(f, "municipio").value, ColumnOf(f, "bioma").value,
          ColumnOf(f, "dias_sem_chuva").value, ColumnOf(f, "risco").value, ColumnOf(f, "data_somente").value)
  }

  /** Records succeed exactly when the six columns exist and every
      `data_somente` cell is a date; record `k` then holds row `k`'s cells. */
  lemma RecordsSpec(f: Frame)
    requires Valid(f)
    ensures Records(f).Ok? <==> (forall n :: n in UsedColumns ==> ColumnOf(f, n).Some?)
                                 && forall k :: 0 <= k < f.height ==> CellAt(f, "data_somente", k).Day?
    ensures Records(f).Ok? ==> |Records(f).value| == f.height && forall k :: 0 <= k < f.height ==>
              Records(f).value[k] == Record(CellAt(f, "estado", k), CellAt(f, "municipio", k),
                                            CellAt(f, "bioma", k), CellAt(f, "dias_sem_chuva", k),
                                            CellAt(f, "risco", k), CellAt(f, "data_somente", k).d)
  {
    if FirstMissing(f, UsedColumns).None? {
      assert "estado" in UsedColumns && "municipio" in UsedColumns && "bioma" in UsedColumns;
      assert "dias_sem_chuva" in UsedColumns && "risco" in UsedColumns && "data_somente" in UsedColumns;
      CellAtColumn(f, "estado");
      CellAtColumn(f, "municipio");
      CellAtColumn(f, "bioma");
      CellAtColumn(f, "dias_sem_chuva");
      CellAtColumn(f, "risco");
      CellAtColumn(f, "data_somente");
      assert Records(f) == Zip(ColumnOf(f, "estado").value, ColumnOf(f, "municipio").value, ColumnOf(f, "bioma").value,
                               ColumnOf(f, "dias_sem_chuva").value, ColumnOf(f, "risco").value,
                               ColumnOf(f, "data_somente").value);
    }
  }

  // ---------------------------------------------------------------------------
  // Sidebar option lists

  /** The selector value that imposes no constraint. */
  const Todos: string := "Todos"

  /** The texts among `cells`, in order (`dropna`, with text cells only). */
  function TextsOf(cells: seq<Value>): (r: seq<string>)
    ensures forall x :: x in r <==> Text(x) in cells
    decreases |cells|
  {
    if cells == [] then []
    else (if cells[0].Text? then [cells[0].s] else []) + TextsOf(cells[1..])
  }

  /** `sorted(column.dropna().unique())`. */
  function Options(cells: seq<Value>): (r: seq<string>)
    ensures StrictlySorted(r, LexLess) && Distinct(r)
    ensures forall x :: x in r <==> Text(x) in cells
  {
    LexIsStrictTotalOrder();
    var r := SortedUnique(TextsOf(cells), LexLess);
    StrictlySortedIsDistinct(r, LexLess);
    r
  }

  function EstadoOptions(rows: seq<Record>): seq<string> {
    Options(seq(|rows|, k requires 0 <= k < |rows| => rows[k].estado))
  }

  function BiomaOptions(rows: seq<Record>): seq<string> {
    Options(seq(|rows|, k requires 0 <= k < |rows| => rows[k].bioma))
  }

  /** A cell passes one selector: "Todos" imposes nothing, any other choice
      must equal the cell's text. */
  predicate Selects(choice: string, cell: Value) {
    choice == Todos || cell == Text(choice)
  }

  /** The municipality options: those of the chosen state's rows, or of all
      rows when the state selector is "Todos". */
  function MunicipioOptions(rows: seq<Record>, estado: string): seq<string> {
    var inState := Filter(rows, seq(|rows|, k requires 0 <= k < |rows| => Selects(estado, rows[k].estado)));
    Options(seq(|inState|, k requires 0 <= k < |inState| => inState[k].municipio))
  }

  /** The state and biome lists are sorted, duplicate-free and hold exactly
      the texts that occur in their column. */
  lemma StaticOptionsSpec(rows: seq<Record>)
    ensures StrictlySorted(EstadoOptions(rows), LexLess) && Distinct(EstadoOptions(rows))
    ensures StrictlySorted(BiomaOptions(rows), LexLess) && Distinct(BiomaOptions(rows))
    ensures forall x :: x in EstadoOptions(rows) <==> exists k :: 0 <= k < |rows| && rows[k].estado == Text(x)
    ensures forall x :: x in BiomaOptions(rows) <==> exists k :: 0 <= k < |rows| && rows[k].bioma == Text(x)
  {
    var es := seq(|rows|, k requires 0 <= k < |rows| => rows[k].estado);
    var bs := seq(|rows|, k requires 0 <= k < |rows| => rows[k].bioma);
    forall x ensures Text(x) in es <==> exists k :: 0 <= k < |rows| && rows[k].estado == Text(x) {
      if Text(x) in es {
        var k :| 0 <= k < |es| && es[k] == Text(x);
        assert rows[k].estado == Text(x);
      }
      if exists k :: 0 <= k < |rows| && rows[k].estado == Text(x) {
        var k :| 0 <= k < |rows| && rows[k].estado == Text(x);
        assert es[k] == Text(x);
      }
    }
    forall x ensures Text(x) in bs <==> exists k :: 0 <= k < |rows| && rows[k].bioma == Text(x) {
      if Text(x) in bs {
        var k :| 0 <= k < |bs| && bs[k] == Text(x);
        assert rows[k].bioma == Text(x);
      }
      if exists k :: 0 <= k < |rows| && rows[k].bioma == Text(x) {
        var k :| 0 <= k < |rows| && rows[k].bioma == Text(x);
        assert bs[k] == Text(x);
      }
    }
  }

  /** The municipality list is sorted and duplicate-free and holds exactly
      the municipalities of the rows in the chosen state (of all rows for
      "Todos"). */
  lemma MunicipioOptionsSpec(rows: seq<Record>, estado: string)
    ensures StrictlySorted(MunicipioOptions(rows, estado), LexLess) && Distinct(MunicipioOptions(rows, estado))
    ensures forall x :: x in MunicipioOptions(rows, estado) <==>
              exists k :: 0 <= k < |rows| && Selects(estado, rows[k].estado) && rows[k].municipio == Text(x)
  {
    var mask := seq(|rows|, k requires 0 <= k < |rows| => Selects(estado, rows[k].estado));
    var inState := Filter(rows, mask);
    var ms := seq(|inState|, k requires 0 <= k < |inState| => inState[k].municipio);
    forall x ensures Text(x) in ms <==> exists k :: 0 <= k < |rows| && Selects(estado, rows[k].estado) && rows[k].municipio == Text(x) {
      if Text(x) in ms {
        var j :| 0 <= j < |ms| && ms[j] == Text(x);
        FilterMember(rows, mask, inState[j]);
        var k :| 0 <= k < |rows| && mask[k] && rows[k] == inState[j];
        assert Selects(estado, rows[k].estado) && rows[k].municipio == Text(x);
      }
      if exists k :: 0 <= k < |rows| && Selects(estado, rows[k].estado) && rows[k].municipio == Text(x) {
        var k :| 0 <= k < |rows| && Selects(estado, rows[k].estado) && rows[k].municipio == Text(x);
        FilterMember(rows, mask, rows[k]);
        var j :| 0 <= j < |inState| && inState[j] == rows[k];
        assert ms[j] == Text(x);
      }
    }
  }

  // ---------------------------------------------------------------------------
  // The filter mask and the filtered view

  /** The sidebar choices: three selectors and the period `[inicio, fim]`. */
  datatype Criteria = Criteria(estado: string, municipio: string, bioma: string, inicio: int, fim: int)

  /** A row passes every non-"Todos" selector and lies in the period, both
      ends included. */
  predicate Matches(c: Criteria, r: Record) {
    && Selects(c.estado, r.estado)
    && Selects(c.municipio, r.municipio)
    && Selects(c.bioma, r.bioma)
    && c.inicio <= r.day <= c.fim
  }

  function MatchMask(rows: seq<Record>, c: Criteria): (mask: seq<bool>)
    ensures |mask| == |rows|
  {
    seq(|rows|, k requires 0 <= k < |rows| => Matches(c, rows[k]))
  }

  /** The mask as the script builds it: all true, then one `&=` per
      non-"Todos" selector, then one for the period. */
  method BuildMask(rows: seq<Record>, c: Criteria) returns (mask: seq<bool>)
    ensures |mask| == |rows|
    ensures forall k :: 0 <= k < |rows| ==> mask[k] == Matches(c, rows[k])
  {
    mask := seq(|rows|, k => true);
    if c.estado != Todos {
      mask := seq(|rows|, k requires 0 <= k < |rows| => mask[k] && rows[k].estado == Text(c.estado));
    }
    if c.municipio != Todos {
      mask := seq(|rows|, k requires 0 <= k < |rows| => mask[k] && rows[k].municipio == Text(c.municipio));
    }
    if c.bioma != Todos {
      mask := seq(|rows|, k requires 0 <= k < |rows| => mask[k] && rows[k].bioma == Text(c.bioma));
    }
    mask := seq(|rows|, k requires 0 <= k < |rows| => mask[k] && (c.inicio <= rows[k].day && rows[k].day <= c.fim));
  }

  /** `df[mask]`. */
  function View(rows: seq<Record>, c: Criteria): seq<Record> {
    Filter(rows, MatchMask(rows, c))
  }

  /** A row is in the view exactly when it is a row of the table that
      matches the criteria. */
  lemma ViewMembership(rows: seq<Record>, c: Criteria, r: Record)
    ensures r in View(rows, c) <==> r in rows && Matches(c, r)
  {
    FilterMember(rows, MatchMask(rows, c), r);
  }

  /** The view lists the matching rows in table order: entry `j` is row
      `Kept(mask)[j]`, whose positions strictly increase. */
  lemma ViewOrder(rows: seq<Record>, c: Criteria)
    ensures var idx := Kept(MatchMask(rows, c));
            |View(rows, c)| == |idx|
            && (forall j :: 0 <= j < |idx| ==> idx[j] < |rows| && View(rows, c)[j] == rows[idx[j]] && Matches(c, rows[idx[j]]))
            && (forall j, k :: 0 <= j < k < |idx| ==> idx[j] < idx[k])
            && (forall i :: 0 <= i < |rows| && Matches(c, rows[i]) ==> i in idx)
  {
    FilterIsKept(rows, MatchMask(rows, c));
  }

  /** There is no range validation: a reversed period gives an empty view. */
  lemma ReversedPeriodIsEmpty(rows: seq<Record>, c: Criteria)
    requires c.inicio > c.fim
    ensures View(rows, c) == []
  {
    FilterNone(rows, MatchMask(rows, c));
  }

  /** With every selector on "Todos" and a period covering every row, the
      view is the whole table. */
  lemma AllTodosKeepsEverything(rows: seq<Record>, c: Criteria)
    requires c.estado == Todos && c.municipio == Todos && c.bioma == Todos
    requires forall k :: 0 <= k < |rows| ==> c.inicio <= rows[k].day <= c.fim
    ensures View(rows, c) == rows
  {
    FilterAll(rows, MatchMask(rows, c));
  }

  /** `fine` asks at least as much as `coarse`: each selector is the same or
      was "Todos" in `coarse`, and its period lies inside `coarse`'s. */
  predicate Narrows(fine: Criteria, coarse: Criteria) {
    && (coarse.estado == Todos || fine.estado == coarse.estado)
    && (coarse.municipio == Todos || fine.municipio == coarse.municipio)
    && (coarse.bioma == Todos || fine.bioma == coarse.bioma)
    && coarse.inicio <= fine.inicio && fine.fim <= coarse.fim
  }

  /** Choosing a value where "Todos" was, or shrinking the period, never
      enlarges the view. */
  lemma NarrowingNeverEnlarges(rows: seq<Record>, fine: Criteria, coarse: Criteria)
    requires Narrows(fine, coarse)
    ensures |View(rows, fine)| <= |View(rows, coarse)|
    ensures forall r :: r in View(rows, fine) ==> r in View(rows, coarse)
  {
    FilterMonotone(rows, MatchMask(rows, fine), MatchMask(rows, coarse));
  }
}
