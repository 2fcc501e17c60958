/** The dashboard's indicators on the filtered view: the four KPIs, the
    30-day daily series and the top-5 municipalities. */
module Indicators {
  import opened Wrappers
  import opened Sequences
  import opened Frames
  import opened Dashboard

  // ---------------------------------------------------------------------------
  // KPIs

  /** A column mean kept as its sum and the number of values it averages;
      `Series.mean` skips missing cells. */
  datatype Mean = Mean(sum: real, count: nat)

  function NumericMean(cells: seq<Value>): (m: Mean)
    ensures m.count <= |cells|
    decreases |cells|
  {
    if cells == [] then Mean(0.0, 0)
    else
      var rest := NumericMean(cells[1..]);
      match cells[0]
      case Number(x) => Mean(x + rest.sum, rest.count + 1)
      case _ => rest
  }

  /** The mean averages every cell exactly when no cell is missing or non-numeric. */
  lemma {:induction false} MeanCountsEveryCell(cells: seq<Value>)
    ensures NumericMean(cells).count == |cells| <==> forall k :: 0 <= k < |cells| ==> cells[k].Number?
    decreases |cells|
  {
    if cells != [] {
      assert forall k :: 1 <= k < |cells| ==> cells[k] == cells[1..][k - 1];
      MeanCountsEveryCell(cells[1..]);
    }
  }

  /** When every number is at least `lo`, so is the mean: `lo * count <= sum`. */
  lemma {:induction false} MeanAtLeast(cells: seq<Value>, lo: real)
    requires forall k :: 0 <= k < |cells| && cells[k].Number? ==> lo <= cells[k].x
    ensures lo * (NumericMean(cells).count as real) <= NumericMean(cells).sum
    decreases |cells|
  {
    if cells != [] {
      assert forall k :: 0 <= k < |cells[1..]| ==> cells[1..][k] == cells[k + 1];
      MeanAtLeast(cells[1..], lo);
      var rest := NumericMean(cells[1..]);
      if cells[0].Number? {
        var c := rest.count as real;
        assert NumericMean(cells) == Mean(cells[0].x + rest.sum, rest.count + 1);
        assert (NumericMean(cells).count as real) == c + 1.0;
        assert lo * (c + 1.0) == lo * c + lo;
      } else {
        assert NumericMean(cells) == rest;
      }
    }
  }

  /** When every number is at most `hi`, so is the mean: `sum <= hi * count`. */
  lemma {:induction false} MeanAtMost(cells: seq<Value>, hi: real)
    requires forall k :: 0 <= k < |cells| && cells[k].Number? ==> cells[k].x <= hi
    ensures NumericMean(cells).sum <= hi * (NumericMean(cells).count as real)
    decreases |cells|
  {
    if cells != [] {
      assert forall k :: 0 <= k < |cells[1..]| ==> cells[1..][k] == cells[k + 1];
      MeanAtMost(cells[1..], hi);
      var rest := NumericMean(cells[1..]);
      if cells[0].Number? {
        var c := rest.count as real;
        assert NumericMean(cells) == Mean(cells[0].x + rest.sum, rest.count + 1);
        assert (NumericMean(cells).count as real) == c + 1.0;
        assert hi * (c + 1.0) == hi * c + hi;
      } else {
        assert NumericMean(cells) == rest;
      }
    }
  }

  /** The latest day of a non-empty view. */
  function MaxDay(view: seq<Record>): (d: int)
    requires view != []
    ensures forall k :: 0 <= k < |view| ==> view[k].day <= d
    ensures exists k :: 0 <= k < |view| && view[k].day == d
    decreases |view|
  {
    if |view| == 1 then view[0].day
    else
      var rest := MaxDay(view[1..]);
      assert forall k :: 1 <= k < |view| ==> view[k] == view[1..][k - 1];
      if view[0].day >= rest then view[0].day else rest
  }

  /** The earliest day of a non-empty table. */
  function MinDay(rows: seq<Record>): (d: int)
    requires rows != []
    ensures forall k :: 0 <= k < |rows| ==> d <= rows[k].day
    ensures exists k :: 0 <= k < |rows| && rows[k].day == d
    decreases |rows|
  {
    if |rows| == 1 then rows[0].day
    else
      var rest := MinDay(rows[1..]);
      assert forall k :: 1 <= k < |rows| ==> rows[k] == rows[1..][k - 1];
      if rows[0].day <= rest then rows[0].day else rest
  }

  function DiasOf(view: seq<Record>): seq<Value> {
    seq(|view|, k requires 0 <= k < |view| => view[k].diasSemChuva)
  }

  function RiscoOf(view: seq<Record>): seq<Value> {
    seq(|view|, k requires 0 <= k < |view| => view[k].risco)
  }

  /** The four cards; `None` is the "—" shown for an empty view. */
  datatype Kpis = Kpis(meanDias: Option<Mean>, total: nat, lastDay: Option<int>, meanRisco: Option<Mean>)

  function ComputeKpis(view: seq<Record>): (k: Kpis)
    ensures k.total == |view|
    ensures k.meanDias.None? <==> view == []
    ensures k.lastDay.None? <==> view == []
    ensures k.meanRisco.None? <==> view == []
    ensures k.lastDay.Some? ==> (forall j :: 0 <= j < |view| ==> view[j].day <= k.lastDay.value)
                                && exists j :: 0 <= j < |view| && view[j].day == k.lastDay.value
  {
    if view == [] then Kpis(None, 0, None, None)
    else Kpis(Some(NumericMean(DiasOf(view))), |view|, Some(MaxDay(view)), Some(NumericMean(RiscoOf(view))))
  }

  /** The default period `(min, max)` of `data_somente` with every selector
      on "Todos" shows the whole table. */
  lemma DefaultCriteriaShowAll(rows: seq<Record>)
    requires rows != []
    ensures View(rows, Criteria(Todos, Todos, Todos, MinDay(rows), MaxDay(rows))) == rows
  {
    AllTodosKeepsEverything(rows, Criteria(Todos, Todos, Todos, MinDay(rows), MaxDay(rows)));
  }

  // ---------------------------------------------------------------------------
  // The 30-day series

  /** Rows on day `d` whose `risco` is present: `agg(contagem=("risco", "count"))`. */
  function DayRiskCount(rows: seq<Record>, d: int): (n: nat)
    ensures n <= |rows|
    decreases |rows|
  {
    if rows == [] then 0
    else (if rows[0].day == d && rows[0].risco != Null then 1 else 0) + DayRiskCount(rows[1..], d)
  }

  /** Rows with `lo <= day < hi` whose `risco` is present. */
  function RiskCountBetween(rows: seq<Record>, lo: int, hi: int): (n: nat)
    ensures n <= |rows|
    decreases |rows|
  {
    if rows == [] then 0
    else (if lo <= rows[0].day < hi && rows[0].risco != Null then 1 else 0) + RiskCountBetween(rows[1..], lo, hi)
  }

  /** `n` consecutive days from `lo`, each with its count of rows. */
  function SeriesFrom(rows: seq<Record>, lo: int, n: nat): (s: seq<(int, nat)>)
    ensures |s| == n
  {
    seq(n, k requires 0 <= k < n => (lo + k, DayRiskCount(rows, lo + k)))
  }

  /** First day of the window ending at `fim`: `fim - timedelta(days=29)`. */
  function WindowStart(fim: int): int {
    fim - 29
  }

  /** `df_filtrado[df_filtrado["data_somente"] >= data_inicio_30]`. */
  function Window(view: seq<Record>, fim: int): seq<Record> {
    Filter(view, seq(|view|, k requires 0 <= k < |view| => view[k].day >= WindowStart(fim)))
  }

  /** The grouped counts reindexed over `pd.date_range(fim - 29, fim)` with
      zeros for missing days; absent for an empty view. */
  function DailySeries(view: seq<Record>, fim: int): (s: Option<seq<(int, nat)>>)
    ensures s.None? <==> view == []
    ensures s.Some? ==> |s.value| == 30 && forall k :: 0 <= k < 30 ==> s.value[k].0 == fim - 29 + k
  {
    if view == [] then None else Some(SeriesFrom(Window(view, fim), WindowStart(fim), 30))
  }

  lemma {:induction false} DayRiskCountFilter(rows: seq<Record>, mask: seq<bool>, d: int)
    requires |mask| == |rows|
    requires forall k :: 0 <= k < |rows| && rows[k].day == d ==> mask[k]
    ensures DayRiskCount(Filter(rows, mask), d) == DayRiskCount(rows, d)
    decreases |rows|
  {
    if rows != [] {
      DayRiskCountFilter(rows[1..], mask[1..], d);
      var head := if mask[0] then [rows[0]] else [];
      var tail := Filter(rows[1..], mask[1..]);
      assert Filter(rows, mask) == head + tail;
      if mask[0] {
        assert (head + tail)[0] == rows[0] && (head + tail)[1..] == tail;
      } else {
        assert head + tail == tail;
      }
    }
  }

  lemma {:induction false} RiskCountSplit(rows: seq<Record>, lo: int, hi: int)
    requires lo < hi
    ensures RiskCountBetween(rows, lo, hi) == DayRiskCount(rows, lo) + RiskCountBetween(rows, lo + 1, hi)
    decreases |rows|
  {
    if rows != [] {
      RiskCountSplit(rows[1..], lo, hi);
    }
  }

  lemma {:induction false} SeriesFromSum(rows: seq<Record>, lo: int, n: nat)
    ensures SumOfCounts(SeriesFrom(rows, lo, n)) == RiskCountBetween(rows, lo, lo + n)
    decreases n
  {
    if n == 0 {
      RiskCountEmptyRange(rows, lo);
    } else {
      assert SeriesFrom(rows, lo, n)[1..] == SeriesFrom(rows, lo + 1, n - 1);
      SeriesFromSum(rows, lo + 1, n - 1);
      RiskCountSplit(rows, lo, lo + n);
    }
  }

  lemma {:induction false} RiskCountEmptyRange(rows: seq<Record>, lo: int)
    ensures RiskCountBetween(rows, lo, lo) == 0
    decreases |rows|
  {
    if rows != [] {
      RiskCountEmptyRange(rows[1..], lo);
    }
  }

  /** Each of the 30 entries counts the view's rows on that day with a
      present `risco` (zero on days without rows), and the entries add up
      to the number of such rows in `[fim - 29, fim]`. */
  lemma DailySeriesSpec(view: seq<Record>, fim: int)
    requires view != []
    ensures forall k :: 0 <= k < 30 ==> DailySeries(view, fim).value[k].1 == DayRiskCount(view, fim - 29 + k)
    ensures forall k :: 0 <= k < 30 && (forall j :: 0 <= j < |view| ==> view[j].day != fim - 29 + k) ==>
              DailySeries(view, fim).value[k].1 == 0
    ensures SumOfCounts(DailySeries(view, fim).value) == RiskCountBetween(view, fim - 29, fim + 1)
  {
    var mask := seq(|view|, k requires 0 <= k < |view| => view[k].day >= WindowStart(fim));
    forall d | fim - 29 <= d ensures DayRiskCount(Window(view, fim), d) == DayRiskCount(view, d) {
      DayRiskCountFilter(view, mask, d);
    }
    var s := DailySeries(view, fim).value;
    assert forall k :: 0 <= k < 30 ==> s[k] == SeriesFrom(view, fim - 29, 30)[k];
    assert s == SeriesFrom(view, fim - 29, 30);
    SeriesFromSum(view, fim - 29, 30);
    forall d | forall j :: 0 <= j < |view| ==> view[j].day != d
      ensures DayRiskCount(view, d) == 0
    {
      DayRiskCountAbsent(view, d);
    }
  }

  lemma {:induction false} DayRiskCountAbsent(rows: seq<Record>, d: int)
    requires forall j :: 0 <= j < |rows| ==> rows[j].day != d
    ensures DayRiskCount(rows, d) == 0
    decreases |rows|
  {
    if rows != [] {
      assert forall j :: 0 <= j < |rows[1..]| ==> rows[1..][j] == rows[j + 1];
      DayRiskCountAbsent(rows[1..], d);
    }
  }

  // ---------------------------------------------------------------------------
  // Top-5 municipalities: value_counts().head(5)

  /** The cells that are not missing, in order (`value_counts` skips NaN). */
  function NonNull(cells: seq<Value>): (r: seq<Value>)
    ensures |r| <= |cells|
    ensures forall x :: x in r <==> x in cells && x != Null
    decreases |cells|
  {
    if cells == [] then []
    else (if cells[0] != Null then [cells[0]] else []) + NonNull(cells[1..])
  }

  lemma {:induction false} CountNonNull(cells: seq<Value>, x: Value)
    requires x != Null
    ensures Count(NonNull(cells), x) == Count(cells, x)
    decreases |cells|
  {
    if cells != [] {
      CountNonNull(cells[1..], x);
      var head := if cells[0] != Null then [cells[0]] else [];
      CountAppend(head, NonNull(cells[1..]), x);
    }
  }

  /** Counts never increase along the list. */
  predicate NonIncreasing(s: seq<(Value, nat)>) {
    forall i, j :: 0 <= i < j < |s| ==> s[j].1 <= s[i].1
  }

  /** Where `e` goes: after the leading entries whose count is at least its own. */
  function InsertPoint(e: (Value, nat), s: seq<(Value, nat)>): (p: nat)
    ensures p <= |s|
    ensures forall k :: 0 <= k < p ==> e.1 <= s[k].1
    ensures p < |s| ==> s[p].1 < e.1
    decreases |s|
  {
    if s == [] || s[0].1 < e.1 then 0
    else
      assert forall k :: 1 <= k < |s| ==> s[k] == s[1..][k - 1];
      1 + InsertPoint(e, s[1..])
  }

  /** Places `e` after every entry whose count is at least its own. */
  function InsertByCount(e: (Value, nat), s: seq<(Value, nat)>): (r: seq<(Value, nat)>)
    ensures |r| == |s| + 1
    ensures forall k :: 0 <= k < |r| ==>
              r[k] == if k < InsertPoint(e, s) then s[k] else if k == InsertPoint(e, s) then e else s[k - 1]
  {
    var p := InsertPoint(e, s);
    s[..p] + [e] + s[p..]
  }

  /** Inserting into a list sorted by descending count keeps it sorted,
      adds exactly `e`, keeps distinct entries distinct and adds `e`'s count
      to the total. */
  lemma InsertByCountSpec(e: (Value, nat), s: seq<(Value, nat)>)
    requires NonIncreasing(s)
    ensures NonIncreasing(InsertByCount(e, s))
    ensures forall y :: y in InsertByCount(e, s) <==> y == e || y in s
    ensures Distinct(s) && e !in s ==> Distinct(InsertByCount(e, s))
    ensures SumOfCounts(InsertByCount(e, s)) == e.1 + SumOfCounts(s)
  {
    InsertSorted(e, s);
    InsertMembers(e, s);
    if Distinct(s) && e !in s {
      InsertDistinct(e, s);
    }
    InsertSum(e, s);
  }

  lemma InsertSorted(e: (Value, nat), s: seq<(Value, nat)>)
    requires NonIncreasing(s)
    ensures NonIncreasing(InsertByCount(e, s))
  {
    var p := InsertPoint(e, s);
    var r := InsertByCount(e, s);
    forall i, j | 0 <= i < j < |r| ensures r[j].1 <= r[i].1 {
      if j < p {
      } else if j == p {
      } else if i < p {
        assert r[j] == s[j - 1];
      } else if i == p {
        assert s[j - 1].1 <= s[p].1;
      } else {
        assert r[j] == s[j - 1] && r[i] == s[i - 1];
      }
    }
  }

  lemma InsertMembers(e: (Value, nat), s: seq<(Value, nat)>)
    ensures forall y :: y in InsertByCount(e, s) <==> y == e || y in s
  {
    var p := InsertPoint(e, s);
    assert InsertByCount(e, s) == s[..p] + [e] + s[p..];
    assert s == s[..p] + s[p..];
  }

  lemma InsertDistinct(e: (Value, nat), s: seq<(Value, nat)>)
    requires Distinct(s) && e !in s
    ensures Distinct(InsertByCount(e, s))
  {
    var p := InsertPoint(e, s);
    var r := InsertByCount(e, s);
    forall i, j | 0 <= i < j < |r| ensures r[i] != r[j] {
      if j < p {
      } else if j == p {
        assert r[i] == s[i];
      } else if i < p {
        assert r[j] == s[j - 1];
      } else if i == p {
        assert r[j] == s[j - 1];
      } else {
        assert r[j] == s[j - 1] && r[i] == s[i - 1];
      }
    }
  }

  lemma InsertSum(e: (Value, nat), s: seq<(Value, nat)>)
    ensures SumOfCounts(InsertByCount(e, s)) == e.1 + SumOfCounts(s)
  {
    var p := InsertPoint(e, s);
    assert InsertByCount(e, s) == s[..p] + ([e] + s[p..]);
    assert s == s[..p] + s[p..];
    SumOfCountsAppend(s[..p], [e] + s[p..]);
    SumOfCountsAppend(s[..p], s[p..]);
    assert ([e] + s[p..])[1..] == s[p..];
  }

  lemma {:induction false} SumOfCountsAppend(a: seq<(Value, nat)>, b: seq<(Value, nat)>)
    ensures SumOfCounts(a + b) == SumOfCounts(a) + SumOfCounts(b)
    decreases |a|
  {
    if a == [] {
      assert a + b == b;
    } else {
      assert (a + b)[1..] == a[1..] + b;
      SumOfCountsAppend(a[1..], b);
    }
  }

  /** A stable sort by descending count (ties keep their order). */
  function SortByCount(s: seq<(Value, nat)>): (r: seq<(Value, nat)>)
    ensures |r| == |s|
    decreases |s|
  {
    if s == [] then []
    else InsertByCount(s[|s| - 1], SortByCount(s[..|s| - 1]))
  }

  /** Sorting yields non-increasing counts, the same entries, distinct
      entries from distinct ones, and the same total. */
  lemma {:induction false} SortByCountSpec(s: seq<(Value, nat)>)
    ensures NonIncreasing(SortByCount(s))
    ensures forall y :: y in SortByCount(s) <==> y in s
    ensures Distinct(s) ==> Distinct(SortByCount(s))
    ensures SumOfCounts(SortByCount(s)) == SumOfCounts(s)
    decreases |s|
  {
    if s != [] {
      var init := s[..|s| - 1];
      var last := s[|s| - 1];
      assert s == init + [last];
      SortByCountSpec(init);
      InsertByCountSpec(last, SortByCount(init));
      SumOfCountsSnoc(init, last);
      if Distinct(s) {
        assert last !in init by {
          forall k | 0 <= k < |init| ensures init[k] != last {
            assert init[k] == s[k];
          }
        }
        assert Distinct(init) by {
          forall a, b | 0 <= a < b < |init| ensures init[a] != init[b] {
            assert init[a] == s[a] && init[b] == s[b];
          }
        }
      }
    }
  }

  lemma {:induction false} SumOfCountsSnoc(s: seq<(Value, nat)>, e: (Value, nat))
    ensures SumOfCounts(s + [e]) == SumOfCounts(s) + e.1
    decreases |s|
  {
    if s == [] {
      assert [] + [e] == [e];
    } else {
      assert (s + [e])[1..] == s[1..] + [e];
      SumOfCountsSnoc(s[1..], e);
    }
  }

  lemma {:induction false} SumOfCountsPrefix(s: seq<(Value, nat)>, n: nat)
    requires n <= |s|
    ensures SumOfCounts(s[..n]) <= SumOfCounts(s)
    decreases |s|
  {
    if n > 0 {
      assert s[..n][1..] == s[1..][..n - 1];
      SumOfCountsPrefix(s[1..], n - 1);
    }
  }

  /** `(municipality, count)` for every distinct present municipality, in
      order of first appearance. */
  function Tally(xs: seq<Value>): (t: seq<(Value, nat)>)
    ensures |t| == |Unique(xs)|
    ensures forall i :: 0 <= i < |t| ==> t[i] == (Unique(xs)[i], Count(xs, Unique(xs)[i]))
  {
    var keys := Unique(xs);
    seq(|keys|, i requires 0 <= i < |keys| => (keys[i], Count(xs, keys[i])))
  }

  /** `value_counts()` of a column: present values, most frequent first. */
  function ValueCounts(cells: seq<Value>): seq<(Value, nat)> {
    SortByCount(Tally(NonNull(cells)))
  }

  function MunicipiosOf(view: seq<Record>): seq<Value> {
    seq(|view|, k requires 0 <= k < |view| => view[k].municipio)
  }

  /** `value_counts().head(5)` of the view's municipalities. */
  function TopMunicipios(view: seq<Record>): (r: seq<(Value, nat)>) {
    var vc := ValueCounts(MunicipiosOf(view));
    vc[..if |vc| < 5 then |vc| else 5]
  }

  /** The tally pairs each distinct value with its count, lists every
      value, has distinct entries and counts every element once. */
  lemma TallySpec(xs: seq<Value>)
    ensures forall y :: y in Tally(xs) ==> y.0 in xs && y.1 == Count(xs, y.0)
    ensures forall x :: x in xs ==> (x, Count(xs, x)) in Tally(xs)
    ensures Distinct(Tally(xs))
    ensures SumOfCounts(Tally(xs)) == |xs|
  {
    var keys := Unique(xs);
    var t := Tally(xs);
    forall y | y in t ensures y.0 in xs && y.1 == Count(xs, y.0) {
      var p :| 0 <= p < |t| && t[p] == y;
      assert keys[p] in keys;
    }
    forall x | x in xs ensures (x, Count(xs, x)) in t {
      assert x in keys;
      var p :| 0 <= p < |keys| && keys[p] == x;
      assert t[p] == (x, Count(xs, x));
    }
    forall i, j | 0 <= i < j < |t| ensures t[i] != t[j] {
      assert t[i].0 == keys[i] && t[j].0 == keys[j];
    }
    SumOfCountsIsSumCounts(xs, keys, t);
    SumCountsBound(xs, keys);
  }

  /** Every entry of the ranking is a present value of `cells` paired with
      its exact count, and every present value has its entry. */
  lemma ValueCountsMembers(cells: seq<Value>)
    ensures forall y :: y in ValueCounts(cells) ==> y.0 != Null && y.0 in cells && y.1 == Count(cells, y.0)
    ensures forall x :: x in cells && x != Null ==> (x, Count(cells, x)) in ValueCounts(cells)
  {
    var xs := NonNull(cells);
    TallySpec(xs);
    SortByCountSpec(Tally(xs));
    forall y | y in ValueCounts(cells) ensures y.0 != Null && y.0 in cells && y.1 == Count(cells, y.0) {
      CountNonNull(cells, y.0);
    }
    forall x | x in cells && x != Null ensures (x, Count(cells, x)) in ValueCounts(cells) {
      CountNonNull(cells, x);
    }
  }

  /** The ranking: one entry per distinct present value, counts never
      increasing, distinct keys, and the counts add up to the number of
      present cells. */
  lemma ValueCountsEntries(cells: seq<Value>)
    ensures var vc := ValueCounts(cells);
            && |vc| == |Unique(NonNull(cells))|
            && NonIncreasing(vc)
            && (forall i :: 0 <= i < |vc| ==> vc[i].0 != Null && vc[i].1 == Count(cells, vc[i].0))
            && (forall i, j :: 0 <= i < j < |vc| ==> vc[i].0 != vc[j].0)
            && (forall x :: x in cells && x != Null ==> (x, Count(cells, x)) in vc)
            && SumOfCounts(vc) == |NonNull(cells)|
  {
    var xs := NonNull(cells);
    var vc := ValueCounts(cells);
    TallySpec(xs);
    SortByCountSpec(Tally(xs));
    ValueCountsMembers(cells);
    assert forall i :: 0 <= i < |vc| ==> vc[i] in vc;
    forall i, j | 0 <= i < j < |vc| ensures vc[i].0 != vc[j].0 {
      assert vc[i] != vc[j];
    }
  }

  /** The first `n` entries of a ranking that lists every present value of
      `cells` with its count: a value left out has no more occurrences than
      any listed one. */
  lemma {:induction false} PrefixDominates(vc: seq<(Value, nat)>, cells: seq<Value>, top: seq<(Value, nat)>)
    requires |top| <= |vc| && top == vc[..|top|] && NonIncreasing(vc)
    requires forall x :: x in cells && x != Null ==> (x, Count(cells, x)) in vc
    ensures forall x, i :: x in cells && x != Null && (forall j :: 0 <= j < |top| ==> top[j].0 != x) && 0 <= i < |top| ==>
              Count(cells, x) <= top[i].1
  {
    forall x, i | x in cells && x != Null && (forall j :: 0 <= j < |top| ==> top[j].0 != x) && 0 <= i < |top|
      ensures Count(cells, x) <= top[i].1
    {
      var p :| 0 <= p < |vc| && vc[p] == (x, Count(cells, x));
      assert top[i] == vc[i];
    }
  }

  /** The first `n` entries of the ranking keep its properties. */
  lemma TopShape(view: seq<Record>)
    ensures var top := TopMunicipios(view);
            var ms := MunicipiosOf(view);
            && |top| <= 5
            && |top| == (if |Unique(NonNull(ms))| < 5 then |Unique(NonNull(ms))| else 5)
            && (forall i :: 0 <= i < |top| ==> top[i].0 != Null && top[i].1 == Count(ms, top[i].0))
            && (forall i, j :: 0 <= i < j < |top| ==> top[i].0 != top[j].0)
            && NonIncreasing(top)
  {
    var ms := MunicipiosOf(view);
    var vc := ValueCounts(ms);
    ValueCountsEntries(ms);
    var top := TopMunicipios(view);
    assert forall i :: 0 <= i < |top| ==> top[i] == vc[i];
  }

  lemma TopBounds(view: seq<Record>)
    ensures var top := TopMunicipios(view);
            var ms := MunicipiosOf(view);
            && (forall x, i :: x in ms && x != Null && (forall j :: 0 <= j < |top| ==> top[j].0 != x) && 0 <= i < |top| ==>
                  Count(ms, x) <= top[i].1)
            && SumOfCounts(top) <= |view|
  {
    var ms := MunicipiosOf(view);
    var vc := ValueCounts(ms);
    var top := TopMunicipios(view);
    var n := if |vc| < 5 then |vc| else 5;
    ValueCountsEntries(ms);
    assert top == vc[..n];
    PrefixDominates(vc, ms, top);
    SumOfCountsPrefix(vc, n);
    assert |NonNull(ms)| <= |view|;
  }

  /** The top-5 list: at most five entries and as many as there are distinct
      present municipalities up to five; distinct keys, none missing; each
      count is that municipality's number of rows in the view; counts never
      increase; a municipality left out has no more rows than any listed one;
      and the counts add up to at most the size of the view. */
  lemma TopMunicipiosSpec(view: seq<Record>)
    ensures var top := TopMunicipios(view);
            var ms := MunicipiosOf(view);
            && |top| <= 5
            && |top| == (if |Unique(NonNull(ms))| < 5 then |Unique(NonNull(ms))| else 5)
            && (forall i :: 0 <= i < |top| ==> top[i].0 != Null && top[i].1 == Count(ms, top[i].0))
            && (forall i, j :: 0 <= i < j < |top| ==> top[i].0 != top[j].0)
            && NonIncreasing(top)
            && (forall x, i :: x in ms && x != Null && (forall j :: 0 <= j < |top| ==> top[j].0 != x) && 0 <= i < |top| ==>
                  Count(ms, x) <= top[i].1)
            && SumOfCounts(top) <= |view|
  {
    TopShape(view);
    TopBounds(view);
  }
}
