/** A pandas DataFrame as the model sees it: labelled columns of equal
    height holding cell values, with the column-level operations the scripts
    use (`df[name]`, `df[name] = values`, `drop`, `rename`, `df[mask]`,
    `drop_duplicates`). Labels are looked up by their first occurrence. */
module Frames {
  import opened Wrappers
  import opened Sequences
  import opened Calendar

  /** One cell: missing (NaN/NaT), text, a number, a timestamp, or a date. */
  datatype Value = Null | Text(s: string) | Number(x: real) | Stamp(t: DateTime) | Day(d: int)

  datatype Column = Column(name: string, values: seq<Value>)

  datatype Frame = Frame(height: nat, columns: seq<Column>)

  /** Every column holds one value per row. */
  predicate Valid(f: Frame) {
    forall c :: 0 <= c < |f.columns| ==> |f.columns[c].values| == f.height
  }

  /** The column labels, left to right. */
  function Names(cols: seq<Column>): (names: seq<string>)
    ensures |names| == |cols|
    ensures forall c :: 0 <= c < |cols| ==> names[c] == cols[c].name
    decreases |cols|
  {
    if cols == [] then [] else [cols[0].name] + Names(cols[1..])
  }

  function Header(f: Frame): seq<string> {
    Names(f.columns)
  }

  /** `df[name]`: the values of the first column with that label, or None (KeyError). */
  function Lookup(cols: seq<Column>, name: string): (r: Option<seq<Value>>)
    ensures r.Some? ==> exists c :: 0 <= c < |cols| && cols[c].name == name && cols[c].values == r.value
    decreases |cols|
  {
    if cols == [] then None
    else if cols[0].name == name then Some(cols[0].values)
    else Lookup(cols[1..], name)
  }

  function ColumnOf(f: Frame, name: string): Option<seq<Value>> {
    Lookup(f.columns, name)
  }

  /** The cell of row `k` under a label, or a missing value when the label
      or the row does not exist. */
  function CellAt(f: Frame, name: string, k: nat): Value {
    match ColumnOf(f, name)
    case Some(vs) => if k < |vs| then vs[k] else Null
    case None => Null
  }

  lemma CellAtColumn(f: Frame, name: string)
    requires Valid(f) && ColumnOf(f, name).Some?
    ensures |ColumnOf(f, name).value| == f.height
    ensures forall k :: 0 <= k < f.height ==> CellAt(f, name, k) == ColumnOf(f, name).value[k]
  {
    LookupValid(f, name);
  }

  lemma {:induction false} LookupFound(cols: seq<Column>, name: string)
    ensures Lookup(cols, name).Some? <==> name in Names(cols)
    decreases |cols|
  {
    if cols != [] {
      LookupFound(cols[1..], name);
      assert Names(cols) == [cols[0].name] + Names(cols[1..]);
    }
  }

  /** A label held by one column only reads back that column. */
  lemma LookupUnique(cols: seq<Column>, name: string, i: nat)
    requires i < |cols| && cols[i].name == name
    requires forall j :: 0 <= j < |cols| && j != i ==> cols[j].name != name
    ensures Lookup(cols, name) == Some(cols[i].values)
  {
    LookupFound(cols, name);
    assert Names(cols)[i] == name;
  }

  lemma LookupValid(f: Frame, name: string)
    requires Valid(f)
    ensures ColumnOf(f, name).Some? ==> |ColumnOf(f, name).value| == f.height
  {
    LookupFound(f.columns, name);
  }

  // ---------------------------------------------------------------------------
  // Column assignment: df[name] = values

  function ReplaceAll(cols: seq<Column>, name: string, vals: seq<Value>): (r: seq<Column>)
    ensures |r| == |cols| && Names(r) == Names(cols)
    ensures forall c :: 0 <= c < |cols| ==> r[c] == if cols[c].name == name then Column(name, vals) else cols[c]
    decreases |cols|
  {
    if cols == [] then []
    else [if cols[0].name == name then Column(name, vals) else cols[0]] + ReplaceAll(cols[1..], name, vals)
  }

  /** `df[name] = vals`: overwrites the column(s) with that label, or appends a new one. */
  function WithColumn(f: Frame, name: string, vals: seq<Value>): Frame
    requires |vals| == f.height
  {
    if name in Header(f) then Frame(f.height, ReplaceAll(f.columns, name, vals))
    else Frame(f.height, f.columns + [Column(name, vals)])
  }

  lemma {:induction false} LookupReplaceAll(cols: seq<Column>, name: string, vals: seq<Value>, other: string)
    ensures Lookup(ReplaceAll(cols, name, vals), name) == if name in Names(cols) then Some(vals) else None
    ensures other != name ==> Lookup(ReplaceAll(cols, name, vals), other) == Lookup(cols, other)
    decreases |cols|
  {
    if cols != [] {
      LookupReplaceAll(cols[1..], name, vals, other);
      assert ReplaceAll(cols, name, vals)[1..] == ReplaceAll(cols[1..], name, vals);
      assert Names(cols) == [cols[0].name] + Names(cols[1..]);
    }
  }

  lemma {:induction false} LookupAppend(cols: seq<Column>, col: Column, name: string)
    ensures Lookup(cols + [col], name) == if name in Names(cols) then Lookup(cols, name)
                                         else if col.name == name then Some(col.values) else None
    decreases |cols|
  {
    if cols == [] {
      assert cols + [col] == [col];
    } else {
      assert (cols + [col])[1..] == cols[1..] + [col];
      assert Names(cols) == [cols[0].name] + Names(cols[1..]);
      LookupAppend(cols[1..], col, name);
    }
  }

  /** What the pipeline steps need of `df[name] = vals`: the label reads
      back `vals` and every other label reads what it read before. */
  lemma WithColumnLookup(f: Frame, name: string, vals: seq<Value>)
    requires Valid(f) && |vals| == f.height
    ensures Valid(WithColumn(f, name, vals)) && WithColumn(f, name, vals).height == f.height
    ensures ColumnOf(WithColumn(f, name, vals), name) == Some(vals)
    ensures forall other :: other != name ==> ColumnOf(WithColumn(f, name, vals), other) == ColumnOf(f, other)
  {
    var g := WithColumn(f, name, vals);
    forall other ensures ColumnOf(g, other) == if other == name then Some(vals) else ColumnOf(f, other) {
      if name in Header(f) {
        LookupReplaceAll(f.columns, name, vals, other);
      } else {
        LookupAppend(f.columns, Column(name, vals), other);
        LookupFound(f.columns, other);
      }
    }
  }

  /** After `df[name] = vals` the label reads back `vals`, every other label
      reads what it read before, the height is unchanged, and the header
      gains `name` and nothing else. */
  lemma WithColumnSpec(f: Frame, name: string, vals: seq<Value>)
    requires Valid(f) && |vals| == f.height
    ensures Valid(WithColumn(f, name, vals)) && WithColumn(f, name, vals).height == f.height
    ensures ColumnOf(WithColumn(f, name, vals), name) == Some(vals)
    ensures forall other :: other != name ==> ColumnOf(WithColumn(f, name, vals), other) == ColumnOf(f, other)
    ensures forall n :: n in Header(WithColumn(f, name, vals)) <==> n in Header(f) || n == name
  {
    WithColumnLookup(f, name, vals);
    if name !in Header(f) {
      assert Names(f.columns + [Column(name, vals)]) == Names(f.columns) + [name];
    }
  }


  // ---------------------------------------------------------------------------
  // df.drop(name, axis=1)

  function RemoveAll(cols: seq<Column>, name: string): (r: seq<Column>)
    ensures forall c :: c in r ==> c in cols && c.name != name
    decreases |cols|
  {
    if cols == [] then []
    else (if cols[0].name == name then [] else [cols[0]]) + RemoveAll(cols[1..], name)
  }

  function Drop(f: Frame, name: string): Frame {
    Frame(f.height, RemoveAll(f.columns, name))
  }

  lemma {:induction false} LookupRemoveAll(cols: seq<Column>, name: string, other: string)
    ensures Lookup(RemoveAll(cols, name), name) == None
    ensures other != name ==> Lookup(RemoveAll(cols, name), other) == Lookup(cols, other)
    decreases |cols|
  {
    if cols != [] {
      LookupRemoveAll(cols[1..], name, other);
      var rest := RemoveAll(cols[1..], name);
      if cols[0].name == name {
        assert RemoveAll(cols, name) == rest;
      } else {
        assert RemoveAll(cols, name) == [cols[0]] + rest;
        assert ([cols[0]] + rest)[1..] == rest;
      }
    }
  }

  lemma {:induction false} NamesRemoveAll(cols: seq<Column>, name: string, n: string)
    ensures n in Names(RemoveAll(cols, name)) <==> n in Names(cols) && n != name
    decreases |cols|
  {
    if cols != [] {
      NamesRemoveAll(cols[1..], name, n);
      assert Names(cols) == [cols[0].name] + Names(cols[1..]);
      var rest := RemoveAll(cols[1..], name);
      if cols[0].name != name {
        assert RemoveAll(cols, name) == [cols[0]] + rest;
        assert Names([cols[0]] + rest) == [cols[0].name] + Names(rest);
      } else {
        assert RemoveAll(cols, name) == rest;
      }
    }
  }

  /** What the pipeline steps need of `drop(columns=[name])`: the label is
      gone and every other label reads what it read before. */
  lemma DropLookup(f: Frame, name: string)
    requires Valid(f)
    ensures Valid(Drop(f, name)) && Drop(f, name).height == f.height
    ensures ColumnOf(Drop(f, name), name) == None
    ensures forall other :: other != name ==> ColumnOf(Drop(f, name), other) == ColumnOf(f, other)
  {
    forall other ensures other != name ==> ColumnOf(Drop(f, name), other) == ColumnOf(f, other) {
      LookupRemoveAll(f.columns, name, other);
    }
    LookupRemoveAll(f.columns, name, name);
  }

  /** After dropping a label it is gone from the header, every other label
      reads what it read before, and the header loses `name` and nothing else. */
  lemma DropSpec(f: Frame, name: string)
    requires Valid(f)
    ensures Valid(Drop(f, name)) && Drop(f, name).height == f.height
    ensures ColumnOf(Drop(f, name), name) == None && name !in Header(Drop(f, name))
    ensures forall other :: other != name ==> ColumnOf(Drop(f, name), other) == ColumnOf(f, other)
    ensures forall n :: n in Header(Drop(f, name)) <==> n in Header(f) && n != name
  {
    DropLookup(f, name);
    forall n ensures n in Header(Drop(f, name)) <==> n in Header(f) && n != name {
      NamesRemoveAll(f.columns, name, n);
    }
    NamesRemoveAll(f.columns, name, name);
  }

  // ---------------------------------------------------------------------------
  // df.rename(columns=table)

  function Renamed(name: string, table: map<string, string>): string {
    if name in table then table[name] else name
  }

  function RenameAll(cols: seq<Column>, table: map<string, string>): (r: seq<Column>)
    ensures |r| == |cols|
    ensures forall c :: 0 <= c < |cols| ==> r[c] == Column(Renamed(cols[c].name, table), cols[c].values)
    decreases |cols|
  {
    if cols == [] then []
    else [Column(Renamed(cols[0].name, table), cols[0].values)] + RenameAll(cols[1..], table)
  }

  function Rename(f: Frame, table: map<string, string>): Frame {
    Frame(f.height, RenameAll(f.columns, table))
  }

  /** Renaming keeps the shape and changes each label through the table. */
  lemma RenameSpec(f: Frame, table: map<string, string>)
    requires Valid(f)
    ensures Valid(Rename(f, table)) && Rename(f, table).height == f.height
    ensures |Header(Rename(f, table))| == |Header(f)|
    ensures forall c :: 0 <= c < |f.columns| ==> Header(Rename(f, table))[c] == Renamed(Header(f)[c], table)
  {
  }

  // ---------------------------------------------------------------------------
  // Rows and row selection: df[mask]

  /** Row `k` across all columns, left to right. */
  function Row(f: Frame, k: nat): seq<Value>
    requires Valid(f) && k < f.height
  {
    seq(|f.columns|, c requires 0 <= c < |f.columns| => f.columns[c].values[k])
  }

  function Rows(f: Frame): seq<seq<Value>>
    requires Valid(f)
  {
    seq(f.height, k requires 0 <= k < f.height => Row(f, k))
  }

  function FilterColumns(cols: seq<Column>, mask: seq<bool>): (r: seq<Column>)
    requires forall c :: 0 <= c < |cols| ==> |cols[c].values| == |mask|
    ensures |r| == |cols| && Names(r) == Names(cols)
    ensures forall c :: 0 <= c < |cols| ==> r[c] == Column(cols[c].name, Filter(cols[c].values, mask))
    decreases |cols|
  {
    if cols == [] then []
    else [Column(cols[0].name, Filter(cols[0].values, mask))] + FilterColumns(cols[1..], mask)
  }

  /** `df[mask]`: the rows whose mask entry is true, in order, in every column. */
  function SelectRows(f: Frame, mask: seq<bool>): Frame
    requires Valid(f) && |mask| == f.height
  {
    Frame(|Kept(mask)|, FilterColumns(f.columns, mask))
  }

  lemma {:induction false} LookupFilterColumns(cols: seq<Column>, mask: seq<bool>, name: string)
    requires forall c :: 0 <= c < |cols| ==> |cols[c].values| == |mask|
    ensures Lookup(FilterColumns(cols, mask), name) ==
              if Lookup(cols, name).None? then None else Some(Filter(Lookup(cols, name).value, mask))
    decreases |cols|
  {
    if cols != [] {
      LookupFilterColumns(cols[1..], mask, name);
      assert FilterColumns(cols, mask)[1..] == FilterColumns(cols[1..], mask);
    }
  }

  lemma SelectRowsValid(f: Frame, mask: seq<bool>)
    requires Valid(f) && |mask| == f.height
    ensures Valid(SelectRows(f, mask)) && Header(SelectRows(f, mask)) == Header(f)
  {
    var g := SelectRows(f, mask);
    forall c | 0 <= c < |f.columns| ensures |g.columns[c].values| == g.height {
      FilterIsKept(f.columns[c].values, mask);
    }
  }

  lemma SelectRowsRows(f: Frame, mask: seq<bool>)
    requires Valid(f) && |mask| == f.height
    ensures Valid(SelectRows(f, mask))
    ensures Rows(SelectRows(f, mask)) == Filter(Rows(f), mask)
  {
    SelectRowsValid(f, mask);
    var g := SelectRows(f, mask);
    var idx := Kept(mask);
    FilterIsKept(Rows(f), mask);
    forall j | 0 <= j < g.height ensures Rows(g)[j] == Filter(Rows(f), mask)[j] {
      assert Filter(Rows(f), mask)[j] == Rows(f)[idx[j]] == Row(f, idx[j]);
      forall c | 0 <= c < |f.columns| ensures Row(g, j)[c] == Row(f, idx[j])[c] {
        FilterIsKept(f.columns[c].values, mask);
        assert g.columns[c].values == Filter(f.columns[c].values, mask);
      }
      assert Row(g, j) == Row(f, idx[j]);
    }
  }

  /** Selecting rows keeps every label, filters every column by the mask, and
      yields exactly the masked rows of the frame in their original order. */
  lemma SelectRowsSpec(f: Frame, mask: seq<bool>)
    requires Valid(f) && |mask| == f.height
    ensures Valid(SelectRows(f, mask)) && Header(SelectRows(f, mask)) == Header(f)
    ensures forall name :: ColumnOf(SelectRows(f, mask), name) ==
              if ColumnOf(f, name).None? then None else Some(Filter(ColumnOf(f, name).value, mask))
    ensures Rows(SelectRows(f, mask)) == Filter(Rows(f), mask)
  {
    SelectRowsValid(f, mask);
    forall name ensures ColumnOf(SelectRows(f, mask), name) ==
        if ColumnOf(f, name).None? then None else Some(Filter(ColumnOf(f, name).value, mask)) {
      LookupFilterColumns(f.columns, mask, name);
    }
    SelectRowsRows(f, mask);
  }

  // ---------------------------------------------------------------------------
  // df.drop_duplicates()

  /** True at the first occurrence of each distinct element. */
  function FirstOccurrences<T(==)>(xs: seq<T>): (mask: seq<bool>)
    ensures |mask| == |xs|
    ensures forall k :: 0 <= k < |xs| ==> mask[k] == (xs[k] !in xs[..k])
  {
    seq(|xs|, k requires 0 <= k < |xs| => xs[k] !in xs[..k])
  }

  /** Keeping first occurrences leaves no two equal elements, keeps an equal
      element for every original one, and keeps the original order. */
  lemma FirstOccurrencesSpec<T>(xs: seq<T>)
    ensures Distinct(Filter(xs, FirstOccurrences(xs)))
    ensures forall x :: x in xs <==> x in Filter(xs, FirstOccurrences(xs))
  {
    var mask := FirstOccurrences(xs);
    var r := Filter(xs, mask);
    var idx := Kept(mask);
    FilterIsKept(xs, mask);
    forall i, j | 0 <= i < j < |r| ensures r[i] != r[j] {
      assert idx[i] < idx[j];
      assert xs[idx[i]] in xs[..idx[j]];
    }
    forall x ensures x in xs <==> x in r {
      FilterMember(xs, mask, x);
      if x in xs {
        var i :| 0 <= i < |xs| && xs[i] == x && forall j :: 0 <= j < i ==> xs[j] != x by {
          FirstIndexExists(xs, x);
        }
        assert mask[i];
      }
    }
  }

  lemma FirstIndexExists<T>(xs: seq<T>, x: T)
    requires x in xs
    ensures exists i :: 0 <= i < |xs| && xs[i] == x && forall j :: 0 <= j < i ==> xs[j] != x
  {
    var i :| 0 <= i < |xs| && xs[i] == x;
    while exists j :: 0 <= j < i && xs[j] == x
      invariant 0 <= i < |xs| && xs[i] == x
      decreases i
    {
      var j :| 0 <= j < i && xs[j] == x;
      i := j;
    }
  }

  /** `df.drop_duplicates()`: keeps the first of each group of identical rows. */
  function DropDuplicates(f: Frame): Frame
    requires Valid(f)
  {
    SelectRows(f, FirstOccurrences(Rows(f)))
  }

  /** After `drop_duplicates` no two rows are identical, every original row
      has an identical row kept, the kept rows are in their original order,
      and the labels are unchanged. */
  lemma DropDuplicatesSpec(f: Frame)
    requires Valid(f)
    ensures Valid(DropDuplicates(f)) && Header(DropDuplicates(f)) == Header(f)
    ensures Distinct(Rows(DropDuplicates(f)))
    ensures forall r :: r in Rows(f) <==> r in Rows(DropDuplicates(f))
    ensures Rows(DropDuplicates(f)) == Filter(Rows(f), FirstOccurrences(Rows(f)))
  {
    SelectRowsSpec(f, FirstOccurrences(Rows(f)));
    FirstOccurrencesSpec(Rows(f));
  }

  // ---------------------------------------------------------------------------
  // Rows gathered by position: df.loc[positions]

  function GatherColumns(cols: seq<Column>, idx: seq<nat>, height: nat): (r: seq<Column>)
    requires forall c :: 0 <= c < |cols| ==> |cols[c].values| == height
    requires forall j :: 0 <= j < |idx| ==> idx[j] < height
    ensures |r| == |cols| && Names(r) == Names(cols)
    ensures forall c :: 0 <= c < |cols| ==> r[c].name == cols[c].name && |r[c].values| == |idx|
    ensures forall c, j :: 0 <= c < |cols| && 0 <= j < |idx| ==> r[c].values[j] == cols[c].values[idx[j]]
    decreases |cols|
  {
    if cols == [] then []
    else [Column(cols[0].name, seq(|idx|, j requires 0 <= j < |idx| => cols[0].values[idx[j]]))]
         + GatherColumns(cols[1..], idx, height)
  }

  /** The rows at the given positions, in the given order. */
  function Gather(f: Frame, idx: seq<nat>): (g: Frame)
    requires Valid(f) && forall j :: 0 <= j < |idx| ==> idx[j] < f.height
    ensures Valid(g) && g.height == |idx| && Header(g) == Header(f)
    ensures forall j :: 0 <= j < |idx| ==> Rows(g)[j] == Rows(f)[idx[j]]
  {
    Frame(|idx|, GatherColumns(f.columns, idx, f.height))
  }
}
