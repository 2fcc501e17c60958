/** The four risk levels and the binning of the fire-risk index into them
    (models_create/modelo.py): `pd.cut(risco_fogo, bins=[0, 0.3, 0.6, 0.8, 1.0],
    labels=[...], include_lowest=True, right=True)`. */
module Risk {
  import opened Wrappers
  import opened Frames

  /** The labels, lowest risk first. */
  const RiskLabels: seq<string> := ["Baixo", "Médio", "Alto", "Muito Alto"]

  /** The bin edges. */
  const Edges: seq<real> := [0.0, 0.3, 0.6, 0.8, 1.0]

  /** The bin of a value: intervals closed on the right, the first one also
      closed on the left; values outside [0, 1] fall in no bin. */
  function BinIndex(x: real): (r: Option<nat>)
    ensures r.Some? <==> 0.0 <= x <= 1.0
    ensures r.Some? ==> r.value < 4 && x <= Edges[r.value + 1]
    ensures r.Some? && r.value > 0 ==> Edges[r.value] < x
  {
    if x < 0.0 || x > 1.0 then None
    else if x <= 0.3 then Some(0)
    else if x <= 0.6 then Some(1)
    else if x <= 0.8 then Some(2)
    else Some(3)
  }

  /** The label of a value, or nothing (NaN) outside [0, 1]. */
  function Bin(x: real): (r: Option<string>)
    ensures r.Some? <==> 0.0 <= x <= 1.0
    ensures r.Some? ==> r.value in RiskLabels
  {
    var i := BinIndex(x);
    if i.None? then None else Some(RiskLabels[i.value])
  }

  /** Position of a label in the risk order. */
  function Rank(level: string): (r: nat)
    requires level in RiskLabels
    ensures r < 4 && RiskLabels[r] == level
  {
    if level == "Baixo" then 0 else if level == "Médio" then 1 else if level == "Alto" then 2 else 3
  }

  /** The intervals, label by label. */
  lemma BinIntervals(x: real)
    ensures Bin(x) == Some("Baixo") <==> 0.0 <= x <= 0.3
    ensures Bin(x) == Some("Médio") <==> 0.3 < x <= 0.6
    ensures Bin(x) == Some("Alto") <==> 0.6 < x <= 0.8
    ensures Bin(x) == Some("Muito Alto") <==> 0.8 < x <= 1.0
  {
    assert RiskLabels[0] == "Baixo" && RiskLabels[1] == "Médio" && RiskLabels[2] == "Alto" && RiskLabels[3] == "Muito Alto";
    assert "Baixo" != "Médio" && "Baixo" != "Alto" && "Baixo" != "Muito Alto";
    assert "Médio" != "Alto" && "Médio" != "Muito Alto" && "Alto" != "Muito Alto";
  }

  /** A higher risk index never gets a lower label. */
  lemma BinMonotone(x: real, y: real)
    requires 0.0 <= x <= y <= 1.0
    ensures Bin(x).Some? && Bin(y).Some?
    ensures Rank(Bin(x).value) <= Rank(Bin(y).value)
  {
    assert Rank(Bin(x).value) == BinIndex(x).value;
    assert Rank(Bin(y).value) == BinIndex(y).value;
  }

  /** `pd.cut` on one cell: a number gets its label, anything else is missing. */
  function BinCell(v: Value): (r: Value)
    ensures r != Null <==> v.Number? && 0.0 <= v.x <= 1.0
    ensures r != Null ==> r == Text(Bin(v.x).value)
  {
    if v.Number? && Bin(v.x).Some? then Text(Bin(v.x).value) else Null
  }

  function BinColumn(values: seq<Value>): (r: seq<Value>)
    ensures |r| == |values|
    ensures forall k :: 0 <= k < |values| ==> r[k] == BinCell(values[k])
  {
    seq(|values|, k requires 0 <= k < |values| => BinCell(values[k]))
  }
}
