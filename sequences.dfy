/** Generic sequence facts used by the row-selection and counting code:
    boolean-mask selection (pandas `df[mask]`), occurrence counts
    (`value_counts`, `groupby().size()`), first occurrences (`unique`,
    `drop_duplicates`) and sorted distinct keys (`sorted(...)`, `sort_index`). */
module Sequences {

  /** No element occurs twice. */
  ghost predicate Distinct<T>(s: seq<T>) {
    forall i, j :: 0 <= i < j < |s| ==> s[i] != s[j]
  }

  // ---------------------------------------------------------------------------
  // Boolean-mask selection

  /** The elements of `xs` whose mask entry is true, in their original order. */
  function Filter<T>(xs: seq<T>, mask: seq<bool>): (r: seq<T>)
    requires |mask| == |xs|
    ensures |r| <= |xs|
    decreases |xs|
  {
    if xs == [] then []
    else (if mask[0] then [xs[0]] else []) + Filter(xs[1..], mask[1..])
  }

  /** The positions at or after `from` at which `mask` is true, ascending. */
  function KeptFrom(mask: seq<bool>, from: nat): (idx: seq<nat>)
    requires from <= |mask|
    ensures forall j :: 0 <= j < |idx| ==> from <= idx[j] < |mask| && mask[idx[j]]
    ensures forall j, k :: 0 <= j < k < |idx| ==> idx[j] < idx[k]
    ensures forall i :: from <= i < |mask| && mask[i] ==> i in idx
    decreases |mask| - from
  {
    if from == |mask| then []
    else (if mask[from] then [from] else []) + KeptFrom(mask, from + 1)
  }

  /** The positions at which `mask` is true, ascending. */
  function Kept(mask: seq<bool>): (idx: seq<nat>)
  {
    KeptFrom(mask, 0)
  }

  lemma {:induction false} FilterIsKeptFrom<T>(xs: seq<T>, mask: seq<bool>, from: nat)
    requires |mask| == |xs| && from <= |xs|
    ensures |Filter(xs[from..], mask[from..])| == |KeptFrom(mask, from)|
    ensures forall j :: 0 <= j < |KeptFrom(mask, from)| ==>
              Filter(xs[from..], mask[from..])[j] == xs[KeptFrom(mask, from)[j]]
    decreases |xs| - from
  {
    if from < |xs| {
      assert xs[from..][1..] == xs[from + 1..];
      assert mask[from..][1..] == mask[from + 1..];
      FilterIsKeptFrom(xs, mask, from + 1);
    }
  }

  /** Selection keeps exactly the masked positions, in order: the j-th kept
      element is the element at the j-th true position of the mask. */
  lemma FilterIsKept<T>(xs: seq<T>, mask: seq<bool>)
    requires |mask| == |xs|
    ensures |Filter(xs, mask)| == |Kept(mask)|
    ensures forall j :: 0 <= j < |Kept(mask)| ==> Filter(xs, mask)[j] == xs[Kept(mask)[j]]
  {
    FilterIsKeptFrom(xs, mask, 0);
    assert xs[0..] == xs && mask[0..] == mask;
  }

  /** An element is selected iff it sits at a position the mask keeps. */
  lemma {:induction false} FilterMember<T>(xs: seq<T>, mask: seq<bool>, x: T)
    requires |mask| == |xs|
    ensures x in Filter(xs, mask) <==> exists i :: 0 <= i < |xs| && mask[i] && xs[i] == x
    decreases |xs|
  {
    if xs != [] {
      FilterMember(xs[1..], mask[1..], x);
      if x in Filter(xs[1..], mask[1..]) {
        var i :| 0 <= i < |xs[1..]| && mask[1..][i] && xs[1..][i] == x;
        assert mask[i + 1] && xs[i + 1] == x;
      }
      if exists i :: 0 <= i < |xs| && mask[i] && xs[i] == x {
        var i :| 0 <= i < |xs| && mask[i] && xs[i] == x;
        if i > 0 {
          assert mask[1..][i - 1] && xs[1..][i - 1] == x;
        }
      }
    }
  }

  /** A mask that keeps everything selects everything. */
  lemma {:induction false} FilterAll<T>(xs: seq<T>, mask: seq<bool>)
    requires |mask| == |xs|
    requires forall i :: 0 <= i < |mask| ==> mask[i]
    ensures Filter(xs, mask) == xs
    decreases |xs|
  {
    if xs != [] {
      FilterAll(xs[1..], mask[1..]);
    }
  }

  /** A mask that keeps nothing selects nothing. */
  lemma {:induction false} FilterNone<T>(xs: seq<T>, mask: seq<bool>)
    requires |mask| == |xs|
    requires forall i :: 0 <= i < |mask| ==> !mask[i]
    ensures Filter(xs, mask) == []
    decreases |xs|
  {
    if xs != [] {
      FilterNone(xs[1..], mask[1..]);
    }
  }

  /** A pointwise stronger mask selects no more elements, and only elements the weaker mask selects. */
  lemma {:induction false} FilterMonotone<T>(xs: seq<T>, strong: seq<bool>, weak: seq<bool>)
    requires |strong| == |xs| && |weak| == |xs|
    requires forall i :: 0 <= i < |xs| && strong[i] ==> weak[i]
    ensures |Filter(xs, strong)| <= |Filter(xs, weak)|
    ensures forall x :: x in Filter(xs, strong) ==> x in Filter(xs, weak)
    decreases |xs|
  {
    if xs != [] {
      FilterMonotone(xs[1..], strong[1..], weak[1..]);
    }
  }

  // ---------------------------------------------------------------------------
  // Occurrence counts

  /** Number of occurrences of `x` in `xs`. */
  function Count<T(==)>(xs: seq<T>, x: T): (n: nat)
    ensures n <= |xs|
    ensures n > 0 <==> x in xs
    decreases |xs|
  {
    if xs == [] then 0 else (if xs[0] == x then 1 else 0) + Count(xs[1..], x)
  }

  /** Two distinct positions holding `x` make its count at least two. */
  lemma {:induction false} CountTwo<T>(xs: seq<T>, x: T, i: nat, j: nat)
    requires i < |xs| && j < |xs| && i != j && xs[i] == x && xs[j] == x
    ensures Count(xs, x) >= 2
    decreases |xs|
  {
    if i == 0 {
      assert xs[1..][j - 1] == x;
    } else if j == 0 {
      assert xs[1..][i - 1] == x;
    } else {
      CountTwo(xs[1..], x, i - 1, j - 1);
    }
  }

  /** `x` occurs exactly once exactly when one position holds it and no other does. */
  lemma {:induction false} CountOne<T>(xs: seq<T>, x: T, i: nat)
    requires i < |xs| && xs[i] == x
    ensures Count(xs, x) == 1 <==> forall j :: 0 <= j < |xs| && j != i ==> xs[j] != x
    decreases |xs|
  {
    if exists j :: 0 <= j < |xs| && j != i && xs[j] == x {
      var j :| 0 <= j < |xs| && j != i && xs[j] == x;
      CountTwo(xs, x, i, j);
    } else if i == 0 {
      assert x !in xs[1..] by {
        forall k | 0 <= k < |xs[1..]| ensures xs[1..][k] != x {
          assert xs[1..][k] == xs[k + 1];
        }
      }
    } else {
      forall k | 0 <= k < |xs[1..]| && k != i - 1 ensures xs[1..][k] != x {
        assert xs[1..][k] == xs[k + 1];
      }
      CountOne(xs[1..], x, i - 1);
    }
  }

  lemma {:induction false} CountAppend<T>(xs: seq<T>, ys: seq<T>, x: T)
    ensures Count(xs + ys, x) == Count(xs, x) + Count(ys, x)
    decreases |xs|
  {
    if xs != [] {
      assert (xs + ys)[0] == xs[0];
      assert (xs + ys)[1..] == xs[1..] + ys;
      CountAppend(xs[1..], ys, x);
    } else {
      assert xs + ys == ys;
    }
  }

  /** Sum of the counts in `xs` of every key in `keys`. */
  function SumCounts<T(==)>(xs: seq<T>, keys: seq<T>): nat
    decreases |keys|
  {
    if keys == [] then 0 else Count(xs, keys[0]) + SumCounts(xs, keys[1..])
  }

  /** Number of elements of `xs` that belong to `keys`. */
  function CountIn<T(==)>(xs: seq<T>, keys: seq<T>): (n: nat)
    ensures n <= |xs|
    decreases |xs|
  {
    if xs == [] then 0 else (if xs[0] in keys then 1 else 0) + CountIn(xs[1..], keys)
  }

  lemma {:induction false} SumCountsOfEmpty<T>(keys: seq<T>)
    ensures SumCounts([], keys) == 0
    decreases |keys|
  {
    if keys != [] {
      SumCountsOfEmpty(keys[1..]);
    }
  }

  lemma {:induction false} SumCountsCons<T>(y: T, xs: seq<T>, keys: seq<T>)
    requires Distinct(keys)
    ensures SumCounts([y] + xs, keys) == (if y in keys then 1 else 0) + SumCounts(xs, keys)
    decreases |keys|
  {
    if keys != [] {
      assert ([y] + xs)[1..] == xs;
      SumCountsCons(y, xs, keys[1..]);
      assert y in keys[1..] ==> y != keys[0];
      assert y in keys <==> y == keys[0] || y in keys[1..];
    }
  }

  /** Summing, over distinct keys, each key's count gives the number of
      elements that are keys: every element is counted exactly once. */
  lemma {:induction false} SumCountsIsCountIn<T>(xs: seq<T>, keys: seq<T>)
    requires Distinct(keys)
    ensures SumCounts(xs, keys) == CountIn(xs, keys)
    decreases |xs|
  {
    if xs == [] {
      SumCountsOfEmpty(keys);
    } else {
      assert xs == [xs[0]] + xs[1..];
      SumCountsCons(xs[0], xs[1..], keys);
      SumCountsIsCountIn(xs[1..], keys);
    }
  }

  lemma {:induction false} CountInAll<T>(xs: seq<T>, keys: seq<T>)
    requires forall x :: x in xs ==> x in keys
    ensures CountIn(xs, keys) == |xs|
    decreases |xs|
  {
    if xs != [] {
      CountInAll(xs[1..], keys);
    }
  }

  /** Counts over distinct keys that cover `xs` add up to `|xs|`; over any
      distinct keys they add up to at most `|xs|`. */
  lemma SumCountsBound<T>(xs: seq<T>, keys: seq<T>)
    requires Distinct(keys)
    ensures SumCounts(xs, keys) <= |xs|
    ensures (forall x :: x in xs ==> x in keys) ==> SumCounts(xs, keys) == |xs|
  {
    SumCountsIsCountIn(xs, keys);
    if forall x :: x in xs ==> x in keys {
      CountInAll(xs, keys);
    }
  }

  // ---------------------------------------------------------------------------
  // First occurrences

  /** The distinct elements of `xs` in order of first appearance (pandas `unique`). */
  function Unique<T(==,!new)>(xs: seq<T>): (r: seq<T>)
    ensures Distinct(r)
    ensures forall x :: x in r <==> x in xs
    decreases |xs|
  {
    if xs == [] then []
    else
      var init := Unique(xs[..|xs| - 1]);
      var last := xs[|xs| - 1];
      assert forall x :: x in xs <==> x in xs[..|xs| - 1] || x == last by {
        assert xs == xs[..|xs| - 1] + [last];
      }
      if last in init then init else init + [last]
  }

  // ---------------------------------------------------------------------------
  // Strict orders and sorted distinct keys

  /** `less` is a strict total order. */
  ghost predicate StrictTotalOrder<T(!new)>(less: (T, T) -> bool) {
    && (forall a :: !less(a, a))
    && (forall a, b, c :: less(a, b) && less(b, c) ==> less(a, c))
    && (forall a, b :: a != b ==> less(a, b) || less(b, a))
  }

  /** Strictly ascending under `less`. */
  ghost predicate StrictlySorted<T>(s: seq<T>, less: (T, T) -> bool) {
    forall i, j :: 0 <= i < j < |s| ==> less(s[i], s[j])
  }

  lemma StrictlySortedIsDistinct<T(!new)>(s: seq<T>, less: (T, T) -> bool)
    requires StrictTotalOrder(less) && StrictlySorted(s, less)
    ensures Distinct(s)
  {
  }

  /** Inserts `x` into a strictly sorted sequence unless it is already there. */
  function InsertUnique<T(==,!new)>(x: T, s: seq<T>, less: (T, T) -> bool): (r: seq<T>)
    requires StrictTotalOrder(less) && StrictlySorted(s, less)
    ensures StrictlySorted(r, less)
    ensures forall y :: y in r <==> y == x || y in s
    decreases |s|
  {
    if s == [] then [x]
    else if x == s[0] then s
    else if less(x, s[0]) then [x] + s
    else
      var tail := InsertUnique(x, s[1..], less);
      assert forall y :: y in s <==> y == s[0] || y in s[1..];
      assert forall y :: y in tail ==> less(s[0], y);
      [s[0]] + tail
  }

  /** The distinct elements of `xs`, strictly ascending: `sorted(set(xs))`. */
  function SortedUnique<T(==,!new)>(xs: seq<T>, less: (T, T) -> bool): (r: seq<T>)
    requires StrictTotalOrder(less)
    ensures StrictlySorted(r, less)
    ensures forall y :: y in r <==> y in xs
    decreases |xs|
  {
    if xs == [] then []
    else
      assert forall y :: y in xs <==> y in xs[..|xs| - 1] || y == xs[|xs| - 1] by {
        assert xs == xs[..|xs| - 1] + [xs[|xs| - 1]];
      }
      InsertUnique(xs[|xs| - 1], SortedUnique(xs[..|xs| - 1], less), less)
  }

  /** `(key, count)` for each distinct element of `xs`, keys ascending:
      the shape of `value_counts().sort_index()` and `groupby(key).size()`. */
  function SortedCounts<T(==,!new)>(xs: seq<T>, less: (T, T) -> bool): (r: seq<(T, nat)>)
    requires StrictTotalOrder(less)
  {
    var keys := SortedUnique(xs, less);
    seq(|keys|, i requires 0 <= i < |keys| => (keys[i], Count(xs, keys[i])))
  }

  /** Sum of the counts of a `(key, count)` table. */
  function SumOfCounts<T>(table: seq<(T, nat)>): nat
    decreases |table|
  {
    if table == [] then 0 else table[0].1 + SumOfCounts(table[1..])
  }

  lemma {:induction false} SumOfCountsIsSumCounts<T>(xs: seq<T>, keys: seq<T>, table: seq<(T, nat)>)
    requires |table| == |keys|
    requires forall i :: 0 <= i < |keys| ==> table[i] == (keys[i], Count(xs, keys[i]))
    ensures SumOfCounts(table) == SumCounts(xs, keys)
    decreases |keys|
  {
    if keys != [] {
      SumOfCountsIsSumCounts(xs, keys[1..], table[1..]);
    }
  }

  /** A grouped count has one entry per distinct element, keys strictly
      ascending, every count exact and positive (no zero entries), and the
      counts add up to the number of elements. */
  lemma SortedCountsSpec<T(!new)>(xs: seq<T>, less: (T, T) -> bool)
    requires StrictTotalOrder(less)
    ensures var r := SortedCounts(xs, less);
      && (forall i, j :: 0 <= i < j < |r| ==> less(r[i].0, r[j].0))
      && (forall x :: x in xs <==> exists i :: 0 <= i < |r| && r[i].0 == x)
      && (forall i :: 0 <= i < |r| ==> r[i].1 == Count(xs, r[i].0) && r[i].1 > 0)
      && SumOfCounts(r) == |xs|
  {
    var keys := SortedUnique(xs, less);
    var r := SortedCounts(xs, less);
    forall x | x in xs ensures exists i :: 0 <= i < |r| && r[i].0 == x {
      var i :| 0 <= i < |keys| && keys[i] == x;
      assert r[i].0 == x;
    }
    StrictlySortedIsDistinct(keys, less);
    SumOfCountsIsSumCounts(xs, keys, r);
    SumCountsBound(xs, keys);
  }
}
