/** The events page (pages/1_Descritiva.py): disaster events filtered by
    type and period, their count, burned area and victims, and the number of
    events per day. */
module Events {
  import opened Wrappers
  import opened Sequences
  import opened Frames

  /** A row of the events table: its type, its date as a day number (None
      for NaT), and its burned area and victims (None for NaN). */
  datatype Event = Event(tipo: Value, data: Option<int>, area: Option<real>, vitimas: Option<real>)

  /** `tipo in @tipos and @periodo[0] <= data <= @periodo[1]`: a missing date
      compares false, so it never satisfies the period. */
  predicate Selected(e: Event, tipos: seq<Value>, inicio: int, fim: int) {
    e.tipo in tipos && e.data.Some? && inicio <= e.data.value <= fim
  }

  function SelectMask(events: seq<Event>, tipos: seq<Value>, inicio: int, fim: int): (mask: seq<bool>)
    ensures |mask| == |events|
    ensures forall k :: 0 <= k < |events| ==> mask[k] == Selected(events[k], tipos, inicio, fim)
  {
    seq(|events|, k requires 0 <= k < |events| => Selected(events[k], tipos, inicio, fim))
  }

  /** `df.query(...)`: the selected events. */
  function FilterEvents(events: seq<Event>, tipos: seq<Value>, inicio: int, fim: int): seq<Event> {
    Filter(events, SelectMask(events, tipos, inicio, fim))
  }

  /** An event is shown iff it is in the table, its type is selected and its
      date lies in the period, bounds included; shown events keep their
      table order. */
  lemma FilterEventsSpec(events: seq<Event>, tipos: seq<Value>, inicio: int, fim: int)
    ensures forall e :: e in FilterEvents(events, tipos, inicio, fim) <==> e in events && Selected(e, tipos, inicio, fim)
    ensures var idx := Kept(SelectMask(events, tipos, inicio, fim));
      |FilterEvents(events, tipos, inicio, fim)| == |idx| &&
      forall j :: 0 <= j < |idx| ==> FilterEvents(events, tipos, inicio, fim)[j] == events[idx[j]]
  {
    var mask := SelectMask(events, tipos, inicio, fim);
    FilterIsKept(events, mask);
    forall e ensures e in Filter(events, mask) <==> e in events && Selected(e, tipos, inicio, fim) {
      FilterMember(events, mask, e);
    }
  }

  // ---------------------------------------------------------------------------
  // The default selection

  function TiposOf(events: seq<Event>): seq<Value> {
    seq(|events|, k requires 0 <= k < |events| => events[k].tipo)
  }

  /** The present dates, in table order. */
  function DatesOf(events: seq<Event>): (r: seq<int>)
    ensures |r| <= |events|
    ensures forall d :: d in r <==> exists k :: 0 <= k < |events| && events[k].data == Some(d)
    decreases |events|
  {
    if events == [] then []
    else
      var rest := DatesOf(events[1..]);
      assert forall k :: 1 <= k < |events| ==> events[k] == events[1..][k - 1];
      if events[0].data.Some? then [events[0].data.value] + rest else rest
  }

  /** `df.data.min()`, which skips NaT. */
  function Earliest(days: seq<int>): (d: int)
    requires days != []
    ensures d in days && forall x :: x in days ==> d <= x
    decreases |days|
  {
    if |days| == 1 then days[0]
    else
      var rest := Earliest(days[1..]);
      assert forall x :: x in days ==> x == days[0] || x in days[1..];
      if days[0] <= rest then days[0] else rest
  }

  /** `df.data.max()`, which skips NaT. */
  function Latest(days: seq<int>): (d: int)
    requires days != []
    ensures d in days && forall x :: x in days ==> x <= d
    decreases |days|
  {
    if |days| == 1 then days[0]
    else
      var rest := Latest(days[1..]);
      assert forall x :: x in days ==> x == days[0] || x in days[1..];
      if days[0] >= rest then days[0] else rest
  }

  /** With the widgets' defaults (every type, the period from the earliest to
      the latest date) an event is shown iff it has a date: when every date
      is present, the whole table is shown. */
  lemma DefaultSelection(events: seq<Event>)
    requires DatesOf(events) != []
    ensures var days := DatesOf(events);
      FilterEvents(events, Unique(TiposOf(events)), Earliest(days), Latest(days)) ==
        Filter(events, seq(|events|, k requires 0 <= k < |events| => events[k].data.Some?))
    ensures (forall k :: 0 <= k < |events| ==> events[k].data.Some?) ==>
      FilterEvents(events, Unique(TiposOf(events)), Earliest(DatesOf(events)), Latest(DatesOf(events))) == events
  {
    var days := DatesOf(events);
    var tipos := Unique(TiposOf(events));
    var mask := SelectMask(events, tipos, Earliest(days), Latest(days));
    var present := seq(|events|, k requires 0 <= k < |events| => events[k].data.Some?);
    forall k | 0 <= k < |events| ensures mask[k] == present[k] {
      assert TiposOf(events)[k] == events[k].tipo;
      if events[k].data.Some? {
        assert events[k].data.value in days;
      }
    }
    assert mask == present;
    if forall k :: 0 <= k < |events| ==> events[k].data.Some? {
      FilterAll(events, present);
    }
  }

  // ---------------------------------------------------------------------------
  // The metrics

  /** `Series.sum()`: the sum of the present values. */
  function Total(events: seq<Event>, field: Event -> Option<real>): real
    decreases |events|
  {
    if events == [] then 0.0
    else (if field(events[0]).Some? then field(events[0]).value else 0.0) + Total(events[1..], field)
  }

  function Vitimas(e: Event): Option<real> {
    e.vitimas
  }

  function Area(e: Event): Option<real> {
    e.area
  }

  /** `int(x)`: truncation toward zero. */
  function Truncate(x: real): (n: int)
    ensures x >= 0.0 ==> n as real <= x < n as real + 1.0
    ensures x < 0.0 ==> n as real - 1.0 < x <= n as real
  {
    if x >= 0.0 then x.Floor else -((-x).Floor)
  }

  /** The three numbers at the top of the page. */
  datatype Metrics = Metrics(eventos: nat, areaTotal: int, vitimas: int)

  function PageMetrics(view: seq<Event>): (m: Metrics)
    ensures m.eventos == |view|
  {
    Metrics(|view|, Truncate(Total(view, Area)), Truncate(Total(view, Vitimas)))
  }

  lemma {:induction false} TotalAppend(a: seq<Event>, b: seq<Event>, field: Event -> Option<real>)
    ensures Total(a + b, field) == Total(a, field) + Total(b, field)
    decreases |a|
  {
    if a == [] {
      assert a + b == b;
    } else {
      assert (a + b)[1..] == a[1..] + b;
      TotalAppend(a[1..], b, field);
    }
  }

  /** The shown events and the hidden ones add up to the table: a total over
      the view is the table's total minus the total of the rows left out. */
  lemma {:induction false} TotalSplit(events: seq<Event>, mask: seq<bool>, field: Event -> Option<real>)
    requires |mask| == |events|
    ensures Total(Filter(events, mask), field) + Total(Filter(events, Negated(mask)), field) == Total(events, field)
    decreases |events|
  {
    if events != [] {
      TotalSplit(events[1..], mask[1..], field);
      assert Negated(mask)[1..] == Negated(mask[1..]);
      var e := events[0];
      TotalAppend(if mask[0] then [e] else [], Filter(events[1..], mask[1..]), field);
      TotalAppend(if mask[0] then [] else [e], Filter(events[1..], Negated(mask)[1..]), field);
    }
  }

  function Negated(mask: seq<bool>): (r: seq<bool>)
    ensures |r| == |mask|
    ensures forall k :: 0 <= k < |mask| ==> r[k] == !mask[k]
  {
    seq(|mask|, k requires 0 <= k < |mask| => !mask[k])
  }

  /** With no negative victim counts, narrowing the selection never raises
      the victims shown. */
  lemma {:induction false} TotalMonotone(events: seq<Event>, mask: seq<bool>)
    requires |mask| == |events|
    requires forall e :: e in events && e.vitimas.Some? ==> e.vitimas.value >= 0.0
    ensures 0.0 <= Total(Filter(events, mask), Vitimas) <= Total(events, Vitimas)
  {
    TotalSplit(events, mask, Vitimas);
    forall e | e in Filter(events, mask) ensures e in events {
      FilterMember(events, mask, e);
    }
    forall e | e in Filter(events, Negated(mask)) ensures e in events {
      FilterMember(events, Negated(mask), e);
    }
    TotalNonNegative(Filter(events, mask));
    TotalNonNegative(Filter(events, Negated(mask)));
  }

  lemma {:induction false} TotalNonNegative(events: seq<Event>)
    requires forall e :: e in events && e.vitimas.Some? ==> e.vitimas.value >= 0.0
    ensures Total(events, Vitimas) >= 0.0
    decreases |events|
  {
    if events != [] {
      assert forall e :: e in events[1..] ==> e in events;
      TotalNonNegative(events[1..]);
    }
  }

  // ---------------------------------------------------------------------------
  // Events per day

  predicate IntLess(a: int, b: int) {
    a < b
  }

  lemma IntLessIsStrictTotalOrder()
    ensures StrictTotalOrder(IntLess)
  {
  }

  /** `groupby("data").size()`: (day, events) for each date present, days
      ascending; NaT dates form no group. */
  function EventsPerDay(view: seq<Event>): seq<(int, nat)> {
    IntLessIsStrictTotalOrder();
    SortedCounts(DatesOf(view), IntLess)
  }

  /** For a table whose every row has a date: one entry per distinct date
      and no other (no zero-filled days), days strictly ascending, each
      count exact and positive, and the counts adding up to the number of
      rows. */
  lemma PerDaySpec(view: seq<Event>)
    requires forall e :: e in view ==> e.data.Some?
    ensures var s := EventsPerDay(view);
      && (forall i, j :: 0 <= i < j < |s| ==> s[i].0 < s[j].0)
      && (forall d :: (exists i :: 0 <= i < |s| && s[i].0 == d) <==> d in DatesOf(view))
      && (forall i :: 0 <= i < |s| ==> s[i].1 == Count(DatesOf(view), s[i].0) && s[i].1 > 0)
      && SumOfCounts(s) == |view|
  {
    IntLessIsStrictTotalOrder();
    SortedCountsSpec(DatesOf(view), IntLess);
    AllDated(view);
  }

  /** The per-day series of the page: the view's rows all have dates, so the
      series counts every shown event. */
  lemma EventsPerDaySpec(events: seq<Event>, tipos: seq<Value>, inicio: int, fim: int)
    ensures SumOfCounts(EventsPerDay(FilterEvents(events, tipos, inicio, fim))) == |FilterEvents(events, tipos, inicio, fim)|
  {
    FilterEventsSpec(events, tipos, inicio, fim);
    PerDaySpec(FilterEvents(events, tipos, inicio, fim));
  }

  /** Every row of a view has a date, so every row is counted. */
  lemma {:induction false} AllDated(view: seq<Event>)
    requires forall e :: e in view ==> e.data.Some?
    ensures |DatesOf(view)| == |view|
    decreases |view|
  {
    if view != [] {
      assert forall e :: e in view[1..] ==> e in view;
      AllDated(view[1..]);
    }
  }
}
