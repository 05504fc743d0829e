/** `load_data`: cleans the parsed table, sorts it by (event, day), and adds per row the
    event's running ticket total, its overall total, the cumulative share, the event's
    sales window and the cohort that window falls in. */
module Loader {
  import opened Wrappers
  import Numeric
  import opened Rows
  import opened Ordering

  /** The sales-window cohorts of `bucket`. */
  datatype Cohort = Short | Medium | Long | Unknown

  /** The `sales_window_group` text `bucket` writes for each cohort. */
  function CohortLabel(c: Cohort): string
  {
    match c
    case Short => "Short (1\U{2013}30)"
    case Medium => "Medium (31\U{2013}90)"
    case Long => "Long (91\U{2013}150+)"
    case Unknown => "Unknown"
  }

  /** The four labels are distinct, so the text column identifies the cohort. */
  lemma CohortLabelInjective(c: Cohort, d: Cohort)
    requires CohortLabel(c) == CohortLabel(d)
    ensures c == d
  {
  }

  /** `bucket(win)`: a missing window is Unknown; the upper bound of each cohort is inclusive. */
  function Bucket(window: Option<real>): (c: Cohort)
    ensures c == Unknown <==> window.None?
    ensures window.Some? ==> Covers(c, window.value)
  {
    match window
    case None => Unknown
    case Some(w) =>
      if w <= 30.0 then Short
      else if w <= 90.0 then Medium
      else Long
  }

  /** The interval of windows each cohort stands for (Unknown stands for none). */
  predicate Covers(c: Cohort, w: real)
  {
    match c
    case Short => w <= 30.0
    case Medium => 30.0 < w <= 90.0
    case Long => 90.0 < w
    case Unknown => false
  }

  /** Position of a cohort from shortest to longest window. */
  function Rank(c: Cohort): nat
  {
    match c
    case Short => 0
    case Medium => 1
    case Long => 2
    case Unknown => 3
  }

  /** Every present window lands in exactly the one cohort whose interval covers it. */
  lemma BucketExact(w: real, c: Cohort)
    ensures Bucket(Some(w)) == c <==> Covers(c, w)
    ensures Bucket(None) == Unknown
  {
  }

  /** A longer window never lands in a shorter cohort. */
  lemma BucketMonotone(v: real, w: real)
    requires v <= w
    ensures Rank(Bucket(Some(v))) <= Rank(Bucket(Some(w))) < Rank(Unknown)
  {
  }

  /** Sum of the daily tickets of the rows of event e (the `transform("sum")` column). */
  function EventTotal(s: seq<Sale>, e: string): real
    decreases |s|
  {
    if s == [] then 0.0
    else EventTotal(s[..|s| - 1], e) + (if s[|s| - 1].event == e then s[|s| - 1].tickets else 0.0)
  }

  /** The `groupby("event_name").cumsum()` value at row i: its event's tickets up to and including row i. */
  function RunningTotal(s: seq<Sale>, i: nat): real
    requires i < |s|
  {
    EventTotal(s[..i + 1], s[i].event)
  }

  /** `cum / total`, where a zero total is replaced by NaN and the NaN share filled with 0. */
  function Share(cum: real, total: real): (r: real)
    ensures total == 0.0 ==> r == 0.0
    ensures total != 0.0 ==> r * total == cum
  {
    if total == 0.0 then 0.0 else cum / total
  }

  /** Largest day among the rows of event e; None when the event has no rows. */
  function MaxDay(s: seq<Sale>, e: string): Option<real>
    decreases |s|
  {
    if s == [] then None
    else
      var m := MaxDay(s[..|s| - 1], e);
      var x := s[|s| - 1];
      if x.event != e then m
      else if m.None? || x.day > m.value then Some(x.day)
      else m
  }

  /** A row of the loaded frame. */
  datatype Row = Row(
    sale: Sale,
    cumTickets: real,
    totalTickets: real,
    cumShare: real,
    salesWindow: Option<real>,
    cohort: Cohort)

  /** The cleaned rows in the order `load_data` leaves them. */
  function Prepared(t: RawTable): seq<Sale>
  {
    SortSales(DropIncomplete(t, t.rows))
  }

  /** rows carry, for each cleaned row of s in turn, the derived columns `load_data` adds. */
  ghost predicate Derived(s: seq<Sale>, rows: seq<Row>)
  {
    && |rows| == |s|
    && forall i :: 0 <= i < |rows| ==>
         && rows[i].sale == s[i]
         && rows[i].cumTickets == RunningTotal(s, i)
         && rows[i].totalTickets == EventTotal(s, s[i].event)
         && rows[i].cumShare == Share(rows[i].cumTickets, rows[i].totalTickets)
         && rows[i].salesWindow == MaxDay(s, s[i].event)
         && rows[i].cohort == Bucket(rows[i].salesWindow)
  }

  lemma EventTotalStep(s: seq<Sale>, i: nat, e: string)
    requires i < |s|
    ensures EventTotal(s[..i + 1], e) == EventTotal(s[..i], e) + (if s[i].event == e then s[i].tickets else 0.0)
  {
    assert s[..i + 1][..i] == s[..i];
  }

  lemma MaxDayStep(s: seq<Sale>, i: nat, e: string)
    requires i < |s|
    ensures MaxDay(s[..i + 1], e) ==
      var m := MaxDay(s[..i], e);
      if s[i].event != e then m
      else if m.None? || s[i].day > m.value then Some(s[i].day)
      else m
  {
    assert s[..i + 1][..i] == s[..i];
  }

  /** First pass over the sorted rows: the running total written at each row, and per event
      the accumulated total and the largest day, kept in maps keyed by event name. */
  method Accumulate(s: seq<Sale>) returns (cum: seq<real>, totals: map<string, real>, windows: map<string, real>)
    ensures |cum| == |s|
    ensures forall j :: 0 <= j < |s| ==> cum[j] == RunningTotal(s, j)
    ensures forall j :: 0 <= j < |s| ==> s[j].event in totals && s[j].event in windows
    ensures forall e :: e in totals ==> totals[e] == EventTotal(s, e)
    ensures forall e :: e in windows ==> MaxDay(s, e) == Some(windows[e])
  {
    cum, totals, windows := [], map[], map[];
    for i := 0 to |s|
      invariant |cum| == i
      invariant forall j :: 0 <= j < i ==> cum[j] == RunningTotal(s, j)
      invariant totals.Keys == windows.Keys
      invariant forall j :: 0 <= j < i ==> s[j].event in totals
      invariant forall e :: e in totals ==> totals[e] == EventTotal(s[..i], e)
      invariant forall e :: e !in totals ==> EventTotal(s[..i], e) == 0.0 && MaxDay(s[..i], e) == None
      invariant forall e :: e in windows ==> MaxDay(s[..i], e) == Some(windows[e])
    {
      var x := s[i];
      forall e | true
        ensures EventTotal(s[..i + 1], e) == EventTotal(s[..i], e) + (if x.event == e then x.tickets else 0.0)
      {
        EventTotalStep(s, i, e);
      }
      forall e | true
        ensures MaxDay(s[..i + 1], e) ==
          var m := MaxDay(s[..i], e);
          if x.event != e then m else if m.None? || x.day > m.value then Some(x.day) else m
      {
        MaxDayStep(s, i, e);
      }
      var before := if x.event in totals then totals[x.event] else 0.0;
      totals := totals[x.event := before + x.tickets];
      windows := windows[x.event := if x.event in windows && windows[x.event] >= x.day then windows[x.event] else x.day];
      cum := cum + [totals[x.event]];
    }
    assert s[..|s|] == s;
  }

  /** The loader: the first pass accumulates per-event totals, the second writes the derived
      columns of every row. */
  method LoadData(t: RawTable) returns (rows: seq<Row>)
    ensures Sorted(Prepared(t))
    ensures Derived(Prepared(t), rows)
  {
    var s := SortSales(DropIncomplete(t, t.rows));
    var cum, totals, windows := Accumulate(s);
    rows := [];
    for i := 0 to |s|
      invariant |rows| == i
      invariant forall j :: 0 <= j < i ==>
        && rows[j].sale == s[j]
        && rows[j].cumTickets == RunningTotal(s, j)
        && rows[j].totalTickets == EventTotal(s, s[j].event)
        && rows[j].cumShare == Share(rows[j].cumTickets, rows[j].totalTickets)
        && rows[j].salesWindow == MaxDay(s, s[j].event)
        && rows[j].cohort == Bucket(rows[j].salesWindow)
    {
      var e := s[i].event;
      var total := totals[e];
      var window := Some(windows[e]);
      rows := rows + [Row(s[i], cum[i], total, Share(cum[i], total), window, Bucket(window))];
    }
  }

  // ---- Properties of the per-event columns ----

  predicate NonNegativeTickets(s: seq<Sale>)
  {
    forall i :: 0 <= i < |s| ==> s[i].tickets >= 0.0
  }

  /** Rows after position k that do not belong to e leave e's total unchanged. */
  lemma {:induction false} EventTotalAfterLast(s: seq<Sale>, e: string, k: nat)
    requires k <= |s|
    requires forall j :: k <= j < |s| ==> s[j].event != e
    ensures EventTotal(s[..k], e) == EventTotal(s, e)
    decreases |s|
  {
    if k < |s| {
      var p := s[..|s| - 1];
      assert p[..k] == s[..k];
      EventTotalAfterLast(p, e, k);
    } else {
      assert s[..k] == s;
    }
  }

  /** With non-negative tickets, a longer prefix never has a smaller event total. */
  lemma {:induction false} EventTotalPrefixMonotone(s: seq<Sale>, e: string, i: nat, j: nat)
    requires NonNegativeTickets(s) && i <= j <= |s|
    ensures 0.0 <= EventTotal(s[..i], e) <= EventTotal(s[..j], e)
    decreases j
  {
    if j == 0 {
      assert s[..0] == [];
    } else {
      EventTotalPrefixMonotone(s, e, if i == j then j - 1 else i, j - 1);
      EventTotalStep(s, j - 1, e);
    }
  }

  /** The event's largest day is present exactly when the event has a row, is the day of one of
      its rows, and is at least the day of each. */
  lemma {:induction false} MaxDayIsMaximum(s: seq<Sale>, e: string)
    ensures MaxDay(s, e).Some? <==> exists j :: 0 <= j < |s| && s[j].event == e
    ensures MaxDay(s, e).Some? ==> exists j :: 0 <= j < |s| && s[j].event == e && s[j].day == MaxDay(s, e).value
    ensures MaxDay(s, e).Some? ==> forall j :: 0 <= j < |s| && s[j].event == e ==> s[j].day <= MaxDay(s, e).value
    decreases |s|
  {
    if s != [] {
      var p := s[..|s| - 1];
      MaxDayIsMaximum(p, e);
      assert forall j :: 0 <= j < |p| ==> p[j] == s[j];
      if MaxDay(p, e).Some? {
        var j :| 0 <= j < |p| && p[j].event == e && p[j].day == MaxDay(p, e).value;
        assert s[j] == p[j];
      }
    }
  }

  /** The running-sum recurrence on the specification function alone. */
  lemma RunningTotalStep(s: seq<Sale>, j: nat)
    requires j < |s|
    ensures (forall i :: 0 <= i < j ==> s[i].event != s[j].event) ==>
      RunningTotal(s, j) == s[j].tickets
    ensures forall i ::
      (0 <= i < j && s[i].event == s[j].event && (forall k :: i < k < j ==> s[k].event != s[j].event)) ==>
      RunningTotal(s, j) == RunningTotal(s, i) + s[j].tickets
  {
    var e := s[j].event;
    var p := s[..j];
    EventTotalStep(s, j, e);
    if forall i :: 0 <= i < j ==> s[i].event != e {
      EventTotalAfterLast(p, e, 0);
      assert p[..0] == [];
    }
    forall i | 0 <= i < j && s[i].event == e && (forall k :: i < k < j ==> s[k].event != e)
      ensures RunningTotal(s, j) == RunningTotal(s, i) + s[j].tickets
    {
      EventTotalAfterLast(p, e, i + 1);
      assert p[..i + 1] == s[..i + 1];
    }
  }

  /** `cum_tickets` is a running sum: a row's value is the previous row of its event's value plus
      its own tickets, or just its own tickets for the event's first row. */
  lemma CumTicketsRunningSum(s: seq<Sale>, rows: seq<Row>, j: nat)
    requires Derived(s, rows) && j < |s|
    ensures (forall i :: 0 <= i < j ==> s[i].event != s[j].event) ==>
      rows[j].cumTickets == s[j].tickets
    ensures forall i ::
      (0 <= i < j && s[i].event == s[j].event && (forall k :: i < k < j ==> s[k].event != s[j].event)) ==>
      rows[j].cumTickets == rows[i].cumTickets + s[j].tickets
  {
    RunningTotalStep(s, j);
  }

  lemma DivideBelowOne(a: real, t: real)
    requires 0.0 <= a <= t && t > 0.0
    ensures 0.0 <= a / t <= 1.0
  {
    Numeric.DivideMonotone(a, t, t);
    Numeric.DivideMonotone(0.0, a, t);
    assert t / t == 1.0;
  }

  /** With non-negative tickets the share lies in [0, 1], and it is 0 throughout an event whose
      total is 0. */
  lemma ShareInUnitInterval(s: seq<Sale>, rows: seq<Row>, i: nat)
    requires Derived(s, rows) && NonNegativeTickets(s) && i < |s|
    ensures 0.0 <= rows[i].cumTickets <= rows[i].totalTickets
    ensures 0.0 <= rows[i].cumShare <= 1.0
    ensures rows[i].totalTickets == 0.0 ==> rows[i].cumShare == 0.0
  {
    EventTotalPrefixMonotone(s, s[i].event, i + 1, |s|);
    assert s[..|s|] == s;
    var c, t := rows[i].cumTickets, rows[i].totalTickets;
    if t != 0.0 {
      DivideBelowOne(c, t);
    }
  }

  /** The divide-by-zero guard: whatever the sign of the tickets, a row whose event total is 0
      gets share 0 rather than NaN. */
  lemma ZeroTotalShareIsZero(s: seq<Sale>, rows: seq<Row>, i: nat)
    requires Derived(s, rows) && i < |s|
    ensures rows[i].totalTickets == 0.0 ==> rows[i].cumShare == 0.0
    ensures rows[i].totalTickets != 0.0 ==> rows[i].cumShare * rows[i].totalTickets == rows[i].cumTickets
  {
  }

  /** The last row of an event with a non-zero total has share exactly 1. */
  lemma LastRowShareIsOne(s: seq<Sale>, rows: seq<Row>, i: nat)
    requires Derived(s, rows) && i < |s|
    requires forall j :: i < j < |s| ==> s[j].event != s[i].event
    requires rows[i].totalTickets != 0.0
    ensures rows[i].cumTickets == rows[i].totalTickets
    ensures rows[i].cumShare == 1.0
  {
    EventTotalAfterLast(s, s[i].event, i + 1);
    ShareOfWhole(rows[i].totalTickets);
  }

  lemma ShareOfWhole(t: real)
    requires t != 0.0
    ensures Share(t, t) == 1.0
  {
    if t < 0.0 {
      assert t / t == (-t) / (-t);
    }
  }

  /** With non-negative tickets the share never drops from one row of an event to a later one. */
  lemma ShareNonDecreasing(s: seq<Sale>, rows: seq<Row>, i: nat, j: nat)
    requires Derived(s, rows) && NonNegativeTickets(s)
    requires i <= j < |s| && s[i].event == s[j].event
    ensures rows[i].cumTickets <= rows[j].cumTickets
    ensures rows[i].cumShare <= rows[j].cumShare
  {
    EventTotalPrefixMonotone(s, s[i].event, i + 1, j + 1);
    var t := rows[i].totalTickets;
    if t != 0.0 {
      ShareInUnitInterval(s, rows, i);
      Numeric.DivideMonotone(rows[i].cumTickets, rows[j].cumTickets, t);
    }
  }

  /** After loading, an event's share never drops as days since on-sale grow. */
  lemma ShareNonDecreasingInDay(t: RawTable, rows: seq<Row>, i: nat, j: nat)
    requires Derived(Prepared(t), rows) && NonNegativeTickets(Prepared(t))
    requires i < |rows| && j < |rows|
    requires rows[i].sale.event == rows[j].sale.event && rows[i].sale.day < rows[j].sale.day
    ensures rows[i].cumShare <= rows[j].cumShare
  {
    var s := Prepared(t);
    SortedSameEventByDay(s, i, j);
    ShareNonDecreasing(s, rows, i, j);
  }

  /** Every loaded row carries its event's largest day as `event_sales_window`, so its cohort is
      never Unknown and is the one covering that day. */
  lemma WindowIsEventMaximum(s: seq<Sale>, rows: seq<Row>, i: nat)
    requires Derived(s, rows) && i < |s|
    ensures rows[i].salesWindow.Some?
    ensures forall j :: 0 <= j < |s| && s[j].event == s[i].event ==> s[j].day <= rows[i].salesWindow.value
    ensures exists j :: 0 <= j < |s| && s[j].event == s[i].event && s[j].day == rows[i].salesWindow.value
    ensures rows[i].cohort != Unknown && Covers(rows[i].cohort, rows[i].salesWindow.value)
  {
    MaxDayIsMaximum(s, s[i].event);
  }
}
