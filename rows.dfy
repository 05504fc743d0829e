/** The rows of the ticket-sales table, as parsed and as cleaned by the loader. */
module Rows {
  import opened Wrappers

  /** One parsed row of the CSV. A numeric cell that did not coerce to a number is None;
      the text cells are only read when the table has that column. */
  datatype RawRow = RawRow(
    eventName: string,
    daysSinceOnsale: Option<real>,
    dailyTickets: Option<real>,
    tier: string,
    giveaway: string,
    dayOfSale: string)

  /** The parsed table: its rows and which of the optional columns it has. */
  datatype RawTable = RawTable(
    rows: seq<RawRow>,
    hasEventName: bool,
    hasTier: bool,
    hasGiveaway: bool,
    hasDayOfSale: bool)

  /** A row that survived cleaning: both numeric cells present, every column filled. */
  datatype Sale = Sale(
    event: string,
    day: real,
    tickets: real,
    tier: string,
    giveaway: string,
    dayOfSale: string)

  /** The categorical columns that weights are computed for. */
  datatype Dimension = TierDim | GiveawayDim | DayOfSaleDim

  function Category(s: Sale, d: Dimension): string
  {
    match d
    case TierDim => s.tier
    case GiveawayDim => s.giveaway
    case DayOfSaleDim => s.dayOfSale
  }

  // Values a missing column is filled with.
  const DefaultEvent: string := "Unknown_Event"
  const DefaultTier: string := "Unknown"
  const DefaultGiveaway: string := "None"
  const DefaultDayOfSale: string := "Unknown"

  /** A row that `dropna` on the two numeric columns keeps. */
  predicate Complete(r: RawRow)
  {
    r.daysSinceOnsale.Some? && r.dailyTickets.Some?
  }

  /** A kept row with every absent column replaced by its default. */
  function ToSale(t: RawTable, r: RawRow): Sale
    requires Complete(r)
  {
    Sale(
      if t.hasEventName then r.eventName else DefaultEvent,
      r.daysSinceOnsale.value,
      r.dailyTickets.value,
      if t.hasTier then r.tier else DefaultTier,
      if t.hasGiveaway then r.giveaway else DefaultGiveaway,
      if t.hasDayOfSale then r.dayOfSale else DefaultDayOfSale)
  }

  /** The positions of the complete rows, in increasing order: every listed position holds a
      complete row, and every complete row's position is listed. */
  function CompleteIndices(rows: seq<RawRow>): (ix: seq<nat>)
    ensures forall j :: 0 <= j < |ix| ==> ix[j] < |rows| && Complete(rows[ix[j]])
    ensures forall j, k :: 0 <= j < k < |ix| ==> ix[j] < ix[k]
    ensures forall i :: 0 <= i < |rows| && Complete(rows[i]) ==> i in ix
  {
    if rows == [] then []
    else
      var n := |rows| - 1;
      var rest := CompleteIndices(rows[..n]);
      assert forall i :: 0 <= i < n ==> rows[..n][i] == rows[i];
      if Complete(rows[n]) then rest + [n] else rest
  }

  /** `dropna(subset=["days_since_onsale", "daily_tickets"])` with the column defaults applied:
      the j-th kept row is the j-th complete row, so exactly the complete rows are kept, each
      as often as it occurs and in their order. */
  function DropIncomplete(t: RawTable, rows: seq<RawRow>): (s: seq<Sale>)
    ensures |s| == |CompleteIndices(rows)|
    ensures forall j :: 0 <= j < |s| ==> s[j] == ToSale(t, rows[CompleteIndices(rows)[j]])
  {
    if rows == [] then []
    else
      var n := |rows| - 1;
      var rest := DropIncomplete(t, rows[..n]);
      assert CompleteIndices(rows) == CompleteIndices(rows[..n]) + (if Complete(rows[n]) then [n] else []);
      assert forall j :: 0 <= j < |rest| ==> CompleteIndices(rows[..n])[j] < n;
      if Complete(rows[n]) then rest + [ToSale(t, rows[n])] else rest
  }

  /** When no numeric cell is missing, `dropna` keeps every row: the j-th kept row is row j. */
  lemma {:induction false} AllCompleteKeepsAll(t: RawTable, rows: seq<RawRow>)
    requires forall i :: 0 <= i < |rows| ==> Complete(rows[i])
    ensures |DropIncomplete(t, rows)| == |rows|
    ensures forall j :: 0 <= j < |rows| ==> DropIncomplete(t, rows)[j] == ToSale(t, rows[j])
  {
    if rows != [] {
      var n := |rows| - 1;
      AllCompleteKeepsAll(t, rows[..n]);
      assert CompleteIndices(rows) == CompleteIndices(rows[..n]) + [n];
    }
  }
}
