/**
 * The point-in-time panel of `get_panel`: cross every observation date with
 * every fetched revision record, keep the pairs whose realtime period holds
 * the observation date, keep per observation date the `window` latest
 * records, number them latest first, and lay the result out as a long table
 * keyed by (observation date, periods back).
 */
module PanelBuilder {
  import opened FredTypes
  import opened Ordering

  /** One row of the long table: the cell (value, date) reported
      `periodsBack` places back as of `observationDate`. */
  datatype PanelRow = PanelRow(observationDate: Date, periodsBack: nat, value: string, date: Date)

  /** An observation date sees a record when it falls inside the record's
      realtime period, both ends included. */
  predicate Sees(d: Date, rec: Observation)
  {
    rec.realtimeStart <= d <= rec.realtimeEnd
  }

  predicate Qualifies(p: Pair)
  {
    Sees(p.observationDate, p.record)
  }

  // ---------------------------------------------------------------------
  // Join

  function Pairs(d: Date, records: seq<Observation>): (r: seq<Pair>)
    ensures |r| == |records|
    ensures forall i :: 0 <= i < |r| ==> r[i] == Pair(d, records[i])
    ensures forall p :: p in r <==> p.observationDate == d && p.record in records
  {
    if records == [] then []
    else [Pair(d, records[0])] + Pairs(d, records[1..])
  }

  /** The cross product, observation dates outermost, each date paired with
      every record in fetch order. */
  function Cross(dates: seq<Date>, records: seq<Observation>): (r: seq<Pair>)
    ensures |r| == |dates| * |records|
    ensures forall p :: p in r <==> p.observationDate in dates && p.record in records
  {
    if dates == [] then []
    else
      var rest := Cross(dates[1..], records);
      assert |dates| * |records| == |records| + (|dates| - 1) * |records|;
      assert forall d :: d in dates <==> d == dates[0] || d in dates[1..];
      Pairs(dates[0], records) + rest
  }

  // ---------------------------------------------------------------------
  // Filter and group

  /** The pairs whose observation date lies in the record's realtime period,
      in their original order. */
  function Visible(pairs: seq<Pair>): (r: seq<Pair>)
    ensures forall p {:trigger multiset(r)[p]} :: multiset(r)[p] == if Qualifies(p) then multiset(pairs)[p] else 0
  {
    if pairs == [] then []
    else
      assert pairs == [pairs[0]] + pairs[1..];
      (if Qualifies(pairs[0]) then [pairs[0]] else []) + Visible(pairs[1..])
  }

  /** The pairs of one observation date, in their original order. */
  function GroupOf(pairs: seq<Pair>, d: Date): (g: seq<Pair>)
    ensures forall p {:trigger multiset(g)[p]} :: multiset(g)[p] == if p.observationDate == d then multiset(pairs)[p] else 0
  {
    if pairs == [] then []
    else
      assert pairs == [pairs[0]] + pairs[1..];
      (if pairs[0].observationDate == d then [pairs[0]] else []) + GroupOf(pairs[1..], d)
  }

  // ---------------------------------------------------------------------
  // Window and rank

  lemma SplitMultiset(s: seq<Pair>, k: nat)
    requires k <= |s|
    ensures multiset(s[..k]) <= multiset(s)
    ensures multiset(s) - multiset(s[..k]) == multiset(s[k..])
  {
    assert s == s[..k] + s[k..];
  }

  /** The window step for one observation date: skipped when `window` is 0;
      otherwise the `window` records with the largest `date` (none at all for
      a negative window), ties going to the record fetched first. It keeps
      only records of the group: all of them for window 0, none for a
      negative window, min(window, k) of k for a positive one. */
  function Window(group: seq<Pair>, window: int): (kept: seq<Pair>)
    ensures multiset(kept) <= multiset(group)
    ensures |kept| == if window < 0 then 0 else if window == 0 then |group| else Min(window, |group|)
  {
    if window == 0 then group
    else if window < 0 then []
    else
      var sorted := SortByDate(group);
      SplitMultiset(sorted, Min(window, |sorted|));
      sorted[..Min(window, |sorted|)]
  }

  /** The rank step for one observation date: the kept records sorted latest
      first and numbered 1, 2, ... One row per kept record, all of date `d`,
      latest `date` first. */
  function Rank(d: Date, kept: seq<Pair>): (rows: seq<PanelRow>)
    ensures |rows| == |kept|
    ensures forall i :: 0 <= i < |rows| ==> rows[i].observationDate == d && rows[i].periodsBack == i + 1
    ensures forall i, j :: 0 <= i < j < |rows| ==> rows[j].date <= rows[i].date
  {
    var sorted := SortByDate(kept);
    seq(|sorted|, i requires 0 <= i < |sorted| =>
      PanelRow(d, i + 1, sorted[i].record.value, sorted[i].record.date))
  }

  /** The (value, date) cell a pair reports. */
  function CellOf(p: Pair): (string, Date)
  {
    (p.record.value, p.record.date)
  }

  function Reported(pairs: seq<Pair>): seq<(string, Date)>
  {
    seq(|pairs|, i requires 0 <= i < |pairs| => CellOf(pairs[i]))
  }

  function Cells(rows: seq<PanelRow>): seq<(string, Date)>
  {
    seq(|rows|, i requires 0 <= i < |rows| => (rows[i].value, rows[i].date))
  }

  // ---------------------------------------------------------------------
  // The whole panel

  /** The rows of one observation date: every one carries that date. */
  function DateRows(d: Date, visible: seq<Pair>, window: int): (rows: seq<PanelRow>)
    ensures forall row :: row in rows ==> row.observationDate == d
  {
    var rows := Rank(d, Window(GroupOf(visible, d), window));
    assert forall row :: row in rows ==> exists i :: 0 <= i < |rows| && rows[i] == row;
    rows
  }

  /** The rows of every key in turn: each row carries one of the keys. */
  function Assemble(keys: seq<Date>, visible: seq<Pair>, window: int): (rows: seq<PanelRow>)
    ensures forall row :: row in rows ==> row.observationDate in keys
  {
    if keys == [] then []
    else
      assert forall k :: k in keys[1..] ==> k in keys;
      DateRows(keys[0], visible, window) + Assemble(keys[1..], visible, window)
  }

  /** The long form of the panel: observation dates ascending, and within
      one date the rows by `periodsBack` ascending. Every row is of a
      requested observation date. */
  function BuildPanel(dates: seq<Date>, records: seq<Observation>, window: int): (rows: seq<PanelRow>)
    ensures forall row :: row in rows ==> row.observationDate in dates
  {
    Assemble(GroupKeys(dates), Visible(Cross(dates, records)), window)
  }

  /** The rows of a table that belong to observation date `d`. */
  function RowsFor(rows: seq<PanelRow>, d: Date): (r: seq<PanelRow>)
  {
    if rows == [] then []
    else (if rows[0].observationDate == d then [rows[0]] else []) + RowsFor(rows[1..], d)
  }

  predicate KeyBefore(a: PanelRow, b: PanelRow)
  {
    a.observationDate < b.observationDate
    || (a.observationDate == b.observationDate && a.periodsBack < b.periodsBack)
  }

  predicate KeyOrdered(rows: seq<PanelRow>)
  {
    forall i, j :: 0 <= i < j < |rows| ==> KeyBefore(rows[i], rows[j])
  }
}
