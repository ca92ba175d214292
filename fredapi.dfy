/**
 * The client's two public operations: series search, and the point-in-time
 * panel of one series. HTTP requests are replaced by the response (search)
 * or by the stub server of module Pagination (panel).
 */
module FredApi {
  import opened FredTypes
  import opened Metadata
  import opened Pagination
  import opened Ordering
  import opened PanelBuilder
  import opened PanelProperties

  /** The realtime range a panel request asks for: from the earliest to the
      latest observation date. There is none for no dates (the earliest of
      no dates cannot be formatted as a day). */
  function RequestRange(dates: seq<Date>): (r: Result<(Date, Date)>)
    ensures r.Failure? <==> dates == []
    ensures r.Failure? ==> r.error == NoObservationDates
    ensures r.Success? ==> r.value.0 in dates && r.value.1 in dates
    ensures r.Success? ==> forall d :: d in dates ==> r.value.0 <= d <= r.value.1
  {
    if dates == [] then Failure(NoObservationDates)
    else if |dates| == 1 then Success((dates[0], dates[0]))
    else
      var rest := RequestRange(dates[1..]).value;
      assert forall d :: d in dates ==> d == dates[0] || d in dates[1..];
      Success((Min(dates[0], rest.0), if dates[0] < rest.1 then rest.1 else dates[0]))
  }

  /** A record's realtime period overlaps the requested range. */
  predicate Overlaps(rec: Observation, lo: Date, hi: Date)
  {
    rec.realtimeStart <= hi && lo <= rec.realtimeEnd
  }

  /** The records of a history whose realtime period overlaps [lo, hi], in
      order: what the service returns for that range. */
  function InRange(records: seq<Observation>, lo: Date, hi: Date): seq<Observation>
  {
    if records == [] then []
    else (if Overlaps(records[0], lo, hi) then [records[0]] else []) + InRange(records[1..], lo, hi)
  }

  lemma {:induction false} VisibleConcat(a: seq<Pair>, b: seq<Pair>)
    ensures Visible(a + b) == Visible(a) + Visible(b)
  {
    if a == [] {
      assert a + b == b;
    } else {
      var head := if Qualifies(a[0]) then [a[0]] else [];
      assert (a + b)[0] == a[0];
      assert (a + b)[1..] == a[1..] + b;
      VisibleConcat(a[1..], b);
      assert Visible(a + b) == head + (Visible(a[1..]) + Visible(b));
      assert Visible(a) == head + Visible(a[1..]);
    }
  }

  lemma {:induction false} InRangeSameVisible(d: Date, records: seq<Observation>, lo: Date, hi: Date)
    requires lo <= d <= hi
    ensures Visible(Pairs(d, InRange(records, lo, hi))) == Visible(Pairs(d, records))
  {
    if records != [] {
      var head := if Overlaps(records[0], lo, hi) then [records[0]] else [];
      assert InRange(records, lo, hi) == head + InRange(records[1..], lo, hi);
      PairsConcat(d, head, InRange(records[1..], lo, hi));
      PairsConcat(d, [records[0]], records[1..]);
      assert records == [records[0]] + records[1..];
      VisibleConcat(Pairs(d, head), Pairs(d, InRange(records[1..], lo, hi)));
      VisibleConcat(Pairs(d, [records[0]]), Pairs(d, records[1..]));
      InRangeSameVisible(d, records[1..], lo, hi);
    }
  }

  lemma {:induction false} PairsConcat(d: Date, a: seq<Observation>, b: seq<Observation>)
    ensures Pairs(d, a + b) == Pairs(d, a) + Pairs(d, b)
  {
    if a == [] {
      assert a + b == b;
    } else {
      assert (a + b)[0] == a[0];
      assert (a + b)[1..] == a[1..] + b;
      PairsConcat(d, a[1..], b);
    }
  }

  /** Asking only for the records whose realtime period overlaps [earliest,
      latest observation date] loses nothing: the panel built from them is
      the panel built from the whole history. */
  lemma {:induction false} RequestRangeSuffices(dates: seq<Date>, records: seq<Observation>, window: int, lo: Date, hi: Date)
    requires forall d :: d in dates ==> lo <= d <= hi
    ensures BuildPanel(dates, InRange(records, lo, hi), window) == BuildPanel(dates, records, window)
  {
    CrossInRange(dates, records, lo, hi);
  }

  lemma {:induction false} CrossInRange(dates: seq<Date>, records: seq<Observation>, lo: Date, hi: Date)
    requires forall d :: d in dates ==> lo <= d <= hi
    ensures Visible(Cross(dates, InRange(records, lo, hi))) == Visible(Cross(dates, records))
  {
    if dates != [] {
      var served := InRange(records, lo, hi);
      assert dates[0] in dates;
      VisibleConcat(Pairs(dates[0], served), Cross(dates[1..], served));
      VisibleConcat(Pairs(dates[0], records), Cross(dates[1..], records));
      InRangeSameVisible(dates[0], records, lo, hi);
      assert forall d :: d in dates[1..] ==> d in dates;
      CrossInRange(dates[1..], records, lo, hi);
    }
  }

  /** Every row pairs a requested date with a record of the history in
      force on that date, and reports that record's value and date. */
  predicate RowsFromHistory(rows: seq<PanelRow>, dates: seq<Date>, history: seq<Observation>)
  {
    forall row :: row in rows ==> RowFrom(row, dates, history)
  }

  /** Every row of the panel built from a prefix of a history pairs a
      requested date with a record of that history visible at the date. */
  lemma PrefixPanelIsVisible(dates: seq<Date>, records: seq<Observation>, history: seq<Observation>, window: int)
    requires records <= history
    ensures RowsFromHistory(BuildPanel(dates, records, window), dates, history)
  {
    forall row | row in BuildPanel(dates, records, window)
      ensures RowFrom(row, dates, history)
    {
      PanelRowsAreVisible(dates, records, window, row);
      var rec :| rec in records && Sees(row.observationDate, rec) && rec.value == row.value && rec.date == row.date;
      var k :| 0 <= k < |records| && records[k] == rec;
      assert history[k] == rec;
    }
  }

  /** Series search: the `seriess` listing as the table, every other
      top-level field of the response as its attributes. */
  method SearchSeries<Row>(response: map<string, Json<Row>>) returns (r: Result<Frame<Row, Json<Row>>>)
    ensures "seriess" !in response ==> r == Failure(MissingKey("seriess"))
    ensures "seriess" in response && !response["seriess"].JRows? ==> r == Failure(NotATable("seriess"))
    ensures "seriess" in response && response["seriess"].JRows? ==>
              && r.Success?
              && r.value.rows == response["seriess"].rows
              && r.value.attrs == Sidecar(response, "seriess")
  {
    if "seriess" !in response {
      return Failure(MissingKey("seriess"));
    }
    if !response["seriess"].JRows? {
      return Failure(NotATable("seriess"));
    }
    var table := response["seriess"].rows;
    var metadata := Sidecar(response, "seriess");
    var attrs := AttachAttributes(map[], metadata);
    r := Success(Frame(table, attrs));
  }

  /** The point-in-time panel of one series: fetch every page of its
      revision history, build the panel for `observationDates` and `window`,
      and attach the first response's sidecar as attributes. */
  method GetPanel(s: Server, observationDates: seq<Date>, window: int := 24)
    returns (r: Result<Frame<PanelRow, Json<Observation>>>)
    requires PagesSuffice(s)
    ensures r.Failure? <==> observationDates == [] || !DeclaresCount(s) || s.history == [] || s.limit == 0
    ensures observationDates == [] ==> r == Failure(NoObservationDates)
    ensures observationDates != [] && !DeclaresCount(s) ==>
              r == Failure(if "count" in s.fields then CountNotInteger else MissingKey("count"))
    ensures observationDates != [] && DeclaresCount(s) && (s.history == [] || s.limit == 0) ==>
              r == Failure(MissingDateColumns)
    ensures r.Success? ==> r.value.attrs == Sidecar(s.fields, "observations")
    ensures r.Success? && s.fields["count"].i == |s.history| ==>
              r.value.rows == BuildPanel(observationDates, s.history, window)
    ensures r.Success? ==> RowsFromHistory(r.value.rows, observationDates, s.history)
  {
    var range := RequestRange(observationDates);
    if range.Failure? {
      return Failure(range.error);
    }
    var fetched := FetchObservations(s);
    if fetched.Failure? {
      return Failure(fetched.error);
    }
    var records := fetched.value.records;
    if records == [] {
      return Failure(MissingDateColumns);
    }
    var rows := BuildPanel(observationDates, records, window);
    assert RowsFromHistory(rows, observationDates, s.history) by {
      PrefixPanelIsVisible(observationDates, records, s.history, window);
    }
    var attrs := AttachAttributes(map[], fetched.value.metadata);
    assert attrs == Sidecar(s.fields, "observations") by {
      OntoNothing(fetched.value.metadata);
    }
    assert s.fields["count"].i == |s.history| ==> records == s.history;
    r := Success(Frame(rows, attrs));
  }
}
