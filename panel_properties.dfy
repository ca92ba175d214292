/**
 * What the panel promises: only visible (date, record) pairs reach it, the
 * filter is inclusive at both ends, a date that sees nothing contributes
 * nothing, the window keeps the latest records and nothing else, ranks run
 * 1..k latest first, and the keys (observation date, periods back) are
 * unique.
 */
module PanelProperties {
  import opened FredTypes
  import opened Ordering
  import opened PanelBuilder

  // ---------------------------------------------------------------------
  // Join and filter

  /** A pair survives the join and the filter exactly when its date is a
      requested observation date, its record was fetched, and the date lies
      in the record's realtime period, both ends included. */
  lemma VisibleIffInclusive(dates: seq<Date>, records: seq<Observation>, p: Pair)
    ensures p in Visible(Cross(dates, records)) <==>
              && p.observationDate in dates
              && p.record in records
              && p.record.realtimeStart <= p.observationDate <= p.record.realtimeEnd
  {
    var cross := Cross(dates, records);
    assert p in Visible(cross) <==> p in multiset(Visible(cross));
    assert p in cross <==> p in multiset(cross);
  }

  /** The group of observation date `d` is exactly the visible pairs of `d`. */
  lemma GroupIffQualifying(dates: seq<Date>, records: seq<Observation>, d: Date, p: Pair)
    ensures p in GroupOf(Visible(Cross(dates, records)), d) <==>
              && p.observationDate == d
              && d in dates
              && p.record in records
              && Sees(d, p.record)
  {
    var visible := Visible(Cross(dates, records));
    assert p in GroupOf(visible, d) <==> p in multiset(GroupOf(visible, d));
    assert p in visible <==> p in multiset(visible);
    VisibleIffInclusive(dates, records, p);
  }

  lemma {:induction false} PairsCount(d: Date, records: seq<Observation>, p: Pair)
    ensures multiset(Pairs(d, records))[p] == if p.observationDate == d then multiset(records)[p.record] else 0
  {
    if records != [] {
      assert records == [records[0]] + records[1..];
      assert Pairs(d, records) == [Pair(d, records[0])] + Pairs(d, records[1..]);
      PairsCount(d, records[1..], p);
    }
  }

  /** The cross merge pairs every occurrence of a date with every occurrence
      of a record: a pair occurs (occurrences of its date) times
      (occurrences of its record) times. */
  lemma {:induction false} CrossCount(dates: seq<Date>, records: seq<Observation>, p: Pair)
    ensures multiset(Cross(dates, records))[p] == multiset(dates)[p.observationDate] * multiset(records)[p.record]
  {
    if dates != [] {
      var first := Pairs(dates[0], records);
      var rest := Cross(dates[1..], records);
      var c := if p.observationDate == dates[0] then 1 else 0;
      var k := multiset(dates[1..])[p.observationDate];
      var m := multiset(records)[p.record];
      assert multiset(Cross(dates, records))[p] == multiset(first)[p] + multiset(rest)[p] by {
        assert Cross(dates, records) == first + rest;
      }
      assert multiset(first)[p] == if c == 1 then m else 0 by {
        PairsCount(dates[0], records, p);
      }
      assert multiset(rest)[p] == k * m by {
        CrossCount(dates[1..], records, p);
      }
      DateCountCons(dates, p.observationDate);
      Distribute(c, k, multiset(dates)[p.observationDate], m);
    }
  }

  lemma DateCountCons(dates: seq<Date>, x: Date)
    requires dates != []
    ensures multiset(dates)[x] == (if x == dates[0] then 1 else 0) + multiset(dates[1..])[x]
  {
    assert dates == [dates[0]] + dates[1..];
  }

  lemma Distribute(c: nat, k: nat, n: nat, m: nat)
    requires c <= 1 && n == c + k
    ensures (if c == 1 then m else 0) + k * m == n * m
  {
  }

  /** The group of `d` holds a record in force on `d` once for every
      occurrence of `d` among the dates and of the record among the fetched
      records, and a record not in force on `d` not at all. */
  lemma GroupCount(dates: seq<Date>, records: seq<Observation>, d: Date, rec: Observation)
    ensures multiset(GroupOf(Visible(Cross(dates, records)), d))[Pair(d, rec)]
            == if Sees(d, rec) then multiset(dates)[d] * multiset(records)[rec] else 0
  {
    CrossCount(dates, records, Pair(d, rec));
  }

  lemma EmptyGroup(pairs: seq<Pair>, d: Date)
    requires forall p :: p in pairs ==> p.observationDate != d
    ensures GroupOf(pairs, d) == []
  {
  }

  // ---------------------------------------------------------------------
  // Window

  /** With a positive window every record dropped has a `date` no later
      than every record kept: the window keeps the latest records. */
  lemma WindowIsTopK(group: seq<Pair>, window: int)
    requires 0 < window
    ensures forall a, b :: a in Window(group, window) && b in multiset(group) - multiset(Window(group, window))
                           ==> b.record.date <= a.record.date
  {
    var sorted := SortByDate(group);
    var k := Min(window, |sorted|);
    assert Window(group, window) == sorted[..k];
    SplitMultiset(sorted, k);
    SplitLatestFirst(sorted, k);
  }

  /** Cutting a latest-first sequence leaves every record after the cut no
      later than every record before it. */
  lemma SplitLatestFirst(s: seq<Pair>, k: nat)
    requires LatestFirst(s) && k <= |s|
    ensures forall a, b :: a in s[..k] && b in s[k..] ==> b.record.date <= a.record.date
  {
    forall a, b | a in s[..k] && b in s[k..]
      ensures b.record.date <= a.record.date
    {
      var i :| 0 <= i < k && s[..k][i] == a;
      var j :| 0 <= j < |s| - k && s[k..][j] == b;
      assert s[i] == a && s[k + j] == b;
    }
  }

  // ---------------------------------------------------------------------
  // Rank

  lemma {:induction false} ReportedConcat(a: seq<Pair>, b: seq<Pair>)
    ensures Reported(a + b) == Reported(a) + Reported(b)
  {
  }

  /** Projecting two permutations of each other onto their cells gives two
      permutations of each other. */
  lemma {:induction false} ReportedPermutation(a: seq<Pair>, b: seq<Pair>)
    requires multiset(a) == multiset(b)
    ensures multiset(Reported(a)) == multiset(Reported(b))
  {
    if a != [] {
      var x := a[0];
      assert x in multiset(b);
      var k :| 0 <= k < |b| && b[k] == x;
      var rest := b[..k] + b[k + 1..];
      assert b == b[..k] + [x] + b[k + 1..];
      assert a == [x] + a[1..];
      assert multiset(b) == multiset(b[..k]) + multiset{x} + multiset(b[k + 1..]);
      assert multiset(a) == multiset{x} + multiset(a[1..]);
      assert multiset(rest) == multiset(b[..k]) + multiset(b[k + 1..]);
      assert multiset(rest) == multiset(b) - multiset{x};
      assert multiset(a[1..]) == multiset(a) - multiset{x};
      ReportedPermutation(a[1..], rest);
      ReportedConcat([x], a[1..]);
      ReportedConcat(b[..k] + [x], b[k + 1..]);
      ReportedConcat(b[..k], [x]);
      ReportedConcat(b[..k], b[k + 1..]);
    }
  }

  /** In the rank of one observation date a record with a strictly later
      `date` gets a strictly smaller number, and the rows report exactly the
      kept records' cells, each as often as it is kept. */
  lemma RankIsPermutation(d: Date, kept: seq<Pair>)
    ensures var rows := Rank(d, kept);
            forall i, j :: 0 <= i < |rows| && 0 <= j < |rows| && rows[j].date < rows[i].date
              ==> rows[i].periodsBack < rows[j].periodsBack
    ensures multiset(Cells(Rank(d, kept))) == multiset(Reported(kept))
  {
    var sorted := SortByDate(kept);
    var rows := Rank(d, kept);
    assert Cells(rows) == Reported(sorted);
    ReportedPermutation(sorted, kept);
  }

  /** A cell reported by some pairs comes from one of them. */
  lemma CellFrom(pairs: seq<Pair>, c: (string, Date))
    requires c in multiset(Reported(pairs))
    ensures exists p :: p in pairs && CellOf(p) == c
  {
    var k :| 0 <= k < |Reported(pairs)| && Reported(pairs)[k] == c;
    assert pairs[k] in pairs;
  }

  // ---------------------------------------------------------------------
  // Selecting one observation date's rows

  lemma {:induction false} RowsForConcat(a: seq<PanelRow>, b: seq<PanelRow>, d: Date)
    ensures RowsFor(a + b, d) == RowsFor(a, d) + RowsFor(b, d)
  {
    if a != [] {
      assert (a + b)[0] == a[0];
      assert (a + b)[1..] == a[1..] + b;
      RowsForConcat(a[1..], b, d);
    } else {
      assert a + b == b;
    }
  }

  lemma {:induction false} RowsForUniform(rows: seq<PanelRow>, d: Date)
    ensures (forall r :: r in rows ==> r.observationDate == d) ==> RowsFor(rows, d) == rows
    ensures (forall r :: r in rows ==> r.observationDate != d) ==> RowsFor(rows, d) == []
  {
    if rows != [] {
      assert forall r :: r in rows[1..] ==> r in rows;
      RowsForUniform(rows[1..], d);
    }
  }

  lemma {:induction false} RowsForHolds(rows: seq<PanelRow>, d: Date, row: PanelRow)
    requires row in rows && row.observationDate == d
    ensures row in RowsFor(rows, d)
  {
    if rows[0] != row {
      RowsForHolds(rows[1..], d, row);
    }
  }

  lemma {:induction false} AssembleRowsFor(keys: seq<Date>, visible: seq<Pair>, window: int, d: Date)
    requires Ascending(keys)
    ensures RowsFor(Assemble(keys, visible, window), d) == if d in keys then DateRows(d, visible, window) else []
  {
    if keys != [] {
      var block := DateRows(keys[0], visible, window);
      var rest := Assemble(keys[1..], visible, window);
      AssembleRowsFor(keys[1..], visible, window, d);
      RowsForConcat(block, rest, d);
      if d == keys[0] {
        assert RowsFor(block, d) == block by {
          RowsForUniform(block, d);
        }
        assert d !in keys[1..];
      } else {
        assert RowsFor(block, d) == [] by {
          RowsForUniform(block, d);
        }
        assert d in keys <==> d in keys[1..];
      }
    }
  }

  /** The rows of observation date `d` in the panel are exactly the ranked,
      windowed group of `d`; a date that is not requested has none. */
  lemma PanelRowsFor(dates: seq<Date>, records: seq<Observation>, window: int, d: Date)
    ensures RowsFor(BuildPanel(dates, records, window), d)
            == Rank(d, Window(GroupOf(Visible(Cross(dates, records)), d), window))
  {
    var visible := Visible(Cross(dates, records));
    AssembleRowsFor(GroupKeys(dates), visible, window, d);
    if d !in dates {
      assert GroupOf(visible, d) == [] by {
        forall p | p in visible ensures p.observationDate != d {
          VisibleIffInclusive(dates, records, p);
        }
        EmptyGroup(visible, d);
      }
      assert |Window([], window)| == 0;
    }
  }

  // ---------------------------------------------------------------------
  // Panel-level properties

  /** The row pairs one of `dates` with a record of `records` in force on
      that date, and reports that record's value and date. */
  predicate RowFrom(row: PanelRow, dates: seq<Date>, records: seq<Observation>)
  {
    && row.observationDate in dates
    && exists rec :: rec in records && Sees(row.observationDate, rec)
                     && rec.value == row.value && rec.date == row.date
  }

  /** No invented rows: every row pairs a requested observation date with a
      fetched record visible at that date, and reports that record's value
      and date. */
  lemma PanelRowsAreVisible(dates: seq<Date>, records: seq<Observation>, window: int, row: PanelRow)
    requires row in BuildPanel(dates, records, window)
    ensures RowFrom(row, dates, records)
  {
    var d := row.observationDate;
    var visible := Visible(Cross(dates, records));
    var group := GroupOf(visible, d);
    var kept := Window(group, window);
    var rows := RowsFor(BuildPanel(dates, records, window), d);
    RowsForHolds(BuildPanel(dates, records, window), d, row);
    PanelRowsFor(dates, records, window, d);
    RankIsPermutation(d, kept);
    var i :| 0 <= i < |rows| && rows[i] == row;
    assert Cells(rows)[i] == (row.value, row.date);
    assert (row.value, row.date) in multiset(Reported(kept));
    CellFrom(kept, (row.value, row.date));
    var p :| p in kept && CellOf(p) == (row.value, row.date);
    assert p in multiset(group);
    GroupIffQualifying(dates, records, d, p);
  }

  /** Two key-ordered tables, every date of the first before every date of
      the second, make a key-ordered table. */
  lemma OrderedConcat(a: seq<PanelRow>, b: seq<PanelRow>)
    requires KeyOrdered(a) && KeyOrdered(b)
    requires forall x, y :: x in a && y in b ==> x.observationDate < y.observationDate
    ensures KeyOrdered(a + b)
  {
    var all := a + b;
    forall i, j | 0 <= i < j < |all| ensures KeyBefore(all[i], all[j]) {
      if j < |a| {
        assert all[i] == a[i] && all[j] == a[j];
      } else if i < |a| {
        assert all[i] in a && all[j] in b;
      } else {
        assert all[i] == b[i - |a|] && all[j] == b[j - |a|];
      }
    }
  }

  /** The rows of one date are ordered by periods back. */
  lemma DateRowsOrdered(d: Date, visible: seq<Pair>, window: int)
    ensures KeyOrdered(DateRows(d, visible, window))
  {
  }

  lemma {:induction false} AssembleOrdered(keys: seq<Date>, visible: seq<Pair>, window: int)
    requires Ascending(keys)
    ensures KeyOrdered(Assemble(keys, visible, window))
  {
    if keys != [] {
      var block := DateRows(keys[0], visible, window);
      var rest := Assemble(keys[1..], visible, window);
      DateRowsOrdered(keys[0], visible, window);
      AssembleOrdered(keys[1..], visible, window);
      assert forall r :: r in rest ==> keys[0] < r.observationDate;
      OrderedConcat(block, rest);
    }
  }

  /** The panel is ordered by (observation date, periods back), so its keys
      are unique. */
  lemma PanelKeysUnique(dates: seq<Date>, records: seq<Observation>, window: int)
    ensures KeyOrdered(BuildPanel(dates, records, window))
    ensures var rows := BuildPanel(dates, records, window);
            forall i, j :: 0 <= i < |rows| && 0 <= j < |rows| && i != j
              ==> (rows[i].observationDate, rows[i].periodsBack) != (rows[j].observationDate, rows[j].periodsBack)
  {
    AssembleOrdered(GroupKeys(dates), Visible(Cross(dates, records)), window);
  }

  /** An observation date that sees no fetched record contributes no row. */
  lemma PanelSkipsBlindDates(dates: seq<Date>, records: seq<Observation>, window: int, d: Date)
    requires forall rec :: rec in records ==> !Sees(d, rec)
    ensures forall row :: row in BuildPanel(dates, records, window) ==> row.observationDate != d
  {
    var visible := Visible(Cross(dates, records));
    forall p | p in visible ensures p.observationDate != d {
      VisibleIffInclusive(dates, records, p);
    }
    EmptyGroup(visible, d);
    PanelRowsFor(dates, records, window, d);
    forall row | row in BuildPanel(dates, records, window) ensures row.observationDate != d {
      if row.observationDate == d {
        RowsForHolds(BuildPanel(dates, records, window), d, row);
      }
    }
  }

  /** With window 0 the window step is skipped: the rows of each date report
      every visible pair of that date, as often as it occurs. */
  lemma PanelWindowBypass(dates: seq<Date>, records: seq<Observation>, d: Date)
    ensures multiset(Cells(RowsFor(BuildPanel(dates, records, 0), d)))
            == multiset(Reported(GroupOf(Visible(Cross(dates, records)), d)))
  {
    var group := GroupOf(Visible(Cross(dates, records)), d);
    PanelRowsFor(dates, records, 0, d);
    RankIsPermutation(d, group);
  }

  /** With a positive window each date keeps min(window, k) of its k visible
      pairs, and every visible pair left out has a `date` no later than the
      date of every row kept. */
  lemma PanelWindowCap(dates: seq<Date>, records: seq<Observation>, window: int, d: Date)
    requires 0 < window
    ensures var group := GroupOf(Visible(Cross(dates, records)), d);
            |RowsFor(BuildPanel(dates, records, window), d)| == Min(window, |group|)
    ensures var group := GroupOf(Visible(Cross(dates, records)), d);
            var rows := RowsFor(BuildPanel(dates, records, window), d);
            forall b, i :: b in multiset(group) - multiset(Window(group, window)) && 0 <= i < |rows|
              ==> b.record.date <= rows[i].date
  {
    PanelRowsFor(dates, records, window, d);
    RankOfWindow(d, GroupOf(Visible(Cross(dates, records)), d), window);
  }

  /** The ranked window of one group: min(window, k) rows, each no earlier
      than any record of the group the window left out. */
  lemma RankOfWindow(d: Date, group: seq<Pair>, window: int)
    requires 0 < window
    ensures |Rank(d, Window(group, window))| == Min(window, |group|)
    ensures var rows := Rank(d, Window(group, window));
            forall b, i :: b in multiset(group) - multiset(Window(group, window)) && 0 <= i < |rows|
              ==> b.record.date <= rows[i].date
  {
    var kept := Window(group, window);
    var sorted := SortByDate(kept);
    var rows := Rank(d, kept);
    WindowIsTopK(group, window);
    forall b, i | b in multiset(group) - multiset(kept) && 0 <= i < |rows|
      ensures b.record.date <= rows[i].date
    {
      assert sorted[i] in multiset(kept);
    }
  }

  /** Within each observation date the periods back run 1..k, and a row with
      a strictly later `date` is strictly fewer periods back. */
  lemma PanelRanks(dates: seq<Date>, records: seq<Observation>, window: int, d: Date)
    ensures var rows := RowsFor(BuildPanel(dates, records, window), d);
            forall i :: 0 <= i < |rows| ==> rows[i].periodsBack == i + 1
    ensures var rows := RowsFor(BuildPanel(dates, records, window), d);
            forall i, j :: 0 <= i < |rows| && 0 <= j < |rows| && rows[j].date < rows[i].date
              ==> rows[i].periodsBack < rows[j].periodsBack
  {
    PanelRowsFor(dates, records, window, d);
    RankIsPermutation(d, Window(GroupOf(Visible(Cross(dates, records)), d), window));
  }

  lemma {:induction false} AssembleNegativeWindow(keys: seq<Date>, visible: seq<Pair>, window: int)
    requires window < 0
    ensures Assemble(keys, visible, window) == []
  {
    if keys != [] {
      AssembleNegativeWindow(keys[1..], visible, window);
    }
  }

  /** A negative window is truthy, so the window step runs and keeps no
      record at all: the panel is empty. */
  lemma PanelNegativeWindow(dates: seq<Date>, records: seq<Observation>, window: int)
    requires window < 0
    ensures BuildPanel(dates, records, window) == []
  {
    AssembleNegativeWindow(GroupKeys(dates), Visible(Cross(dates, records)), window);
  }
}
