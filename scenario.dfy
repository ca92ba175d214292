/**
 * Two revisions of one period, the first in force until the day before the
 * second is published: an observation date inside each realtime period sees
 * exactly the revision in force on that day.
 */
module RevisionScenario {
  import opened FredTypes
  import opened Ordering
  import opened PanelBuilder

  lemma CrossOfTwo(a: Observation, b: Observation, d1: Date, d2: Date)
    ensures Cross([d1, d2], [a, b]) == [Pair(d1, a), Pair(d1, b), Pair(d2, a), Pair(d2, b)]
  {
    assert [a, b][1..] == [b];
    assert [d1, d2][1..] == [d2];
  }

  lemma VisibleCons(p: Pair, rest: seq<Pair>)
    ensures Visible([p] + rest) == (if Qualifies(p) then [p] else []) + Visible(rest)
  {
    assert ([p] + rest)[1..] == rest;
  }

  /** The pairs after the first: only (d2, b) qualifies. */
  lemma VisibleOfTail(a: Observation, b: Observation, d1: Date, d2: Date)
    requires a.realtimeStart <= d1 <= a.realtimeEnd < b.realtimeStart <= d2 <= b.realtimeEnd
    ensures Visible([Pair(d1, b), Pair(d2, a), Pair(d2, b)]) == [Pair(d2, b)]
  {
    var s3 := [Pair(d2, b)];
    var s2 := [Pair(d2, a)] + s3;
    assert Visible(s3) == s3 by {
      VisibleCons(Pair(d2, b), []);
      assert [Pair(d2, b)] + [] == s3;
    }
    assert Visible(s2) == s3 by {
      VisibleCons(Pair(d2, a), s3);
    }
    VisibleCons(Pair(d1, b), s2);
    assert [Pair(d1, b)] + s2 == [Pair(d1, b), Pair(d2, a), Pair(d2, b)];
  }

  lemma VisibleOfTwo(a: Observation, b: Observation, d1: Date, d2: Date)
    requires a.realtimeStart <= d1 <= a.realtimeEnd < b.realtimeStart <= d2 <= b.realtimeEnd
    ensures Visible([Pair(d1, a), Pair(d1, b), Pair(d2, a), Pair(d2, b)]) == [Pair(d1, a), Pair(d2, b)]
  {
    var tail := [Pair(d1, b), Pair(d2, a), Pair(d2, b)];
    VisibleOfTail(a, b, d1, d2);
    VisibleCons(Pair(d1, a), tail);
    assert [Pair(d1, a)] + tail == [Pair(d1, a), Pair(d1, b), Pair(d2, a), Pair(d2, b)];
  }

  lemma KeysOfTwo(d1: Date, d2: Date)
    requires d1 < d2
    ensures GroupKeys([d1, d2]) == [d1, d2]
  {
    assert [d1, d2][1..] == [d2];
    assert [d2][1..] == [];
    assert GroupKeys([d2]) == [d2];
  }

  lemma GroupOfCons(p: Pair, rest: seq<Pair>, d: Date)
    ensures GroupOf([p] + rest, d) == (if p.observationDate == d then [p] else []) + GroupOf(rest, d)
  {
    assert ([p] + rest)[1..] == rest;
  }

  lemma GroupsOfTwo(a: Observation, b: Observation, d1: Date, d2: Date)
    requires d1 < d2
    ensures GroupOf([Pair(d1, a), Pair(d2, b)], d1) == [Pair(d1, a)]
    ensures GroupOf([Pair(d1, a), Pair(d2, b)], d2) == [Pair(d2, b)]
  {
    assert [Pair(d2, b)] + [] == [Pair(d2, b)];
    GroupOfCons(Pair(d2, b), [], d1);
    GroupOfCons(Pair(d2, b), [], d2);
    GroupOfCons(Pair(d1, a), [Pair(d2, b)], d1);
    GroupOfCons(Pair(d1, a), [Pair(d2, b)], d2);
  }

  /** A date that sees a single record, under any window that is not
      negative, gets that record one period back. */
  lemma RankOfOne(d: Date, p: Pair, window: int)
    requires 0 <= window
    ensures Rank(d, Window([p], window)) == [PanelRow(d, 1, p.record.value, p.record.date)]
  {
    assert SortByDate([p]) == [p] by {
      assert [p][1..] == [];
    }
    assert Window([p], window) == [p];
  }

  lemma DateRowsOfOne(d: Date, p: Pair, visible: seq<Pair>, window: int)
    requires 0 <= window && GroupOf(visible, d) == [p]
    ensures DateRows(d, visible, window) == [PanelRow(d, 1, p.record.value, p.record.date)]
  {
    RankOfOne(d, p, window);
  }

  lemma AssembleTwoKeys(k1: Date, k2: Date, visible: seq<Pair>, window: int)
    ensures Assemble([k1, k2], visible, window) == DateRows(k1, visible, window) + DateRows(k2, visible, window)
  {
    assert [k1, k2][1..] == [k2];
    assert [k2][1..] == [];
    var last := DateRows(k2, visible, window);
    assert Assemble([k2], visible, window) == last + [];
    assert last + [] == last;
  }

  /** Two keys whose groups hold one pair each give one row each, one
      period back. */
  lemma AssembleOfTwo(p1: Pair, p2: Pair, d1: Date, d2: Date, visible: seq<Pair>, window: int)
    requires 0 <= window
    requires GroupOf(visible, d1) == [p1] && GroupOf(visible, d2) == [p2]
    ensures Assemble([d1, d2], visible, window)
            == [PanelRow(d1, 1, p1.record.value, p1.record.date), PanelRow(d2, 1, p2.record.value, p2.record.date)]
  {
    var row1 := PanelRow(d1, 1, p1.record.value, p1.record.date);
    var row2 := PanelRow(d2, 1, p2.record.value, p2.record.date);
    calc {
      Assemble([d1, d2], visible, window);
    == { AssembleTwoKeys(d1, d2, visible, window); }
      DateRows(d1, visible, window) + DateRows(d2, visible, window);
    == { DateRowsOfOne(d1, p1, visible, window); DateRowsOfOne(d2, p2, visible, window); }
      [row1] + [row2];
    ==
      [row1, row2];
    }
  }

  /** Revision `a` is in force through `a.realtimeEnd`, revision `b` from a
      later day on. Asked as of `d1` the panel reports `a`; asked as of `d2`,
      `b`; each one period back and nothing else. */
  lemma RevisionInForce(a: Observation, b: Observation, d1: Date, d2: Date, window: int)
    requires a.realtimeStart <= d1 <= a.realtimeEnd < b.realtimeStart <= d2 <= b.realtimeEnd
    requires 0 <= window
    ensures BuildPanel([d1, d2], [a, b], window)
            == [PanelRow(d1, 1, a.value, a.date), PanelRow(d2, 1, b.value, b.date)]
  {
    CrossOfTwo(a, b, d1, d2);
    VisibleOfTwo(a, b, d1, d2);
    KeysOfTwo(d1, d2);
    GroupsOfTwo(a, b, d1, d2);
    AssembleOfTwo(Pair(d1, a), Pair(d2, b), d1, d2, [Pair(d1, a), Pair(d2, b)], window);
  }
}
