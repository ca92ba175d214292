/**
 * The two orderings the panel needs: revision records by `date`, latest
 * first (what `nlargest` and the descending sort produce), and the
 * observation dates in ascending order without repeats (the group keys).
 *
 * Ties in `date` are broken by one fixed policy: the sort is stable, so of
 * two records with the same `date` the one earlier in its input comes first.
 */
module Ordering {
  import opened FredTypes

  /** An observation date paired with a fetched record: one row of the
      cross product. */
  datatype Pair = Pair(observationDate: Date, record: Observation)

  /** Latest `date` first. */
  predicate LatestFirst(s: seq<Pair>)
  {
    forall i, j :: 0 <= i < j < |s| ==> s[j].record.date <= s[i].record.date
  }

  function InsertByDate(p: Pair, s: seq<Pair>): (r: seq<Pair>)
    requires LatestFirst(s)
    ensures LatestFirst(r)
    ensures multiset(r) == multiset(s) + multiset{p}
    ensures forall x :: x in r ==> x == p || x in s
  {
    if s == [] || s[0].record.date <= p.record.date then
      [p] + s
    else
      var rest := InsertByDate(p, s[1..]);
      assert s == [s[0]] + s[1..];
      assert forall x :: x in s[1..] ==> x.record.date <= s[0].record.date;
      PrependLatest(s[0], rest);
      [s[0]] + rest
  }

  lemma PrependLatest(x: Pair, rest: seq<Pair>)
    requires LatestFirst(rest)
    requires forall y :: y in rest ==> y.record.date <= x.record.date
    ensures LatestFirst([x] + rest)
  {
    var r := [x] + rest;
    assert forall j :: 0 < j < |r| ==> r[j] == rest[j - 1];
  }

  /** The records sorted latest first, stably. */
  function SortByDate(s: seq<Pair>): (r: seq<Pair>)
    ensures LatestFirst(r)
    ensures multiset(r) == multiset(s)
    ensures |r| == |s|
  {
    if s == [] then []
    else
      assert s == [s[0]] + s[1..];
      InsertByDate(s[0], SortByDate(s[1..]))
  }

  /** Strictly ascending: ordered and free of repeats. */
  predicate Ascending(s: seq<Date>)
  {
    forall i, j :: 0 <= i < j < |s| ==> s[i] < s[j]
  }

  function InsertKey(x: Date, s: seq<Date>): (r: seq<Date>)
    requires Ascending(s)
    ensures Ascending(r)
    ensures forall y :: y in r <==> y == x || y in s
  {
    if s == [] || x < s[0] then [x] + s
    else if x == s[0] then s
    else
      var rest := InsertKey(x, s[1..]);
      assert forall y :: y in s <==> y == s[0] || y in s[1..];
      assert forall y :: y in rest ==> s[0] < y;
      var r := [s[0]] + rest;
      assert forall j :: 0 < j < |r| ==> r[j] in rest;
      r
  }

  /** The distinct dates of `dates`, ascending: the keys a group-by forms. */
  function GroupKeys(dates: seq<Date>): (keys: seq<Date>)
    ensures Ascending(keys)
    ensures forall d :: d in keys <==> d in dates
  {
    if dates == [] then []
    else
      assert forall d :: d in dates <==> d == dates[0] || d in dates[1..];
      InsertKey(dates[0], GroupKeys(dates[1..]))
  }
}
