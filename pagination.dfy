/**
 * Fetching a series' revision history page by page. The HTTP endpoint is
 * replaced by a stub server that serves a fixed list of records in pages of
 * at most `limit` records, starting at the requested offset.
 */
module Pagination {
  import opened FredTypes
  import opened Metadata

  /** The stub endpoint: the full list it serves, its page size, and the
      other top-level fields of every response (among them, normally, the
      declared total `count`). */
  datatype Server = Server(history: seq<Observation>, limit: nat, fields: map<string, Json<Observation>>)

  /** The records collected by a fetch: the first response's sidecar, every
      record of every page in arrival order, and the offsets of the
      follow-up requests in the order they were made. */
  datatype Fetched = Fetched(metadata: map<string, Json<Observation>>, records: seq<Observation>, offsets: seq<nat>)

  /** The records served for a request at `offset`: the next at most
      `limit` records of the list, none once the list is exhausted. */
  function Page(history: seq<Observation>, offset: nat, limit: nat): (page: seq<Observation>)
    ensures offset < |history| && 0 < limit ==> page != []
    ensures offset <= |history| ==> history[..offset] + page == history[..Min(|history|, offset + limit)]
  {
    if offset >= |history| then [] else history[offset..Min(|history|, offset + limit)]
  }

  /** The response to a request at `offset`: the page as its listing, and
      the same sidecar at every offset. */
  function Respond(s: Server, offset: nat): (response: map<string, Json<Observation>>)
    ensures "observations" in response && response["observations"].JRows?
    ensures response["observations"].rows == Page(s.history, offset, s.limit)
    ensures Sidecar(response, "observations") == Sidecar(s.fields, "observations")
  {
    var response := s.fields["observations" := JRows(Page(s.history, offset, s.limit))];
    assert Sidecar(response, "observations").Keys == Sidecar(s.fields, "observations").Keys;
    response
  }

  /** The total the server declares, when it declares one as a number. */
  predicate DeclaresCount(s: Server)
  {
    "count" in s.fields && s.fields["count"].JInt?
  }

  /** Every follow-up request the loop can make gets a non-empty page: when
      a positive total is declared, pages are not empty and the total is
      never more than the list holds. Without it the loop would request
      empty pages forever. */
  predicate PagesSuffice(s: Server)
  {
    DeclaresCount(s) && 0 < s.fields["count"].i ==> 0 < s.limit && s.fields["count"].i <= |s.history|
  }

  /** Follow-up request i asked at the offset of the records collected
      before it, i + 1 full pages, while that was still below the declared
      count. */
  predicate OffsetsCountCollected(offsets: seq<nat>, limit: nat, count: int)
  {
    forall i :: 0 <= i < |offsets| ==> offsets[i] == (i + 1) * limit < count
  }

  lemma AppendOffset(offsets: seq<nat>, limit: nat, count: int, offset: nat)
    requires OffsetsCountCollected(offsets, limit, count)
    requires offset == (|offsets| + 1) * limit < count
    ensures OffsetsCountCollected(offsets + [offset], limit, count)
  {
    var grown := offsets + [offset];
    forall i | 0 <= i < |grown|
      ensures grown[i] == (i + 1) * limit < count
    {
      if i < |offsets| {
        assert grown[i] == offsets[i];
      } else {
        assert grown[i] == offset;
      }
    }
  }

  /** Appending the page served at the end of a collected prefix extends the
      prefix by that page. */
  lemma AppendPage(history: seq<Observation>, data: seq<Observation>, limit: nat)
    requires data <= history
    ensures data + Page(history, |data|, limit) <= history
    ensures |data + Page(history, |data|, limit)| == Min(|history|, |data| + limit)
  {
    assert history[..|data|] == data;
  }

  /** The first request, then follow-up requests at offset = records
      collected so far, until the collected count reaches the declared
      `count`. */
  method FetchObservations(s: Server) returns (r: Result<Fetched>)
    requires PagesSuffice(s)
    ensures r.Failure? <==> !DeclaresCount(s)
    ensures r.Failure? ==> r.error == if "count" in s.fields then CountNotInteger else MissingKey("count")
    ensures r.Success? ==> r.value.metadata == Sidecar(s.fields, "observations")
    // no gaps and no duplicates: what was collected is a prefix of the served list
    ensures r.Success? ==> r.value.records <= s.history
    // the loop stops only once the declared count is reached
    ensures r.Success? ==> s.fields["count"].i <= |r.value.records|
    ensures r.Success? ==> OffsetsCountCollected(r.value.offsets, s.limit, s.fields["count"].i)
    ensures r.Success? ==> |r.value.records| == Min(|s.history|, (|r.value.offsets| + 1) * s.limit)
    ensures r.Success? && s.fields["count"].i == |s.history| ==> r.value.records == s.history
    ensures r.Success? ==> (r.value.records == [] <==> s.history == [] || s.limit == 0)
  {
    var first := Respond(s, 0);
    var metadata := Sidecar(first, "observations");
    var data := first["observations"].rows;
    if "count" !in metadata {
      return Failure(MissingKey("count"));
    }
    if !metadata["count"].JInt? {
      return Failure(CountNotInteger);
    }
    var count := metadata["count"].i;
    var offsets: seq<nat> := [];
    ghost var reach: nat := s.limit;
    assert count == s.fields["count"].i;
    AppendPage(s.history, [], s.limit);
    assert [] + data == data;
    while count > |data|
      invariant data <= s.history
      invariant reach == (|offsets| + 1) * s.limit
      invariant |data| == Min(|s.history|, reach)
      invariant OffsetsCountCollected(offsets, s.limit, count)
      decreases |s.history| - |data|
    {
      var offset := |data|;
      AppendOffset(offsets, s.limit, count, offset);
      offsets := offsets + [offset];
      var response := Respond(s, offset);
      var page := response["observations"].rows;
      AppendPage(s.history, data, s.limit);
      data := data + page;
      reach := reach + s.limit;
    }
    r := Success(Fetched(metadata, data, offsets));
  }
}
