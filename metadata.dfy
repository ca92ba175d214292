/**
 * The metadata sidecar: every top-level field of a response except its
 * listing, copied one key at a time into a table's attributes.
 */
module Metadata {

  /** The response without its listing field: every other key, with its
      value unchanged. */
  function Sidecar<V>(response: map<string, V>, listing: string): (meta: map<string, V>)
    ensures meta.Keys == response.Keys - {listing}
    ensures forall k :: k in meta ==> meta[k] == response[k]
  {
    map k | k in response && k != listing :: response[k]
  }

  /** Attributes written onto a table that has none are the metadata
      itself. */
  lemma OntoNothing<V>(metadata: map<string, V>)
    ensures map[] + metadata == metadata
  {
    assert (map[] + metadata).Keys == metadata.Keys;
  }

  /** The entries of `metadata` whose keys are not in `pending`. */
  function Written<V>(metadata: map<string, V>, pending: set<string>): map<string, V>
  {
    map k | k in metadata && k !in pending :: metadata[k]
  }

  /** Writes every key of `metadata` into the attributes `base`, one key at a
      time: a key of `metadata` takes its value from `metadata`, every other
      key of `base` keeps its own. */
  method AttachAttributes<V>(base: map<string, V>, metadata: map<string, V>) returns (attrs: map<string, V>)
    ensures attrs == base + metadata
  {
    attrs := base;
    var pending := metadata.Keys;
    assert Written(metadata, pending) == map[];
    while pending != {}
      invariant pending <= metadata.Keys
      invariant attrs == base + Written(metadata, pending)
      decreases |pending|
    {
      var k :| k in pending;
      assert Written(metadata, pending - {k}) == Written(metadata, pending)[k := metadata[k]];
      attrs := attrs[k := metadata[k]];
      pending := pending - {k};
    }
    assert Written(metadata, pending) == metadata;
  }
}
