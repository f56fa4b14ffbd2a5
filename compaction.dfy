/**
 * What rebuildVertexBuffers and remapIndexes compute, as functions of the
 * vertex streams, the unique-vertex list and the remap table, and why the
 * two together keep every index pointing at an equivalent vertex.
 */
module Compaction {
  import opened VertexLayout
  import opened UniqueVertexKey
  import opened Deduplication
  import opened MeshData

  /** Every element's stream is bound and holds at least `n` records. */
  predicate StreamsCoverAll(decl: seq<VertexElement>, streams: seq<VertexBuffer>, n: nat) {
    forall e :: e in decl ==> e.source < |streams| && n <= |streams[e.source].records|
  }

  /** The key of every vertex below `n`. */
  function AllKeys(decl: seq<VertexElement>, streams: seq<VertexBuffer>, decode: Decoder, n: nat): (keys: seq<UniqueVertex>)
    requires DeclarationReadable(decl)
    requires StreamsCoverAll(decl, streams, n)
    ensures |keys| == n
    ensures forall v :: 0 <= v < n ==> keys[v] == ExtractKey(decl, ElementValues(decl, streams, decode, v))
  {
    seq(n, v requires 0 <= v < n => ExtractKey(decl, ElementValues(decl, streams, decode, v)))
  }

  /** The comparator calculateDuplicateVertices installs for a declaration. */
  function ComparatorFor(posTolerance: real, normTolerance: real, uvTolerance: real, decl: seq<VertexElement>): Comparator
    requires DeclarationReadable(decl)
  {
    Comparator(posTolerance, normTolerance, uvTolerance, CountTexCoords(decl))
  }

  /** Every survivor's source vertex has a record in every stream. */
  predicate ListWithin(streams: seq<VertexBuffer>, list: seq<VertexInfo>) {
    forall s, k :: 0 <= s < |streams| && 0 <= k < |list| ==> list[k].oldIndex < |streams[s].records|
  }

  /** One stream with record k taken from the k-th survivor's source vertex. */
  function CompactStream(b: VertexBuffer, list: seq<VertexInfo>, k: nat): (r: VertexBuffer)
    requires k <= |list|
    requires forall i :: 0 <= i < |list| ==> list[i].oldIndex < |b.records|
    ensures r.vertexSize == b.vertexSize && |r.records| == k
    ensures forall i :: 0 <= i < k ==> r.records[i] == b.records[list[i].oldIndex]
  {
    VertexBuffer(b.vertexSize, seq(k, i requires 0 <= i < k => b.records[list[i].oldIndex]))
  }

  /** Taking one more survivor appends its source record to the compacted stream. */
  lemma CompactStreamSnoc(b: VertexBuffer, list: seq<VertexInfo>, k: nat)
    requires k < |list|
    requires forall i :: 0 <= i < |list| ==> list[i].oldIndex < |b.records|
    ensures CompactStream(b, list, k + 1)
            == VertexBuffer(b.vertexSize, CompactStream(b, list, k).records + [b.records[list[k].oldIndex]])
  {
    var longer := CompactStream(b, list, k + 1).records;
    var shorter := CompactStream(b, list, k).records + [b.records[list[k].oldIndex]];
    assert |longer| == |shorter|;
    forall i | 0 <= i < |longer| ensures longer[i] == shorter[i] {}
  }

  /** All streams compacted: same bindings, same vertex sizes, one record per survivor. */
  function CompactStreams(streams: seq<VertexBuffer>, list: seq<VertexInfo>): (r: seq<VertexBuffer>)
    requires ListWithin(streams, list)
    ensures |r| == |streams|
    ensures forall s :: 0 <= s < |streams| ==>
      r[s].vertexSize == streams[s].vertexSize && |r[s].records| == |list|
      && forall k :: 0 <= k < |list| ==> r[s].records[k] == streams[s].records[list[k].oldIndex]
  {
    seq(|streams|, s requires 0 <= s < |streams| => CompactStream(streams[s], list, |list|))
  }

  /** Compacting valid streams onto survivors of the first `n` vertices gives valid streams of one record per survivor. */
  lemma CompactKeepsStreamsValid(decl: seq<VertexElement>, streams: seq<VertexBuffer>, n: nat, list: seq<VertexInfo>)
    requires StreamsValid(decl, streams, n)
    requires forall k :: 0 <= k < |list| ==> list[k].oldIndex < n
    ensures ListWithin(streams, list)
    ensures StreamsValid(decl, CompactStreams(streams, list), |list|)
  {
    var r := CompactStreams(streams, list);
    forall s, x | 0 <= s < |r| && x in r[s].records ensures |x| == r[s].vertexSize {
      var k :| 0 <= k < |list| && r[s].records[k] == x;
      assert streams[s].records[list[k].oldIndex] in streams[s].records;
    }
  }

  /** Every index in use has an entry in the remap table. */
  predicate RemapCoversBuffer(b: IndexBuffer, count: nat, remap: seq<IndexInfo>) {
    forall j :: 0 <= j < count && j < |b.indices| ==> b.indices[j] < |remap|
  }

  /** The buffer after remapIndexes: the first `count` indices replaced by their targets, written at the buffer's width. */
  function RemappedBuffer(b: IndexBuffer, count: nat, remap: seq<IndexInfo>): (r: IndexBuffer)
    requires count <= |b.indices|
    requires RemapCoversBuffer(b, count, remap)
    ensures r.is32Bit == b.is32Bit && |r.indices| == |b.indices|
    ensures forall j :: 0 <= j < |b.indices| ==>
      r.indices[j] == (if j < count then Narrow(remap[b.indices[j]].targetIndex, b.is32Bit) else b.indices[j])
  {
    IndexBuffer(b.is32Bit, seq(|b.indices|, j requires 0 <= j < |b.indices| =>
      if j < count then Narrow(remap[b.indices[j]].targetIndex, b.is32Bit) else b.indices[j]))
  }

  /**
   * After compaction, the vertex at compacted index k carries exactly the
   * key of its source vertex: nothing but the order of records changed.
   */
  lemma CompactedKeysAreSourceKeys(decl: seq<VertexElement>, streams: seq<VertexBuffer>, decode: Decoder,
                                   n: nat, list: seq<VertexInfo>)
    requires DeclarationReadable(decl)
    requires StreamsCoverAll(decl, streams, n)
    requires forall k :: 0 <= k < |list| ==> list[k].oldIndex < n
    requires forall s :: 0 <= s < |streams| ==> n <= |streams[s].records|
    ensures ListWithin(streams, list)
    ensures StreamsCoverAll(decl, CompactStreams(streams, list), |list|)
    ensures forall k :: 0 <= k < |list| ==>
      AllKeys(decl, CompactStreams(streams, list), decode, |list|)[k] == AllKeys(decl, streams, decode, n)[list[k].oldIndex]
  {
    var compact := CompactStreams(streams, list);
    forall k | 0 <= k < |list|
      ensures ElementValues(decl, compact, decode, k) == ElementValues(decl, streams, decode, list[k].oldIndex)
    {
      var a := ElementValues(decl, compact, decode, k);
      var b := ElementValues(decl, streams, decode, list[k].oldIndex);
      forall e | 0 <= e < |decl| ensures a[e] == b[e] {
        assert decl[e] in decl;
      }
    }
  }

  /**
   * The point of rebuild plus remap: index i, rewritten to its target,
   * names a compacted vertex whose key is the key of i itself (if i was
   * kept) or of an earlier vertex the comparator treats as equivalent to i.
   */
  lemma RemapPointsAtEquivalentVertex(decl: seq<VertexElement>, streams: seq<VertexBuffer>, decode: Decoder,
                                      n: nat, c: Comparator, find: Lookup)
    requires DeclarationReadable(decl)
    requires StreamsCoverAll(decl, streams, n)
    requires forall s :: 0 <= s < |streams| ==> n <= |streams[s].records|
    requires LookupSound(find)
    ensures var keys := AllKeys(decl, streams, decode, n);
      var st := Dedup(c, find, keys);
      && |st.remap| == n
      && ListWithin(streams, st.uniqueList)
      && StreamsCoverAll(decl, CompactStreams(streams, st.uniqueList), |st.uniqueList|)
      && (forall i :: 0 <= i < n ==> st.remap[i].targetIndex < |st.uniqueList|)
      && forall i :: 0 <= i < n ==>
           var newKey := AllKeys(decl, CompactStreams(streams, st.uniqueList), decode, |st.uniqueList|)[st.remap[i].targetIndex];
           && (st.remap[i].isOriginal ==> newKey == keys[i])
           && (!st.remap[i].isOriginal ==> Equivalent(c, newKey, keys[i]))
  {
    var keys := AllKeys(decl, streams, decode, n);
    DedupRemapTotal(c, find, keys);
    DedupFirstOccurrence(c, find, keys);
    DedupTargetsRepresent(c, find, keys);
    var st := Dedup(c, find, keys);
    CompactedKeysAreSourceKeys(decl, streams, decode, n, st.uniqueList);
  }

  /**
   * A 16-bit buffer survives the narrowing write unharmed: a target never
   * exceeds the index it replaces, so it fits wherever that index did.
   */
  lemma NarrowingIsHarmless(b: IndexBuffer, count: nat, remap: seq<IndexInfo>)
    requires count <= |b.indices| && IndexBufferValid(b)
    requires RemapCoversBuffer(b, count, remap)
    requires forall i :: 0 <= i < |remap| ==> remap[i].targetIndex <= i
    ensures IndexBufferValid(RemappedBuffer(b, count, remap))
    ensures forall j :: 0 <= j < count ==> RemappedBuffer(b, count, remap).indices[j] == remap[b.indices[j]].targetIndex
  {
  }
}
