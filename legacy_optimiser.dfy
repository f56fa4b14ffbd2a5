/**
 * The older OptimiseTool: the same de-duplicate, compact and re-index pass
 * over one target vertex buffer, with a single tolerance, no `isOriginal`
 * flag and no degenerate-face pass. Its working state is the unique-vertex
 * map (key to source index, kept in the map's iteration order), the remap
 * table of new indices and the registered index data.
 */
module LegacyOptimisation {
  import opened Wrappers
  import opened VertexLayout
  import opened UniqueVertexKey
  import opened LegacyKey
  import opened Deduplication
  import opened LegacyDeduplication
  import opened BoneAssignments
  import opened MeshData
  import opened Compaction
  import opened Optimisation

  /** The key of every vertex below `n`, read the old way. */
  function LegacyAllKeys(decl: seq<VertexElement>, streams: seq<VertexBuffer>, decode: Decoder, n: nat): (keys: seq<LegacyVertex>)
    requires DeclarationReadable(decl)
    requires StreamsCoverAll(decl, streams, n)
    ensures |keys| == n
    ensures forall v :: 0 <= v < n ==> keys[v] == LegacyExtractKey(decl, ElementValues(decl, streams, decode, v))
  {
    seq(n, v requires 0 <= v < n => LegacyExtractKey(decl, ElementValues(decl, streams, decode, v)))
  }

  /** The comparator installed when the first vertex is read: the tool's tolerance and the declaration's UV-set count. */
  function LegacyComparatorFor(tolerance: real, decl: seq<VertexElement>): LegacyComparator
    requires DeclarationReadable(decl)
  {
    LegacyComparator(tolerance, CountTexCoords(decl))
  }

  /** Every index in use has an entry in the old remap table. */
  predicate LegacyRemapCovers(b: IndexBuffer, count: nat, remap: seq<nat>) {
    forall j :: 0 <= j < count && j < |b.indices| ==> b.indices[j] < |remap|
  }

  /** An index data object the old remapIndexes can rewrite: a buffer (it is not checked) holding the indices in use. */
  ghost predicate LegacyRemapReady(d: IndexData, remap: seq<nat>)
    reads d
  {
    && d.indexBuffer.Some?
    && d.indexCount <= |d.indexBuffer.value.indices|
    && IndexBufferValid(d.indexBuffer.value)
    && LegacyRemapCovers(d.indexBuffer.value, d.indexCount, remap)
  }

  /** The buffer after the old remapIndexes: the first `count` entries i replaced by remap[i], written at the buffer's width. */
  function LegacyRemappedBuffer(b: IndexBuffer, count: nat, remap: seq<nat>): (r: IndexBuffer)
    requires count <= |b.indices|
    requires LegacyRemapCovers(b, count, remap)
    ensures r.is32Bit == b.is32Bit && |r.indices| == |b.indices|
    ensures forall j :: 0 <= j < |b.indices| ==>
      r.indices[j] == (if j < count then Narrow(remap[b.indices[j]], b.is32Bit) else b.indices[j])
  {
    IndexBuffer(b.is32Bit, seq(|b.indices|, j requires 0 <= j < |b.indices| =>
      if j < count then Narrow(remap[b.indices[j]], b.is32Bit) else b.indices[j]))
  }

  /**
   * An old remap target never exceeds the vertex it replaces, so the
   * narrowing write is harmless and every rewritten index stays below the
   * (unchanged) vertex count.
   */
  lemma LegacyRemapStaysBelow(b: IndexBuffer, count: nat, remap: seq<nat>, n: nat)
    requires count <= |b.indices| && IndexBufferValid(b)
    requires forall j :: 0 <= j < count ==> b.indices[j] < n
    requires n <= |remap| && forall i :: 0 <= i < |remap| ==> remap[i] <= i
    ensures LegacyRemapCovers(b, count, remap)
    ensures IndexBufferValid(LegacyRemappedBuffer(b, count, remap))
    ensures forall j :: 0 <= j < count ==>
      LegacyRemappedBuffer(b, count, remap).indices[j] == remap[b.indices[j]] < n
  {
  }

  /**
   * With duplicates the old rebuild leaves the target inconsistent: every
   * stream now holds one record per map entry, fewer than the vertex count
   * it keeps.
   */
  lemma StaleVertexCount(decl: seq<VertexElement>, streams: seq<VertexBuffer>, n: nat, list: seq<VertexInfo>)
    requires ListWithin(streams, list)
    requires |streams| > 0 && |list| < n
    ensures !StreamsValid(decl, CompactStreams(streams, list), n)
  {
    assert |CompactStreams(streams, list)[0].records| == |list|;
  }

  // ---------------------------------------------------------------------
  // The old getAdjustedBoneAssignments

  /** Every first assignment of a pair has a remap entry. */
  predicate PairsCovered(bas: MultiMap<BoneAssignment>, remap: seq<nat>) {
    forall i :: 0 <= i < |bas| && i % 2 == 0 ==> bas[i].value.vertexIndex < |remap|
  }

  /**
   * The entries the old loop inserts: each iteration takes two
   * assignments, and inserts the SECOND one, unchanged, under the remapped
   * vertex index of the FIRST.
   */
  function PairedEntries(bas: MultiMap<BoneAssignment>, remap: seq<nat>): (r: seq<Entry<BoneAssignment>>)
    requires |bas| % 2 == 0 && PairsCovered(bas, remap)
    decreases |bas|
  {
    if bas == [] then []
    else
      var n := |bas| - 2;
      assert PairsCovered(bas[..n], remap);
      PairedEntries(bas[..n], remap) + [Entry(remap[bas[n].value.vertexIndex], bas[n + 1].value)]
  }

  /** One entry per pair: half the assignments are lost. */
  lemma {:induction false} PairedEntriesHalve(bas: MultiMap<BoneAssignment>, remap: seq<nat>)
    requires |bas| % 2 == 0 && PairsCovered(bas, remap)
    ensures 2 * |PairedEntries(bas, remap)| == |bas|
    decreases |bas|
  {
    if bas != [] {
      var n := |bas| - 2;
      assert PairsCovered(bas[..n], remap);
      PairedEntriesHalve(bas[..n], remap);
    }
  }

  /** Taking two more assignments adds one entry. */
  lemma PairedEntriesSnoc(bas: MultiMap<BoneAssignment>, i: nat, remap: seq<nat>)
    requires |bas| % 2 == 0 && PairsCovered(bas, remap)
    requires i % 2 == 0 && i + 2 <= |bas|
    ensures PairsCovered(bas[..i], remap) && PairsCovered(bas[..i + 2], remap)
    ensures PairedEntries(bas[..i + 2], remap)
      == PairedEntries(bas[..i], remap) + [Entry(remap[bas[i].value.vertexIndex], bas[i + 1].value)]
  {
    assert bas[..i + 2][..i] == bas[..i];
  }

  /**
   * The double `getNext` loses assignments: with two assignments and an
   * identity remap, only one comes out, and it is the second vertex's
   * assignment filed under the first vertex.
   */
  lemma PairingLosesAssignments()
    ensures var first := BoneAssignment(0, 5, 0.5);
      var second := BoneAssignment(1, 6, 0.5);
      var out := InsertAll([], PairedEntries([Entry(0, first), Entry(1, second)], [0, 1]));
      out == [Entry(0, second)] && out[0].key != out[0].value.vertexIndex
  {
    var first := BoneAssignment(0, 5, 0.5);
    var second := BoneAssignment(1, 6, 0.5);
    var bas := [Entry(0, first), Entry(1, second)];
    assert bas[..0] == [];
    assert PairedEntries(bas, [0, 1]) == [Entry(0, second)];
    assert InsertAll([], [Entry(0, second)]) == Insert(InsertAll([], []), Entry(0, second));
  }

  /** Between two even positions there is room for a whole pair. */
  lemma NextPairFits(i: nat, n: nat)
    requires i % 2 == 0 && n % 2 == 0 && i < n
    ensures i + 2 <= n
  {
    assert i == 2 * (i / 2) && n == 2 * (n / 2);
  }

  lemma {:induction false} InsertAllLength<V>(items: seq<Entry<V>>)
    ensures |InsertAll([], items)| == |items|
  {
    if items != [] {
      InsertAllLength(items[..|items| - 1]);
    }
  }

  class LegacyOptimiser {
    const tolerance: real
    var target: VertexData?
    var comparator: LegacyComparator
    var uniqueMap: seq<LegacyEntry>
    var indexRemap: seq<nat>
    var indexDataList: seq<IndexData>

    constructor(tol: real)
      ensures tolerance == tol
      ensures target == null && uniqueMap == [] && indexRemap == [] && indexDataList == []
    {
      tolerance := tol;
      target := null;
      comparator := LegacyComparator(tol, 0);
      uniqueMap := [];
      indexRemap := [];
      indexDataList := [];
    }

    /** Starts work on a new vertex buffer: the map, the index data list and the remap table are emptied. */
    method SetTargetVertexData(vd: VertexData)
      modifies this
      ensures target == vd
      ensures uniqueMap == [] && indexDataList == [] && indexRemap == []
      ensures comparator == old(comparator)
    {
      target := vd;
      uniqueMap := [];
      indexDataList := [];
      indexRemap := [];
    }

    /** Registers an index buffer that draws from the target. */
    method AddIndexData(id: IndexData)
      modifies this
      ensures indexDataList == old(indexDataList) + [id]
      ensures target == old(target) && comparator == old(comparator)
      ensures uniqueMap == old(uniqueMap) && indexRemap == old(indexRemap)
    {
      indexDataList := indexDataList + [id];
    }

    /**
     * The old calculateDuplicateVertices: reads every vertex's key, rebuilds
     * the map with the declaration's comparator at the first vertex, and
     * appends one remap entry per vertex. Unlike the newer tool it runs
     * whether or not index data is registered.
     */
    method CalculateDuplicateVertices(decode: Decoder, find: LegacyLookup, place: Placement) returns (duplicates: bool)
      requires target != null && target.Valid()
      requires LegacyLookupSound(find) && PlacementSound(place)
      modifies this
      ensures target == old(target) && indexDataList == old(indexDataList)
      ensures
        var c := LegacyComparatorFor(tolerance, target.declaration);
        var st := LegacyDedup(c, find, place, LegacyAllKeys(target.declaration, target.streams, decode, target.vertexCount));
        && duplicates == st.duplicates
        && indexRemap == old(indexRemap) + st.remap
        && (target.vertexCount > 0 ==> uniqueMap == st.entries && comparator == c)
        && (target.vertexCount == 0 ==> uniqueMap == old(uniqueMap) && comparator == old(comparator))
    {
      duplicates := false;
      var decl := target.declaration;
      var streams := target.streams;
      var n := target.vertexCount;
      if n == 0 {
        return;
      }
      ghost var c := LegacyComparatorFor(tolerance, decl);
      ghost var keys := LegacyAllKeys(decl, streams, decode, n);
      ghost var remap0 := indexRemap;
      // The first vertex also fixes the comparator and empties the map.
      var key, uvSets := BuildLegacyVertex(decl, streams, decode, 0);
      comparator := LegacyComparator(tolerance, uvSets);
      uniqueMap := [];
      duplicates := FileVertex(key, 0, find, place, duplicates, c, LegacyEmpty, remap0);
      ghost var st := LegacyStep(c, find, place, LegacyEmpty, key, 0);
      var v := 1;
      while v < n
        invariant 1 <= v <= n
        invariant st == LegacyDedupUpTo(c, find, place, keys, v)
        invariant uniqueMap == st.entries && comparator == c
        invariant indexRemap == remap0 + st.remap && duplicates == st.duplicates
        invariant target == old(target) && indexDataList == old(indexDataList)
      {
        key, uvSets := BuildLegacyVertex(decl, streams, decode, v);
        duplicates := FileVertex(key, v, find, place, duplicates, c, st, remap0);
        st := LegacyStep(c, find, place, st, key, v);
        v := v + 1;
      }
    }

    /** One iteration of the old vertex loop once the key is read: look it up, then remap or insert. */
    method FileVertex(key: LegacyVertex, v: nat, find: LegacyLookup, place: Placement, duplicatesIn: bool,
                      ghost c: LegacyComparator, ghost st: LegacyState, ghost remap0: seq<nat>)
      returns (duplicates: bool)
      requires LegacyLookupSound(find) && PlacementSound(place)
      requires comparator == c && uniqueMap == st.entries
      requires indexRemap == remap0 + st.remap && duplicatesIn == st.duplicates
      modifies this
      ensures var st' := LegacyStep(c, find, place, st, key, v);
        uniqueMap == st'.entries && indexRemap == remap0 + st'.remap && duplicates == st'.duplicates
      ensures comparator == c && target == old(target) && indexDataList == old(indexDataList)
    {
      duplicates := duplicatesIn;
      var indexUsed: nat;
      match find(comparator, MapKeys(uniqueMap), key) {
        case Some(j) =>
          indexUsed := uniqueMap[j].info;
          duplicates := true;
        case None =>
          indexUsed := |uniqueMap|;
          var p := place(comparator, MapKeys(uniqueMap), key);
          uniqueMap := uniqueMap[..p] + [MapEntry(key, v)] + uniqueMap[p..];
      }
      indexRemap := indexRemap + [indexUsed];
    }

    /**
     * The old rebuildVertexBuffers: every stream is replaced by one holding,
     * at position k, the record of the k-th map entry's source vertex, in
     * the map's iteration order. The vertex count is left as it was.
     */
    method RebuildVertexBuffers()
      requires target != null
      requires ListWithin(target.streams, MapOrderList(uniqueMap))
      modifies target
      ensures target.streams == CompactStreams(old(target.streams), MapOrderList(uniqueMap))
      ensures target.vertexCount == old(target.vertexCount)
    {
      var src := target.streams;
      var list := MapOrderList(uniqueMap);
      var newStreams := seq(|src|, s requires 0 <= s < |src| => CompactStream(src[s], list, 0));
      var k := 0;
      while k < |list|
        invariant k <= |list|
        invariant |newStreams| == |src|
        invariant forall s :: 0 <= s < |src| ==> newStreams[s] == CompactStream(src[s], list, k)
        invariant target.vertexCount == old(target.vertexCount)
      {
        newStreams := AppendSurvivor(src, newStreams, list, k);
        k := k + 1;
      }
      target.streams := newStreams;
    }

    /** The loop of the old remapIndexes over a locked buffer. */
    method RemapBuffer(buf: IndexBuffer, count: nat) returns (r: IndexBuffer)
      requires count <= |buf.indices| && IndexBufferValid(buf) && LegacyRemapCovers(buf, count, indexRemap)
      ensures r == LegacyRemappedBuffer(buf, count, indexRemap)
    {
      r := buf;
      var j := 0;
      while j < count
        invariant j <= count
        invariant r.is32Bit == buf.is32Bit && |r.indices| == |buf.indices|
        invariant forall i :: 0 <= i < |buf.indices| ==>
          r.indices[i] == (if i < j then Narrow(indexRemap[buf.indices[i]], buf.is32Bit) else buf.indices[i])
      {
        var oldIndex := r.indices[j];
        var newIndex := indexRemap[oldIndex];
        if newIndex != oldIndex {
          r := r.(indices := r.indices[j := Narrow(newIndex, r.is32Bit)]);
        }
        j := j + 1;
      }
    }

    /** The old remapIndexes: each of the `indexCount` entries i becomes remap[i]; the count is unchanged. */
    method RemapIndexes(idata: IndexData)
      requires LegacyRemapReady(idata, indexRemap)
      modifies idata
      ensures idata.indexCount == old(idata.indexCount)
      ensures idata.indexBuffer == Some(LegacyRemappedBuffer(old(idata.indexBuffer.value), old(idata.indexCount), indexRemap))
    {
      var buf := RemapBuffer(idata.indexBuffer.value, idata.indexCount);
      idata.indexBuffer := Some(buf);
    }

    /** Rewrites every registered index buffer through the remap table. */
    method RemapIndexDataList()
      requires Distinct(indexDataList)
      requires forall k :: 0 <= k < |indexDataList| ==> LegacyRemapReady(indexDataList[k], indexRemap)
      modifies set k | 0 <= k < |indexDataList| :: indexDataList[k]
      ensures forall k :: 0 <= k < |indexDataList| ==>
        var d := indexDataList[k];
        old(LegacyRemapReady(d, indexRemap))
        && d.indexCount == old(d.indexCount)
        && d.indexBuffer == Some(old(LegacyRemappedBuffer(d.indexBuffer.value, d.indexCount, indexRemap)))
    {
      var i := 0;
      while i < |indexDataList|
        invariant i <= |indexDataList|
        invariant forall k :: 0 <= k < |indexDataList| ==>
          var d := indexDataList[k];
          old(LegacyRemapReady(d, indexRemap))
          && if k < i then
            d.indexCount == old(d.indexCount)
            && d.indexBuffer == Some(old(LegacyRemappedBuffer(d.indexBuffer.value, d.indexCount, indexRemap)))
          else
            d.indexCount == old(d.indexCount) && d.indexBuffer == old(d.indexBuffer)
      {
        RemapIndexes(indexDataList[i]);
        i := i + 1;
      }
    }

    /**
     * The old optimiseGeometry: true exactly when duplicates were found, and
     * only then are the streams rebuilt in map order and every registered
     * index buffer rewritten; the vertex count never changes, so after a
     * rebuild it exceeds the number of records per stream.
     */
    method OptimiseGeometry(decode: Decoder, find: LegacyLookup, place: Placement) returns (changed: bool)
      requires target != null && target.Valid()
      requires LegacyLookupSound(find) && PlacementSound(place)
      requires indexRemap == []
      requires Distinct(indexDataList)
      requires forall k :: 0 <= k < |indexDataList| ==>
        LegacyRemapReady(indexDataList[k], seq(target.vertexCount, i => i))
      modifies this, target, set k | 0 <= k < |indexDataList| :: indexDataList[k]
      ensures target == old(target) && indexDataList == old(indexDataList)
      ensures target.vertexCount == old(target.vertexCount)
      ensures
        var c := LegacyComparatorFor(tolerance, target.declaration);
        var st := LegacyDedup(c, find, place, LegacyAllKeys(target.declaration, old(target.streams), decode, target.vertexCount));
        && changed == st.duplicates
        && indexRemap == st.remap
        && (target.vertexCount > 0 ==> uniqueMap == st.entries)
        && (changed ==>
              && ListWithin(old(target.streams), MapOrderList(st.entries))
              && target.streams == CompactStreams(old(target.streams), MapOrderList(st.entries))
              && (forall s :: 0 <= s < |target.streams| ==> |target.streams[s].records| == |st.entries| < target.vertexCount))
        && (!changed ==> target.streams == old(target.streams))
      ensures forall k :: 0 <= k < |indexDataList| ==>
        var d := indexDataList[k];
        && d.indexCount == old(d.indexCount)
        && (changed ==>
              && old(d.indexBuffer).Some? && d.indexCount <= |old(d.indexBuffer).value.indices|
              && LegacyRemapCovers(old(d.indexBuffer).value, d.indexCount, indexRemap)
              && d.indexBuffer == Some(LegacyRemappedBuffer(old(d.indexBuffer).value, d.indexCount, indexRemap)))
        && (!changed ==> d.indexBuffer == old(d.indexBuffer))
    {
      changed := CalculateDuplicateVertices(decode, find, place);
      ghost var c := LegacyComparatorFor(tolerance, target.declaration);
      ghost var keys := LegacyAllKeys(target.declaration, target.streams, decode, target.vertexCount);
      LegacyRemapTotal(c, find, place, keys);
      if changed {
        ghost var st := LegacyDedup(c, find, place, keys);
        assert ListWithin(target.streams, MapOrderList(uniqueMap)) by {
          forall s, k | 0 <= s < |target.streams| && 0 <= k < |uniqueMap|
            ensures MapOrderList(uniqueMap)[k].oldIndex < |target.streams[s].records|
          {
            assert uniqueMap[k] in st.entries;
          }
        }
        RebuildVertexBuffers();
        forall k | 0 <= k < |indexDataList|
          ensures LegacyRemapReady(indexDataList[k], indexRemap)
        {
          var d := indexDataList[k];
          assert forall j :: 0 <= j < d.indexCount ==> d.indexBuffer.value.indices[j] < target.vertexCount;
        }
        RemapIndexDataList();
      }
    }

    /**
     * The old getAdjustedBoneAssignments: two assignments per iteration,
     * the second filed unchanged under the first one's remapped index. An
     * odd count would read past the end, so the count must be even.
     */
    method GetAdjustedBoneAssignments(bas: MultiMap<BoneAssignment>) returns (newList: MultiMap<BoneAssignment>)
      requires |bas| % 2 == 0 && PairsCovered(bas, indexRemap)
      ensures newList == InsertAll([], PairedEntries(bas, indexRemap))
      ensures 2 * |newList| == |bas|
    {
      newList := [];
      ghost var inserted: seq<Entry<BoneAssignment>> := [];
      var i := 0;
      while i < |bas|
        invariant i <= |bas| && i % 2 == 0
        invariant PairsCovered(bas[..i], indexRemap) && inserted == PairedEntries(bas[..i], indexRemap)
        invariant newList == InsertAll([], inserted)
      {
        NextPairFits(i, |bas|);
        PairedEntriesSnoc(bas, i, indexRemap);
        var ass := bas[i].value;
        ass := ass.(vertexIndex := indexRemap[ass.vertexIndex]);
        var next := bas[i + 1].value;
        InsertAllSnoc([], inserted, Entry(ass.vertexIndex, next));
        newList := Insert(newList, Entry(ass.vertexIndex, next));
        inserted := inserted + [Entry(ass.vertexIndex, next)];
        i := i + 2;
      }
      assert bas[..i] == bas;
      InsertAllLength(inserted);
      PairedEntriesHalve(bas, indexRemap);
    }
  }
}
