/**
 * MmOptimiseTool's optimiser: the working state for one target vertex
 * buffer (unique-vertex map and list, remap table, registered index data)
 * and the operations that de-duplicate the buffer, compact its streams,
 * rewrite the indices and drop degenerate triangles.
 */
module Optimisation {
  import opened Wrappers
  import opened Vectors
  import opened VertexLayout
  import opened UniqueVertexKey
  import opened Deduplication
  import opened BoneAssignments
  import opened BoneRemap
  import opened Triangles
  import opened MeshData
  import opened Compaction

  /** A registered index buffer and the primitive type drawn from it. */
  datatype IndexDataWithOpType = IndexDataWithOpType(indexData: IndexData, operationType: OperationType)

  /** The tolerance used for positions, normals and UVs unless an option overrides it. */
  const DefaultTolerance: real := 0.000001

  /** Indices read by a loop that steps over whole triangles while below `count`. */
  function TriangleSpan(count: nat): (r: nat)
    ensures r % 3 == 0 && count <= r < count + 3
  {
    (count + 2) / 3 * 3
  }

  /** A triangle that starts below `count` lies wholly within the span. */
  lemma TriangleWithinSpan(j: nat, count: nat)
    requires j % 3 == 0 && j < count
    ensures j + 3 <= TriangleSpan(count) && (j + 3) % 3 == 0
  {
    var r := TriangleSpan(count);
    assert j == 3 * (j / 3) && r == 3 * (r / 3);
    assert j / 3 < r / 3;
  }

  /** The index data objects of a registration list. */
  function IndexDatas(list: seq<IndexDataWithOpType>): (r: seq<IndexData>)
    ensures |r| == |list| && forall k :: 0 <= k < |list| ==> r[k] == list[k].indexData
  {
    seq(|list|, k requires 0 <= k < |list| => list[k].indexData)
  }

  /** No index data object appears twice. */
  ghost predicate Distinct(ds: seq<IndexData>) {
    forall a, b :: 0 <= a < b < |ds| ==> ds[a] != ds[b]
  }

  /** A buffer and count that remapIndexes can rewrite through `remap`: a buffer holding the indices in use, each with an entry. */
  predicate BufferRemapReady(buffer: Option<IndexBuffer>, count: nat, remap: seq<IndexInfo>) {
    && buffer.Some?
    && count <= |buffer.value.indices|
    && IndexBufferValid(buffer.value)
    && RemapCoversBuffer(buffer.value, count, remap)
  }

  /** An index data object that remapIndexes can rewrite through `remap`. */
  ghost predicate RemapReady(d: IndexData, remap: seq<IndexInfo>)
    reads d
  {
    BufferRemapReady(d.indexBuffer, d.indexCount, remap)
  }

  /**
   * The outcome of removeDegenerateFaces for one triangle list: unchanged
   * when every triangle is kept, otherwise the kept indices in a new buffer
   * of the same width, or no buffer at all when nothing is kept.
   */
  function AfterDegenerateRemoval(b: IndexBuffer, count: nat, positions: seq<Vec3>, tol: real): IndexState
    requires TriangleSpan(count) <= |b.indices|
    requires IndicesWithin(b.indices[..TriangleSpan(count)], positions)
  {
    var kept := KeepValidTriangles(b.indices[..TriangleSpan(count)], positions, tol);
    if |kept| == count then IndexState(Some(b), count)
    else if |kept| > 0 then IndexState(Some(IndexBuffer(b.is32Bit, kept)), |kept|)
    else IndexState(None, 0)
  }

  /** An index data object removeDegenerateFaces can read: a buffer holding every index it reads, each naming a position. */
  ghost predicate DegenerateReady(d: IndexData, positions: seq<Vec3>)
    reads d
  {
    && d.indexBuffer.Some?
    && TriangleSpan(d.indexCount) <= |d.indexBuffer.value.indices|
    && IndexBufferValid(d.indexBuffer.value)
    && IndicesWithin(d.indexBuffer.value.indices[..TriangleSpan(d.indexCount)], positions)
  }

  /** A buffer and count in use: no buffer means nothing in use, and every index in use is below `bound`. */
  predicate InUse(buffer: Option<IndexBuffer>, count: nat, bound: nat) {
    match buffer
    case None => count == 0
    case Some(b) => count <= |b.indices| && IndexBufferValid(b) && forall j :: 0 <= j < count ==> b.indices[j] < bound
  }

  /** A triangle list whose triangles in use all name positions and none is degenerate. */
  predicate TrianglesClean(buffer: Option<IndexBuffer>, count: nat, positions: seq<Vec3>, tol: real) {
    && count % 3 == 0
    && (buffer.Some? ==>
          && count <= |buffer.value.indices|
          && IndicesWithin(buffer.value.indices[..count], positions)
          && AllTrianglesValid(buffer.value.indices[..count], positions, tol))
  }

  /** What optimiseGeometry needs of a registered index buffer drawing from `n` vertices. */
  ghost predicate IndexReady(e: IndexDataWithOpType, n: nat)
    reads e.indexData
  {
    StateReady(e.indexData.indexBuffer, e.indexData.indexCount, e.operationType, n)
  }

  /** IndexReady on the values of the fields it reads: a buffer in use, whole triangles for a triangle list. */
  predicate StateReady(buffer: Option<IndexBuffer>, count: nat, op: OperationType, n: nat) {
    && buffer.Some?
    && InUse(buffer, count, n)
    && (op == TriangleList ==> count % 3 == 0)
  }

  /** What optimiseGeometry leaves behind in an index buffer and count drawn with `op`. */
  predicate StateDone(buffer: Option<IndexBuffer>, count: nat, op: OperationType, n: nat, positions: seq<Vec3>, tol: real) {
    && InUse(buffer, count, n)
    && (op == TriangleList ==> TrianglesClean(buffer, count, positions, tol))
  }

  /** What optimiseGeometry leaves behind in a registered index buffer. */
  ghost predicate IndexDone(e: IndexDataWithOpType, n: nat, positions: seq<Vec3>, tol: real)
    reads e.indexData
  {
    StateDone(e.indexData.indexBuffer, e.indexData.indexCount, e.operationType, n, positions, tol)
  }

  /** A remap table for `n` vertices whose targets never exceed their source and stay below `bound`. */
  predicate RemapShrinks(remap: seq<IndexInfo>, n: nat, bound: nat) {
    && |remap| == n
    && forall i :: 0 <= i < |remap| ==> remap[i].targetIndex <= i && remap[i].targetIndex < bound
  }

  /**
   * Rewriting through a remap whose targets never exceed their source
   * and stay below `bound` leaves a valid buffer whose indices in use are
   * below `bound`.
   */
  lemma RemappedInUse(b: IndexBuffer, count: nat, remap: seq<IndexInfo>, bound: nat)
    requires InUse(Some(b), count, |remap|)
    requires forall i :: 0 <= i < |remap| ==> remap[i].targetIndex <= i && remap[i].targetIndex < bound
    ensures RemapCoversBuffer(b, count, remap)
    ensures InUse(Some(RemappedBuffer(b, count, remap)), count, bound)
  {
    NarrowingIsHarmless(b, count, remap);
  }

  /**
   * Removing degenerate triangles from a triangle list in use leaves a
   * list in use whose triangles are all valid: the kept indices are
   * indices that were there before.
   */
  lemma AfterRemovalSound(b: IndexBuffer, count: nat, positions: seq<Vec3>, tol: real, bound: nat)
    requires count % 3 == 0 && InUse(Some(b), count, bound) && bound <= |positions|
    ensures TriangleSpan(count) == count && IndicesWithin(b.indices[..count], positions)
    ensures var s := AfterDegenerateRemoval(b, count, positions, tol);
      InUse(s.buffer, s.count, bound) && TrianglesClean(s.buffer, s.count, positions, tol)
  {
    var span := TriangleSpan(count);
    assert span == count by {
      assert (span - count) % 3 == 0;
    }
    var idx := b.indices[..count];
    KeepValidTrianglesShape(idx, positions, tol);
    var kept := KeepValidTriangles(idx, positions, tol);
    if |kept| == count {
      KeepValidTrianglesFull(idx, positions, tol);
    } else if |kept| > 0 {
      forall j | 0 <= j < |kept| ensures kept[j] < bound && kept[j] < (if b.is32Bit then Limit32 else Limit16) {
        assert kept[j] in kept;
        var q :| 0 <= q < |idx| && idx[q] == kept[j];
      }
      assert kept[..|kept|] == kept;
    }
  }

  /**
   * The submeshes' bone assignments after the shared vertices changed, as
   * the shared pass of processMesh writes it for a skeletal mesh: the
   * assignments of EVERY submesh are moved through the shared remap, those
   * of submeshes with their own vertex data included.
   */
  function SharedPassBonesAsWritten(bones: seq<MultiMap<BoneAssignment>>, remap: seq<IndexInfo>): (r: seq<MultiMap<BoneAssignment>>)
    requires forall a :: 0 <= a < |bones| ==> RemapCovers(bones[a], remap)
    ensures |r| == |bones|
    ensures forall a :: 0 <= a < |bones| ==> SortedByKey(r[a]) && forall x :: x in r[a] ==> x.key == x.value.vertexIndex
  {
    AllAdjustedKeyed(bones, remap);
    seq(|bones|, a requires 0 <= a < |bones| => AdjustedAssignments(bones[a], remap))
  }

  lemma AllAdjustedKeyed(bones: seq<MultiMap<BoneAssignment>>, remap: seq<IndexInfo>)
    requires forall a :: 0 <= a < |bones| ==> RemapCovers(bones[a], remap)
    ensures forall a :: 0 <= a < |bones| ==>
      var r := AdjustedAssignments(bones[a], remap);
      SortedByKey(r) && forall x :: x in r ==> x.key == x.value.vertexIndex
  {
    forall a | 0 <= a < |bones| ensures
      var r := AdjustedAssignments(bones[a], remap);
      SortedByKey(r) && forall x :: x in r ==> x.key == x.value.vertexIndex
    {
      AdjustedIsKeyed(bones[a], remap);
    }
  }

  /**
   * The shared pass as written loses bone assignments of a submesh with its
   * own vertex data: with shared vertex 1 collapsed onto shared vertex 0,
   * the submesh's assignment of its own vertex 1 is dropped.
   */
  lemma SharedPassDropsDedicatedBone()
    ensures var own := [Entry(1, BoneAssignment(1, 0, 1.0))];
      SharedPassBonesAsWritten([own], [IndexInfo(0, true), IndexInfo(0, false)]) == [[]]
  {
    var own := [Entry(1, BoneAssignment(1, 0, 1.0))];
    var remap := [IndexInfo(0, true), IndexInfo(0, false)];
    assert own[..0] == [];
    assert KeptRetargeted(own, remap) == [];
  }

  /**
   * clearBoneAssignments followed by addBoneAssignment for each value of
   * `list`, in order: every value is filed again under its own vertex index.
   */
  method RefileAssignments(list: MultiMap<BoneAssignment>) returns (m: MultiMap<BoneAssignment>)
    ensures m == InsertAll([], KeyedAll(Values(list)))
  {
    ghost var items := KeyedAll(Values(list));
    m := [];
    for k := 0 to |list|
      invariant m == InsertAll([], items[..k])
    {
      var e := Keyed(list[k].value);
      assert items[..k + 1] == items[..k] + [e];
      InsertAllSnoc([], items[..k], e);
      m := Insert(m, e);
    }
    assert items[..|list|] == items;
  }

  /** What a submesh registers with the optimiser: its index data and operation type. */
  function EntryOf(sm: SubMesh): IndexDataWithOpType {
    IndexDataWithOpType(sm.indexData, sm.operationType)
  }

  /** The vertex data a submesh draws from. */
  function VertexDataOf(sm: SubMesh, shared: VertexData?): VertexData? {
    if sm.useSharedVertices then shared else sm.vertexData
  }

  /** The positions below `i` of the submeshes that use the shared vertex data, in order. */
  function SharedPositions(subs: seq<SubMesh>, i: nat): (r: seq<nat>)
    requires i <= |subs|
    ensures forall k :: 0 <= k < |r| ==> r[k] < i && subs[r[k]].useSharedVertices
    ensures forall k1, k2 :: 0 <= k1 < k2 < |r| ==> r[k1] < r[k2]
    ensures forall a :: 0 <= a < i && subs[a].useSharedVertices ==> a in r
  {
    if i == 0 then []
    else SharedPositions(subs, i - 1) + (if subs[i - 1].useSharedVertices then [i - 1] else [])
  }

  /** The registrations of the submeshes at positions `ps`. */
  function EntriesAt(subs: seq<SubMesh>, ps: seq<nat>): (r: seq<IndexDataWithOpType>)
    requires forall k :: 0 <= k < |ps| ==> ps[k] < |subs|
    ensures |r| == |ps| && forall k :: 0 <= k < |ps| ==> r[k] == EntryOf(subs[ps[k]])
  {
    seq(|ps|, k requires 0 <= k < |ps| => EntryOf(subs[ps[k]]))
  }

  /** The declaration has an element with the position semantic. */
  predicate PositionDeclared(decl: seq<VertexElement>) {
    FindElementBySemantic(decl, Position).Some?
  }

  /** The vertex data has an element with the position semantic. */
  predicate HasPosition(vd: VertexData) {
    PositionDeclared(vd.declaration)
  }

  /** The position of every record of the position element's stream, or none without a position element. */
  function VertexPositions(decl: seq<VertexElement>, streams: seq<VertexBuffer>, decode: Decoder): (ps: seq<Vec3>)
    ensures !PositionDeclared(decl) ==> ps == []
    ensures PositionDeclared(decl) && FindElementBySemantic(decl, Position).value.source < |streams| ==>
      |ps| == |streams[FindElementBySemantic(decl, Position).value.source].records|
  {
    if PositionDeclared(decl) && FindElementBySemantic(decl, Position).value.source < |streams|
    then Positions(decl, streams, decode) else []
  }

  /** The buffer and count of an index data object. */
  function IndexStateOf(d: IndexData): IndexState
    reads d
  {
    IndexState(d.indexBuffer, d.indexCount)
  }

  /** The submeshes are distinct objects. */
  predicate SubMeshesDistinct(subs: seq<SubMesh>) {
    forall a, b :: 0 <= a < b < |subs| ==> subs[a] != subs[b]
  }

  /** The submeshes draw with distinct index data. */
  predicate IndexDataDistinct(subs: seq<SubMesh>) {
    forall a, b :: 0 <= a < b < |subs| ==> subs[a].indexData != subs[b].indexData
  }

  /** The index data of one submesh is no other submesh's. */
  lemma IndexDataApartFrom(subs: seq<SubMesh>, a: nat)
    requires a < |subs| && IndexDataDistinct(subs)
    ensures forall b :: 0 <= b < |subs| && b != a ==> subs[b].indexData != subs[a].indexData
  {
  }

  /** Dedicated vertex data is neither the shared vertex data nor another submesh's. */
  predicate VertexDataApart(subs: seq<SubMesh>, shared: VertexData?) {
    && (forall a :: 0 <= a < |subs| && !subs[a].useSharedVertices ==> subs[a].vertexData != shared)
    && DedicatedVertexDataDistinct(subs)
  }

  /** No two submeshes with their own vertex data share it. */
  predicate DedicatedVertexDataDistinct(subs: seq<SubMesh>) {
    forall a, b :: 0 <= a < b < |subs| && !subs[a].useSharedVertices && !subs[b].useSharedVertices ==>
      subs[a].vertexData != subs[b].vertexData
  }

  /** No object of the mesh plays two roles: submeshes, index data and dedicated vertex data are all distinct. */
  predicate MeshDistinct(mesh: Mesh) {
    && SubMeshesDistinct(mesh.subMeshes)
    && IndexDataDistinct(mesh.subMeshes)
    && VertexDataApart(mesh.subMeshes, mesh.sharedVertexData)
  }

  /** The submeshes that draw from the shared vertex data. */
  function SharedUsers(subs: seq<SubMesh>): set<SubMesh> {
    set a | 0 <= a < |subs| && subs[a].useSharedVertices :: subs[a]
  }

  /** The index data of the submeshes that draw from the shared vertex data. */
  function SharedUserIndexData(subs: seq<SubMesh>): set<IndexData> {
    set a | 0 <= a < |subs| && subs[a].useSharedVertices :: subs[a].indexData
  }

  /** The submeshes with their own vertex data. */
  function DedicatedSubMeshes(subs: seq<SubMesh>): set<SubMesh> {
    set a | 0 <= a < |subs| && !subs[a].useSharedVertices :: subs[a]
  }

  /** The index data of the submeshes with their own vertex data. */
  function DedicatedIndexData(subs: seq<SubMesh>): set<IndexData> {
    set a | 0 <= a < |subs| && !subs[a].useSharedVertices :: subs[a].indexData
  }

  /** The vertex data of the submeshes that have their own. */
  function DedicatedVertexData(subs: seq<SubMesh>): set<VertexData> {
    set a | 0 <= a < |subs| && !subs[a].useSharedVertices && subs[a].vertexData != null :: subs[a].vertexData
  }

  /**
   * In a mesh whose objects play one role each, the shared pass and the
   * dedicated passes touch disjoint objects.
   */
  lemma PassesApart(mesh: Mesh)
    requires MeshDistinct(mesh)
    ensures SharedUsers(mesh.subMeshes) !! DedicatedSubMeshes(mesh.subMeshes)
    ensures SharedUserIndexData(mesh.subMeshes) !! DedicatedIndexData(mesh.subMeshes)
    ensures mesh.sharedVertexData !in DedicatedVertexData(mesh.subMeshes)
  {
    var subs := mesh.subMeshes;
    forall a, b | 0 <= a < |subs| && 0 <= b < |subs| && subs[a].useSharedVertices && !subs[b].useSharedVertices
      ensures subs[a] != subs[b] && subs[a].indexData != subs[b].indexData
    {
      assert a != b;
    }
  }

  /** Every LOD face list has a buffer whose indices in use are below `n`. */
  predicate LodsReady(lods: seq<IndexState>, n: nat) {
    forall l :: 0 <= l < |lods| ==> lods[l].buffer.Some? && InUse(lods[l].buffer, lods[l].count, n)
  }

  /** Every LOD face list can be rewritten through `remap`. */
  predicate LodsRemapReady(lods: seq<IndexState>, remap: seq<IndexInfo>) {
    forall k :: 0 <= k < |lods| ==> BufferRemapReady(lods[k].buffer, lods[k].count, remap)
  }

  /** The LOD face lists after fixLOD: each buffer rewritten through `remap`, each count unchanged. */
  function RemappedLods(lods: seq<IndexState>, remap: seq<IndexInfo>): seq<IndexState>
    requires LodsRemapReady(lods, remap)
  {
    seq(|lods|, k requires 0 <= k < |lods| =>
      IndexState(Some(RemappedBuffer(lods[k].buffer.value, lods[k].count, remap)), lods[k].count))
  }

  /** LOD lists in range of a shrinking remap table stay in range of its new vertex count once remapped. */
  lemma RemappedLodsInUse(lods: seq<IndexState>, remap: seq<IndexInfo>, bound: nat)
    requires LodsReady(lods, |remap|) && RemapShrinks(remap, |remap|, bound)
    ensures LodsRemapReady(lods, remap)
    ensures LodsReady(RemappedLods(lods, remap), bound)
  {
    forall l | 0 <= l < |lods|
      ensures BufferRemapReady(lods[l].buffer, lods[l].count, remap)
      ensures InUse(Some(RemappedBuffer(lods[l].buffer.value, lods[l].count, remap)), lods[l].count, bound)
    {
      RemappedInUse(lods[l].buffer.value, lods[l].count, remap, bound);
    }
  }

  /**
   * What optimiseGeometry does to the vertices of its target: whether they
   * changed, the remap table it leaves, and the streams and vertex count.
   */
  datatype VertexOutcome = VertexOutcome(changed: bool, remap: seq<IndexInfo>, streams: seq<VertexBuffer>, count: nat)

  /** The vertices were left alone, or shrank along a remap whose targets never exceed their source. */
  predicate Shrinks(o: VertexOutcome, n: nat) {
    && o.count <= n
    && if o.changed then RemapShrinks(o.remap, n, o.count) else o.count == n
  }

  /**
   * The vertex half of optimiseGeometry on `n` vertices: the
   * de-duplication runs only when index data is registered; if it found a
   * duplicate, the streams are compacted onto the unique vertices.
   */
  function OptimisedVertices(c: Comparator, find: Lookup, decl: seq<VertexElement>, streams: seq<VertexBuffer>, n: nat,
                             decode: Decoder, registered: bool): (o: VertexOutcome)
    requires StreamsValid(decl, streams, n) && LookupSound(find)
    ensures Shrinks(o, n) && StreamsValid(decl, o.streams, o.count)
    ensures !o.changed ==> o.streams == streams
    ensures PositionDeclared(decl) ==> o.count <= |VertexPositions(decl, o.streams, decode)|
  {
    var keys := AllKeys(decl, streams, decode, n);
    var st := Dedup(c, find, keys);
    if registered && st.duplicates then
      DedupRemapTotal(c, find, keys);
      DedupSourcesWithin(c, find, keys);
      DedupConservation(c, find, keys);
      CompactKeepsStreamsValid(decl, streams, n, st.uniqueList);
      VertexOutcome(true, st.remap, CompactStreams(streams, st.uniqueList), |st.uniqueList|)
    else
      VertexOutcome(false, if registered then st.remap else [], streams, n)
  }

  /**
   * optimiseGeometry reports a change exactly when the vertex count
   * shrank, which needs registered index data; with index data registered
   * there is one remap entry per vertex.
   */
  lemma OptimisedVerticesChangedIffShrunk(c: Comparator, find: Lookup, decl: seq<VertexElement>, streams: seq<VertexBuffer>,
                                          n: nat, decode: Decoder, registered: bool)
    requires StreamsValid(decl, streams, n) && LookupSound(find)
    ensures var o := OptimisedVertices(c, find, decl, streams, n, decode, registered);
      && (o.changed <==> o.count < n)
      && (o.changed ==> registered)
      && (registered ==> |o.remap| == n)
  {
    var keys := AllKeys(decl, streams, decode, n);
    DedupConservation(c, find, keys);
    DedupRemapTotal(c, find, keys);
  }

  /**
   * After optimiseGeometry changed the vertices, index i rewritten through
   * the remap names a vertex of the new streams whose key is the key of i
   * (i was kept) or one the comparator treats as equivalent to it.
   */
  lemma OptimisedVerticesRepresent(c: Comparator, find: Lookup, decl: seq<VertexElement>, streams: seq<VertexBuffer>,
                                   n: nat, decode: Decoder, registered: bool)
    requires StreamsValid(decl, streams, n) && LookupSound(find)
    ensures var o := OptimisedVertices(c, find, decl, streams, n, decode, registered);
      o.changed ==>
        forall i :: 0 <= i < n ==>
          var newKey := AllKeys(decl, o.streams, decode, o.count)[o.remap[i].targetIndex];
          var oldKey := AllKeys(decl, streams, decode, n)[i];
          && (o.remap[i].isOriginal ==> newKey == oldKey)
          && (!o.remap[i].isOriginal ==> Equivalent(c, newKey, oldKey))
  {
    RemapPointsAtEquivalentVertex(decl, streams, decode, n, c, find);
  }

  /** A registered buffer after the remap step of optimiseGeometry: rewritten through the remap if the vertices changed. */
  function RemapStep(s: IndexState, n: nat, o: VertexOutcome): (r: IndexState)
    requires s.buffer.Some? && InUse(s.buffer, s.count, n) && Shrinks(o, n)
    ensures r.buffer.Some? && InUse(r.buffer, r.count, o.count) && r.count == s.count
  {
    if o.changed then
      RemappedInUse(s.buffer.value, s.count, o.remap, o.count);
      IndexState(Some(RemappedBuffer(s.buffer.value, s.count, o.remap)), s.count)
    else s
  }

  /** A registered buffer after removeDegenerateFaces: a triangle list loses its degenerate triangles, any other list stays. */
  function DegenerateStep(s: IndexState, op: OperationType, n: nat, positions: seq<Vec3>, tol: real): (r: IndexState)
    requires s.buffer.Some? && InUse(s.buffer, s.count, n)
    requires op == TriangleList ==> s.count % 3 == 0 && n <= |positions|
    ensures StateDone(r.buffer, r.count, op, n, positions, tol)
    ensures r.count <= s.count
  {
    if op == TriangleList then
      AfterRemovalSound(s.buffer.value, s.count, positions, tol, n);
      KeepValidTrianglesSubset(s.buffer.value.indices[..s.count], positions, tol);
      AfterDegenerateRemoval(s.buffer.value, s.count, positions, tol)
    else s
  }

  /**
   * What optimiseGeometry leaves in a registered index buffer drawn with
   * `op` from `n` vertices: remapped if the vertices changed, then cleaned
   * of degenerate triangles if it is a triangle list. No index points past
   * the new vertex count, no kept triangle is degenerate, nothing is
   * added, and a list that is not a triangle list keeps its count.
   */
  function OptimisedIndex(s: IndexState, op: OperationType, n: nat, o: VertexOutcome, positions: seq<Vec3>, tol: real): (r: IndexState)
    requires StateReady(s.buffer, s.count, op, n) && Shrinks(o, n)
    requires op == TriangleList ==> o.count <= |positions|
    ensures StateDone(r.buffer, r.count, op, o.count, positions, tol)
    ensures r.count <= s.count && (op != TriangleList ==> r.count == s.count)
  {
    DegenerateStep(RemapStep(s, n, o), op, o.count, positions, tol)
  }

  /**
   * Running optimiseGeometry again on a buffer it produced, when no vertex
   * changes, leaves the buffer exactly as it is.
   */
  lemma OptimisedIndexIdempotent(s: IndexState, op: OperationType, n: nat, o: VertexOutcome, positions: seq<Vec3>, tol: real)
    requires s.buffer.Some? && StateDone(s.buffer, s.count, op, n, positions, tol)
    requires op == TriangleList ==> n <= |positions|
    requires !o.changed && o.count == n
    ensures StateReady(s.buffer, s.count, op, n) && Shrinks(o, n)
    ensures OptimisedIndex(s, op, n, o, positions, tol) == s
  {
    if op == TriangleList {
      var b := s.buffer.value;
      assert TriangleSpan(s.count) == s.count by {
        assert (TriangleSpan(s.count) - s.count) % 3 == 0;
      }
      KeepValidTrianglesOfValid(b.indices[..s.count], positions, tol);
    }
  }

  /** The parts of a submesh a pass rewrites: its index buffer and count, its LOD face lists and its bone assignments. */
  datatype SubMeshParts = SubMeshParts(index: IndexState, lods: seq<IndexState>, bones: MultiMap<BoneAssignment>)

  function PartsOf(sm: SubMesh): SubMeshParts
    reads sm, sm.indexData
  {
    SubMeshParts(IndexStateOf(sm.indexData), sm.lodFaceList, sm.boneAssignments)
  }

  /** The parts of every submesh, in order. */
  ghost function PartsOfAll(subs: seq<SubMesh>): (ps: seq<SubMeshParts>)
    reads set a | 0 <= a < |subs| :: subs[a]
    reads set a | 0 <= a < |subs| :: subs[a].indexData
    ensures |ps| == |subs|
    ensures forall a :: 0 <= a < |subs| ==> ps[a] == PartsOf(subs[a])
    decreases |subs|
  {
    if subs == [] then [] else PartsOfAll(subs[..|subs| - 1]) + [PartsOf(subs[|subs| - 1])]
  }
  /** What a pass over `n` vertices needs of a submesh drawing from them with `op`. */
  predicate PartsReady(p: SubMeshParts, op: OperationType, n: nat, skeletal: bool) {
    && StateReady(p.index.buffer, p.index.count, op, n)
    && LodsReady(p.lods, n)
    && (skeletal ==> BonesBelow(p.bones, n))
  }

  /** What a pass over vertices now `n` in number leaves in a submesh drawing from them with `op`. */
  predicate PartsDone(p: SubMeshParts, op: OperationType, n: nat, positions: seq<Vec3>, skeletal: bool, tol: real) {
    && StateDone(p.index.buffer, p.index.count, op, n, positions, tol)
    && LodsReady(p.lods, n)
    && (skeletal ==> BonesBelow(p.bones, n))
  }

  /**
   * A submesh after the pass over the `n` vertices it draws from, with
   * outcome `o`: its index data as optimiseGeometry leaves it; when the
   * vertices changed, its LOD face lists remapped and, in a skeletal mesh,
   * its bone assignments adjusted.
   */
  function PassedParts(p: SubMeshParts, op: OperationType, n: nat, o: VertexOutcome, positions: seq<Vec3>,
                       skeletal: bool, tol: real): (r: SubMeshParts)
    requires PartsReady(p, op, n, skeletal) && Shrinks(o, n)
    requires op == TriangleList ==> o.count <= |positions|
    ensures PartsDone(r, op, o.count, positions, skeletal, tol)
    ensures !o.changed ==> r.lods == p.lods && r.bones == p.bones
  {
    var lods := if o.changed then RemappedLodsInUse(p.lods, o.remap, o.count); RemappedLods(p.lods, o.remap) else p.lods;
    var bones :=
      if o.changed && skeletal then AdjustedWithinRange(p.bones, o.remap, o.count); AdjustedAssignments(p.bones, o.remap)
      else p.bones;
    SubMeshParts(OptimisedIndex(p.index, op, n, o, positions, tol), lods, bones)
  }

  /**
   * Index data drawn with `op` that was in state `s0`, ready for the
   * pass over `n` vertices with outcome `o`, and now holds what
   * OptimisedIndex says.
   */
  ghost predicate IndexOptimised(d: IndexData, op: OperationType, s0: IndexState, n: nat, o: VertexOutcome,
                                 positions: seq<Vec3>, tol: real)
    reads d
  {
    && StateReady(s0.buffer, s0.count, op, n) && Shrinks(o, n)
    && (op == TriangleList ==> o.count <= |positions|)
    && IndexStateOf(d) == OptimisedIndex(s0, op, n, o, positions, tol)
  }

  /**
   * A submesh whose parts were `p0`, ready for the pass over `n` vertices
   * with outcome `o`, and now holds what PassedParts says.
   */
  ghost predicate PartsPassed(sm: SubMesh, p0: SubMeshParts, n: nat, o: VertexOutcome, positions: seq<Vec3>,
                              skeletal: bool, tol: real)
    reads sm, sm.indexData
  {
    && PartsReady(p0, sm.operationType, n, skeletal) && Shrinks(o, n)
    && (sm.operationType == TriangleList ==> o.count <= |positions|)
    && PartsOf(sm) == PassedParts(p0, sm.operationType, n, o, positions, skeletal, tol)
  }

  /** What processMesh needs of a submesh drawing from shared vertex data with `n` vertices. */
  ghost predicate SharedUserReady(sm: SubMesh, n: nat, skeletal: bool)
    reads sm, sm.indexData
  {
    PartsReady(PartsOf(sm), sm.operationType, n, skeletal)
  }

  /** The submesh's LOD face lists and bone assignments are still those of `p`. */
  ghost predicate AsBefore(sm: SubMesh, p: SubMeshParts)
    reads sm
  {
    sm.lodFaceList == p.lods && sm.boneAssignments == p.bones
  }

  /**
   * The submesh's LOD face lists and bone assignments were those of `p`
   * and have been fixed after the vertices changed along `remap`: the
   * face lists remapped, and the bone assignments adjusted when the mesh
   * is skeletal.
   */
  ghost predicate Fixed(sm: SubMesh, p: SubMeshParts, remap: seq<IndexInfo>, skeletal: bool)
    reads sm
  {
    && LodsRemapReady(p.lods, remap) && sm.lodFaceList == RemappedLods(p.lods, remap)
    && (skeletal ==> RemapCovers(p.bones, remap) && sm.boneAssignments == AdjustedAssignments(p.bones, remap))
    && (!skeletal ==> sm.boneAssignments == p.bones)
  }

  /** The users of the shared vertex data before user `i` are fixed, the others as before. */
  ghost predicate UsersFixedBelow(subs: seq<SubMesh>, parts: seq<SubMeshParts>, remap: seq<IndexInfo>, skeletal: bool, i: nat)
    reads SharedUsers(subs)
  {
    && |parts| == |subs|
    && forall a :: 0 <= a < |subs| && subs[a].useSharedVertices ==>
         if a < i then Fixed(subs[a], parts[a], remap, skeletal) else AsBefore(subs[a], parts[a])
  }

  /** Every user of the shared vertex data has LOD face lists and bone assignments as in `parts`. */
  ghost predicate UsersAsBefore(subs: seq<SubMesh>, parts: seq<SubMeshParts>)
    reads SharedUsers(subs)
  {
    && |parts| == |subs|
    && forall a :: 0 <= a < |subs| && subs[a].useSharedVertices ==> AsBefore(subs[a], parts[a])
  }

  /** The parts `parts` of the users of shared vertex data with `n` vertices are ready for the pass. */
  predicate UsersReady(subs: seq<SubMesh>, parts: seq<SubMeshParts>, n: nat, skeletal: bool) {
    && |parts| == |subs|
    && forall a :: 0 <= a < |subs| && subs[a].useSharedVertices ==> PartsReady(parts[a], subs[a].operationType, n, skeletal)
  }

  /** Every user's index data, once as in `parts`, now holds what OptimisedIndex says. */
  ghost predicate UsersIndexOptimised(subs: seq<SubMesh>, parts: seq<SubMeshParts>, n: nat, o: VertexOutcome,
                                      positions: seq<Vec3>, tol: real)
    reads SharedUserIndexData(subs)
  {
    && |parts| == |subs|
    && forall a :: 0 <= a < |subs| && subs[a].useSharedVertices ==>
         IndexOptimised(subs[a].indexData, subs[a].operationType, parts[a].index, n, o, positions, tol)
  }

  /** What the optimisation did to each registered index data, told per user of the shared vertex data. */
  lemma UsersOptimisedFromRegistered(subs: seq<SubMesh>, parts: seq<SubMeshParts>, list: seq<IndexDataWithOpType>,
                                     n: nat, o: VertexOutcome, positions: seq<Vec3>, tol: real)
    requires |parts| == |subs|
    requires list == EntriesAt(subs, SharedPositions(subs, |subs|))
    requires forall k :: 0 <= k < |list| ==>
      IndexOptimised(list[k].indexData, list[k].operationType, parts[SharedPositions(subs, |subs|)[k]].index, n, o, positions, tol)
    ensures UsersIndexOptimised(subs, parts, n, o, positions, tol)
  {
    var ps := SharedPositions(subs, |subs|);
    forall a | 0 <= a < |subs| && subs[a].useSharedVertices
      ensures IndexOptimised(subs[a].indexData, subs[a].operationType, parts[a].index, n, o, positions, tol)
    {
      var k :| 0 <= k < |ps| && ps[k] == a;
      assert list[k] == EntryOf(subs[a]);
    }
  }

  /** Every user of the shared vertex data, once as in `parts`, now holds what PassedParts says. */
  ghost predicate UsersPassed(subs: seq<SubMesh>, parts: seq<SubMeshParts>, n: nat, o: VertexOutcome,
                              positions: seq<Vec3>, skeletal: bool, tol: real)
    reads SharedUsers(subs), SharedUserIndexData(subs)
  {
    && |parts| == |subs|
    && forall a :: 0 <= a < |subs| && subs[a].useSharedVertices ==>
         PartsPassed(subs[a], parts[a], n, o, positions, skeletal, tol)
  }

  /**
   * The index pass and the fix-up together are the pass PassedParts
   * describes: with the index data optimised and, if the vertices
   * changed, the LOD face lists and bone assignments fixed (otherwise
   * left as they were), every user has passed.
   */
  lemma UsersPassedFromSteps(subs: seq<SubMesh>, parts: seq<SubMeshParts>, n: nat, o: VertexOutcome,
                             positions: seq<Vec3>, skeletal: bool, tol: real)
    requires UsersReady(subs, parts, n, skeletal)
    requires UsersIndexOptimised(subs, parts, n, o, positions, tol)
    requires o.changed ==> UsersFixedBelow(subs, parts, o.remap, skeletal, |subs|)
    requires !o.changed ==> UsersAsBefore(subs, parts)
    ensures UsersPassed(subs, parts, n, o, positions, skeletal, tol)
  {
    forall a | 0 <= a < |subs| && subs[a].useSharedVertices
      ensures PartsPassed(subs[a], parts[a], n, o, positions, skeletal, tol)
    {
      assert IndexOptimised(subs[a].indexData, subs[a].operationType, parts[a].index, n, o, positions, tol);
      if o.changed {
        assert Fixed(subs[a], parts[a], o.remap, skeletal);
      } else {
        assert AsBefore(subs[a], parts[a]);
      }
    }
  }

  /** Users that are each ready for a pass over `n` vertices are ready, and as before, in a snapshot of their parts. */
  lemma UsersReadyNow(subs: seq<SubMesh>, n: nat, skeletal: bool)
    requires forall a :: 0 <= a < |subs| && subs[a].useSharedVertices ==> SharedUserReady(subs[a], n, skeletal)
    ensures UsersReady(subs, PartsOfAll(subs), n, skeletal) && UsersAsBefore(subs, PartsOfAll(subs))
  {
    var parts := PartsOfAll(subs);
    forall a | 0 <= a < |subs| && subs[a].useSharedVertices
      ensures PartsReady(parts[a], subs[a].operationType, n, skeletal) && AsBefore(subs[a], parts[a])
    {
      assert SharedUserReady(subs[a], n, skeletal);
    }
  }

  /** A submesh's own vertex data (streams and count) together with the parts a pass rewrites. */
  datatype Geometry = Geometry(streams: seq<VertexBuffer>, count: nat, parts: SubMeshParts)

  function GeometryOf(sm: SubMesh): Geometry
    requires sm.vertexData != null
    reads sm, sm.vertexData, sm.indexData
  {
    Geometry(sm.vertexData.streams, sm.vertexData.vertexCount, PartsOf(sm))
  }

  /** The submeshes' vertex data and parts, for those that have their own vertex data. */
  ghost function GeometriesOf(subs: seq<SubMesh>): (gs: seq<Geometry>)
    reads set a | 0 <= a < |subs| :: subs[a]
    reads set a | 0 <= a < |subs| :: subs[a].indexData
    reads set a | 0 <= a < |subs| :: subs[a].vertexData
    ensures |gs| == |subs|
    ensures forall a :: 0 <= a < |subs| && subs[a].vertexData != null ==> gs[a] == GeometryOf(subs[a])
    decreases |subs|
  {
    if subs == [] then []
    else
      var last := subs[|subs| - 1];
      GeometriesOf(subs[..|subs| - 1])
        + [if last.vertexData != null then GeometryOf(last) else Geometry([], 0, SubMeshParts(IndexState(None, 0), [], []))]
  }

  /** What the dedicated pass needs: valid streams, positions for a triangle list, and parts ready. */
  predicate GeometryReady(g: Geometry, decl: seq<VertexElement>, op: OperationType, skeletal: bool) {
    && StreamsValid(decl, g.streams, g.count)
    && (op == TriangleList ==> PositionDeclared(decl))
    && PartsReady(g.parts, op, g.count, skeletal)
  }

  /** What the dedicated pass leaves: valid streams and parts done against their positions. */
  predicate GeometryDone(g: Geometry, decl: seq<VertexElement>, op: OperationType, skeletal: bool, decode: Decoder, tol: real) {
    && StreamsValid(decl, g.streams, g.count)
    && PartsDone(g.parts, op, g.count, VertexPositions(decl, g.streams, decode), skeletal, tol)
  }

  /**
   * A submesh with its own vertex data after its pass in processMesh: the
   * vertices as optimiseGeometry leaves them (its index data registered),
   * the parts as PassedParts says.
   */
  function PassedGeometry(g: Geometry, decl: seq<VertexElement>, op: OperationType, skeletal: bool,
                          c: Comparator, find: Lookup, decode: Decoder, tol: real): (r: Geometry)
    requires GeometryReady(g, decl, op, skeletal) && LookupSound(find)
    ensures GeometryDone(r, decl, op, skeletal, decode, tol)
    ensures r.count <= g.count
  {
    var o := OptimisedVertices(c, find, decl, g.streams, g.count, decode, true);
    Geometry(o.streams, o.count, PassedParts(g.parts, op, g.count, o, VertexPositions(decl, o.streams, decode), skeletal, tol))
  }

  /**
   * The registrations of the shared pass name distinct index data, each
   * ready for the shared vertex count `n`; the shared declaration has
   * positions if any of them is a triangle list.
   */
  lemma RegisteredReady(mesh: Mesh, n: nat, list: seq<IndexDataWithOpType>, positioned: bool)
    requires IndexDataDistinct(mesh.subMeshes)
    requires forall a :: 0 <= a < |mesh.subMeshes| && mesh.subMeshes[a].useSharedVertices ==>
      IndexReady(EntryOf(mesh.subMeshes[a]), n)
    requires forall a :: 0 <= a < |mesh.subMeshes| && mesh.subMeshes[a].useSharedVertices && mesh.subMeshes[a].operationType == TriangleList ==>
      positioned
    requires list == EntriesAt(mesh.subMeshes, SharedPositions(mesh.subMeshes, |mesh.subMeshes|))
    ensures Distinct(IndexDatas(list))
    ensures forall k :: 0 <= k < |list| ==> IndexReady(list[k], n)
    ensures forall k :: 0 <= k < |list| && list[k].operationType == TriangleList ==> positioned
    ensures forall k :: 0 <= k < |list| ==> list[k].indexData in SharedUserIndexData(mesh.subMeshes)
  {
    var subs := mesh.subMeshes;
    var ps := SharedPositions(subs, |subs|);
    forall x, y | 0 <= x < y < |list| ensures list[x].indexData != list[y].indexData {
      assert ps[x] < ps[y];
    }
    forall k | 0 <= k < |list|
      ensures IndexReady(list[k], n) && (list[k].operationType == TriangleList ==> positioned)
      ensures list[k].indexData in SharedUserIndexData(subs)
    {
      assert IndexReady(EntryOf(subs[ps[k]]), n);
    }
  }

  /** The shared pass touches no dedicated submesh's index data. */
  lemma UntouchedByShared(mesh: Mesh, list: seq<IndexDataWithOpType>)
    requires IndexDataDistinct(mesh.subMeshes)
    requires list == EntriesAt(mesh.subMeshes, SharedPositions(mesh.subMeshes, |mesh.subMeshes|))
    ensures forall a :: 0 <= a < |mesh.subMeshes| && !mesh.subMeshes[a].useSharedVertices ==>
      mesh.subMeshes[a].indexData !in set k | 0 <= k < |list| :: list[k].indexData
  {
    var subs := mesh.subMeshes;
    var ps := SharedPositions(subs, |subs|);
    forall a | 0 <= a < |subs| && !subs[a].useSharedVertices
      ensures subs[a].indexData !in set k | 0 <= k < |list| :: list[k].indexData
    {
      forall k | 0 <= k < |list| ensures list[k].indexData != subs[a].indexData {
        assert ps[k] != a;
      }
    }
  }

  /**
   * The inner loop of rebuildVertexBuffers: the k-th survivor's record is
   * copied from every source stream onto the end of the matching new stream.
   */
  method AppendSurvivor(src: seq<VertexBuffer>, streams: seq<VertexBuffer>, list: seq<VertexInfo>, k: nat)
    returns (r: seq<VertexBuffer>)
    requires ListWithin(src, list) && k < |list| && |streams| == |src|
    requires forall s :: 0 <= s < |src| ==> streams[s] == CompactStream(src[s], list, k)
    ensures |r| == |src|
    ensures forall s :: 0 <= s < |src| ==> r[s] == CompactStream(src[s], list, k + 1)
  {
    var origVertexIndex := list[k].oldIndex;
    r := streams;
    var s := 0;
    while s < |src|
      invariant s <= |src| && |r| == |src|
      invariant forall t :: 0 <= t < s ==> r[t] == CompactStream(src[t], list, k + 1)
      invariant forall t :: s <= t < |src| ==> r[t] == CompactStream(src[t], list, k)
    {
      CompactStreamSnoc(src[s], list, k);
      r := r[s := VertexBuffer(r[s].vertexSize, r[s].records + [src[s].records[origVertexIndex]])];
      s := s + 1;
    }
  }

  class Optimiser {
    const posTolerance: real
    const normTolerance: real
    const uvTolerance: real
    var target: VertexData?
    var comparator: Comparator
    var uniqueMap: seq<UniqueEntry>
    var uniqueList: seq<VertexInfo>
    var indexRemap: seq<IndexInfo>
    var indexDataList: seq<IndexDataWithOpType>

    constructor(pos: real, norm: real, uv: real)
      ensures posTolerance == pos && normTolerance == norm && uvTolerance == uv
      ensures target == null && uniqueMap == [] && uniqueList == [] && indexRemap == [] && indexDataList == []
    {
      posTolerance := pos;
      normTolerance := norm;
      uvTolerance := uv;
      target := null;
      comparator := Comparator(pos, norm, uv, 0);
      uniqueMap := [];
      uniqueList := [];
      indexRemap := [];
      indexDataList := [];
    }

    /** Starts work on a new vertex buffer with an empty working state. */
    method SetTargetVertexData(vd: VertexData)
      modifies this
      ensures target == vd
      ensures uniqueMap == [] && uniqueList == [] && indexDataList == [] && indexRemap == []
      ensures comparator == old(comparator)
    {
      target := vd;
      uniqueMap := [];
      uniqueList := [];
      indexDataList := [];
      indexRemap := [];
    }

    /** Registers an index buffer that draws from the target. */
    method AddIndexData(id: IndexData, op: OperationType)
      modifies this
      ensures indexDataList == old(indexDataList) + [IndexDataWithOpType(id, op)]
      ensures target == old(target) && comparator == old(comparator) && uniqueMap == old(uniqueMap)
      ensures uniqueList == old(uniqueList) && indexRemap == old(indexRemap)
    {
      indexDataList := indexDataList + [IndexDataWithOpType(id, op)];
    }

    /**
     * Reads every vertex's key and de-duplicates: with no index data
     * registered nothing happens; otherwise the map is rebuilt with the
     * declaration's comparator, the unique list and remap table grow by the
     * outcome of the de-duplication, and the result says whether any
     * vertex matched an earlier one.
     */
    method CalculateDuplicateVertices(decode: Decoder, find: Lookup) returns (duplicates: bool)
      requires target != null && target.Valid()
      requires LookupSound(find)
      modifies this
      ensures target == old(target) && indexDataList == old(indexDataList)
      ensures old(indexDataList) == [] ==>
        !duplicates && comparator == old(comparator) && uniqueMap == old(uniqueMap)
        && uniqueList == old(uniqueList) && indexRemap == old(indexRemap)
      ensures old(indexDataList) != [] ==>
        var c := ComparatorFor(posTolerance, normTolerance, uvTolerance, target.declaration);
        var st := Dedup(c, find, AllKeys(target.declaration, target.streams, decode, target.vertexCount));
        && duplicates == st.duplicates
        && uniqueList == old(uniqueList) + st.uniqueList
        && indexRemap == old(indexRemap) + st.remap
        && (target.vertexCount > 0 ==> uniqueMap == st.entries && comparator == c)
        && (target.vertexCount == 0 ==> uniqueMap == old(uniqueMap) && comparator == old(comparator))
    {
      duplicates := false;
      if indexDataList == [] {
        return;
      }
      duplicates := ScanVertices(decode, find);
    }

    /** The vertex loop of calculateDuplicateVertices. */
    method ScanVertices(decode: Decoder, find: Lookup) returns (duplicates: bool)
      requires target != null && target.Valid()
      requires LookupSound(find)
      modifies this
      ensures target == old(target) && indexDataList == old(indexDataList)
      ensures
        var c := ComparatorFor(posTolerance, normTolerance, uvTolerance, target.declaration);
        var st := Dedup(c, find, AllKeys(target.declaration, target.streams, decode, target.vertexCount));
        && duplicates == st.duplicates
        && uniqueList == old(uniqueList) + st.uniqueList
        && indexRemap == old(indexRemap) + st.remap
        && (target.vertexCount > 0 ==> uniqueMap == st.entries && comparator == c)
        && (target.vertexCount == 0 ==> uniqueMap == old(uniqueMap) && comparator == old(comparator))
    {
      duplicates := false;
      var decl := target.declaration;
      var streams := target.streams;
      var n := target.vertexCount;
      if n == 0 {
        return;
      }
      ghost var c := ComparatorFor(posTolerance, normTolerance, uvTolerance, decl);
      ghost var keys := AllKeys(decl, streams, decode, n);
      ghost var list0, remap0 := uniqueList, indexRemap;
      // The first vertex also fixes the comparator and empties the map.
      var key, uvSets := BuildUniqueVertex(decl, streams, decode, 0);
      comparator := Comparator(posTolerance, normTolerance, uvTolerance, uvSets);
      uniqueMap := [];
      duplicates := FileVertex(key, 0, find, duplicates, c, EmptyState, list0, remap0);
      assert DedupUpTo(c, find, keys, 1) == Step(c, find, EmptyState, key, 0);
      duplicates := ScanRest(decode, find, duplicates, c, keys, list0, remap0);
    }

    /** The vertex loop from the second vertex on, the first one filed. */
    method ScanRest(decode: Decoder, find: Lookup, duplicatesIn: bool, ghost c: Comparator, ghost keys: seq<UniqueVertex>,
                    ghost list0: seq<VertexInfo>, ghost remap0: seq<IndexInfo>)
      returns (duplicates: bool)
      requires target != null && target.Valid() && target.vertexCount >= 1
      requires LookupSound(find)
      requires c == ComparatorFor(posTolerance, normTolerance, uvTolerance, target.declaration)
      requires keys == AllKeys(target.declaration, target.streams, decode, target.vertexCount)
      requires Tracks(c, DedupUpTo(c, find, keys, 1), 1, list0, remap0) && duplicatesIn == DedupUpTo(c, find, keys, 1).duplicates
      modifies this
      ensures target == old(target) && indexDataList == old(indexDataList)
      ensures Tracks(c, Dedup(c, find, keys), target.vertexCount, list0, remap0) && duplicates == Dedup(c, find, keys).duplicates
    {
      var decl := target.declaration;
      var streams := target.streams;
      var n := target.vertexCount;
      duplicates := duplicatesIn;
      ghost var st := DedupUpTo(c, find, keys, 1);
      var v := 1;
      while v < n
        invariant 1 <= v <= n
        invariant st == DedupUpTo(c, find, keys, v)
        invariant Tracks(c, st, v, list0, remap0) && duplicates == st.duplicates
        invariant target == old(target) && indexDataList == old(indexDataList)
      {
        var key, uvSets := BuildUniqueVertex(decl, streams, decode, v);
        duplicates := FileVertex(key, v, find, duplicates, c, st, list0, remap0);
        st := Step(c, find, st, key, v);
        v := v + 1;
      }
    }

    /** The working state is the de-duplication state `st` reached after `v` vertices, following `list0` and `remap0`. */
    ghost predicate Tracks(c: Comparator, st: DedupState, v: nat, list0: seq<VertexInfo>, remap0: seq<IndexInfo>)
      reads this
    {
      && uniqueList == list0 + st.uniqueList
      && indexRemap == remap0 + st.remap
      && (v > 0 ==> uniqueMap == st.entries && comparator == c)
    }

    /** One iteration of the vertex loop once the key is read: look it up, then remap or insert. */
    method FileVertex(key: UniqueVertex, v: nat, find: Lookup, duplicatesIn: bool, ghost c: Comparator,
                      ghost st: DedupState, ghost list0: seq<VertexInfo>, ghost remap0: seq<IndexInfo>)
      returns (duplicates: bool)
      requires LookupSound(find)
      requires comparator == c && uniqueMap == st.entries
      requires uniqueList == list0 + st.uniqueList && indexRemap == remap0 + st.remap
      requires duplicatesIn == st.duplicates
      modifies this
      ensures Tracks(c, Step(c, find, st, key, v), v + 1, list0, remap0)
      ensures duplicates == Step(c, find, st, key, v).duplicates
      ensures target == old(target) && indexDataList == old(indexDataList)
    {
      duplicates := duplicatesIn;
      var indexUsed: nat;
      var isOrig := false;
      match find(comparator, MapKeys(uniqueMap), key) {
        case Some(j) =>
          indexUsed := uniqueMap[j].info.newIndex;
          duplicates := true;
        case None =>
          isOrig := true;
          indexUsed := |uniqueMap|;
          var newInfo := VertexInfo(v, indexUsed);
          uniqueMap := uniqueMap + [MapEntry(key, newInfo)];
          uniqueList := uniqueList + [newInfo];
      }
      indexRemap := indexRemap + [IndexInfo(indexUsed, isOrig)];
    }

    /**
     * Replaces every stream of the target by one holding, at position k,
     * the record of the k-th unique vertex's source; the vertex count
     * becomes the number of unique vertices.
     */
    method RebuildVertexBuffers()
      requires target != null
      requires ListWithin(target.streams, uniqueList)
      modifies target
      ensures target.streams == CompactStreams(old(target.streams), uniqueList)
      ensures target.vertexCount == |uniqueList|
    {
      var src := target.streams;
      var list := uniqueList;
      var newStreams := seq(|src|, s requires 0 <= s < |src| => CompactStream(src[s], list, 0));
      var k := 0;
      while k < |uniqueList|
        invariant k <= |uniqueList|
        invariant |newStreams| == |src|
        invariant forall s :: 0 <= s < |src| ==> newStreams[s] == CompactStream(src[s], uniqueList, k)
      {
        newStreams := AppendSurvivor(src, newStreams, uniqueList, k);
        k := k + 1;
      }
      target.streams := newStreams;
      target.vertexCount := |uniqueList|;
    }

    /**
     * The loop of remapIndexes over a locked buffer: each of the first
     * `count` indices is rewritten to its target (narrowed to the buffer's
     * width); the width and the length are unchanged.
     */
    method RemapBuffer(buf: IndexBuffer, count: nat) returns (r: IndexBuffer)
      requires BufferRemapReady(Some(buf), count, indexRemap)
      ensures r == RemappedBuffer(buf, count, indexRemap)
    {
      r := buf;
      var j := 0;
      while j < count
        invariant j <= count
        invariant r.is32Bit == buf.is32Bit && |r.indices| == |buf.indices|
        invariant forall i :: 0 <= i < |buf.indices| ==>
          r.indices[i] == (if i < j then Narrow(indexRemap[buf.indices[i]].targetIndex, buf.is32Bit) else buf.indices[i])
      {
        var oldIndex := r.indices[j];
        var newIndex := indexRemap[oldIndex].targetIndex;
        if newIndex != oldIndex {
          r := r.(indices := r.indices[j := Narrow(newIndex, r.is32Bit)]);
        }
        j := j + 1;
      }
    }

    /** remapIndexes: an index data object's buffer is rewritten through the remap table; the count is unchanged. */
    method RemapIndexes(idata: IndexData)
      requires RemapReady(idata, indexRemap)
      modifies idata
      ensures idata.indexCount == old(idata.indexCount)
      ensures idata.indexBuffer == Some(RemappedBuffer(old(idata.indexBuffer.value), old(idata.indexCount), indexRemap))
    {
      var buf := RemapBuffer(idata.indexBuffer.value, idata.indexCount);
      idata.indexBuffer := Some(buf);
    }

    /** Rewrites every registered index buffer through the remap table. */
    method RemapIndexDataList()
      requires Distinct(IndexDatas(indexDataList))
      requires forall k :: 0 <= k < |indexDataList| ==> RemapReady(indexDataList[k].indexData, indexRemap)
      modifies set k | 0 <= k < |indexDataList| :: indexDataList[k].indexData
      ensures forall k :: 0 <= k < |indexDataList| ==>
        var d := indexDataList[k].indexData;
        old(RemapReady(d, indexRemap))
        && d.indexCount == old(d.indexCount)
        && d.indexBuffer == Some(old(RemappedBuffer(d.indexBuffer.value, d.indexCount, indexRemap)))
    {
      var i := 0;
      while i < |indexDataList|
        invariant i <= |indexDataList|
        invariant forall k :: 0 <= k < |indexDataList| ==>
          var d := indexDataList[k].indexData;
          old(RemapReady(d, indexRemap))
          && if k < i then
            d.indexCount == old(d.indexCount)
            && d.indexBuffer == Some(old(RemappedBuffer(d.indexBuffer.value, d.indexCount, indexRemap)))
          else
            d.indexCount == old(d.indexCount) && d.indexBuffer == old(d.indexBuffer)
      {
        RemapIndexes(indexDataList[i].indexData);
        i := i + 1;
      }
    }

    /** fixLOD: every level-of-detail face list of a submesh, rewritten through the remap table. */
    method FixLOD(lodFaces: seq<IndexState>) returns (fixed: seq<IndexState>)
      requires LodsRemapReady(lodFaces, indexRemap)
      ensures fixed == RemappedLods(lodFaces, indexRemap)
    {
      fixed := [];
      var i := 0;
      while i < |lodFaces|
        invariant i <= |lodFaces| && |fixed| == i
        invariant forall k :: 0 <= k < i ==>
          fixed[k] == IndexState(Some(RemappedBuffer(lodFaces[k].buffer.value, lodFaces[k].count, indexRemap)), lodFaces[k].count)
      {
        var buf := RemapBuffer(lodFaces[i].buffer.value, lodFaces[i].count);
        fixed := fixed + [IndexState(Some(buf), lodFaces[i].count)];
        i := i + 1;
      }
    }

    /**
     * The triangle test of removeDegenerateFaces, in the order the source
     * evaluates it: distinct indices, pairwise distinct positions, and half
     * the length of the cross product of two sides not within the area
     * tolerance of zero. The length is compared through its square.
     */
    method CheckTriangle(i0: nat, i1: nat, i2: nat, v0: Vec3, v1: Vec3, v2: Vec3) returns (validTri: bool)
      ensures forall l :: IsLength(l, Cross(Sub(v1, v0), Sub(v2, v0))) ==>
        validTri == (&& i0 != i1 && i1 != i2 && i0 != i2
                     && !PositionEquals(v0, v1, posTolerance) && !PositionEquals(v1, v2, posTolerance)
                     && !PositionEquals(v0, v2, posTolerance)
                     && !RealEqual(0.0, 0.5 * l, AreaTolerance))
      ensures validTri == ValidTriangle(i0, i1, i2, v0, v1, v2, posTolerance)
    {
      forall l | IsLength(l, Cross(Sub(v1, v0), Sub(v2, v0)))
        ensures HasArea(v0, v1, v2) == !RealEqual(0.0, 0.5 * l, AreaTolerance)
      {
        HasAreaMatchesSource(v0, v1, v2, l);
      }
      validTri := i0 != i1 && i1 != i2 && i0 != i2;
      validTri := validTri
        && !PositionEquals(v0, v1, posTolerance)
        && !PositionEquals(v1, v2, posTolerance)
        && !PositionEquals(v0, v2, posTolerance);
      if validTri {
        validTri := HasArea(v0, v1, v2);
      }
    }

    /** The indices of the non-degenerate triangles among the first `count` indices, in order. */
    method CollectValidTriangles(buf: IndexBuffer, count: nat, positions: seq<Vec3>) returns (dest: seq<nat>)
      requires TriangleSpan(count) <= |buf.indices| && IndexBufferValid(buf)
      requires IndicesWithin(buf.indices[..TriangleSpan(count)], positions)
      ensures dest == KeepValidTriangles(buf.indices[..TriangleSpan(count)], positions, posTolerance)
    {
      ghost var read := buf.indices[..TriangleSpan(count)];
      dest := [];
      var j := 0;
      while j < count
        invariant j % 3 == 0 && j <= TriangleSpan(count)
        invariant IndicesWithin(read[..j], positions)
        invariant dest == KeepValidTriangles(read[..j], positions, posTolerance)
      {
        TriangleWithinSpan(j, count);
        var i0, i1, i2 := buf.indices[j], buf.indices[j + 1], buf.indices[j + 2];
        KeepValidTrianglesSnoc(read, j, positions, posTolerance);
        var validTri := CheckTriangle(i0, i1, i2, positions[i0], positions[i1], positions[i2]);
        if validTri {
          assert Narrow(i0, buf.is32Bit) == i0 && Narrow(i1, buf.is32Bit) == i1 && Narrow(i2, buf.is32Bit) == i2;
          dest := dest + [Narrow(i0, buf.is32Bit), Narrow(i1, buf.is32Bit), Narrow(i2, buf.is32Bit)];
        }
        j := j + 3;
      }
      assert read[..j] == read;
    }

    /**
     * Drops the degenerate triangles of one triangle list: the kept
     * triangles, in order, replace the buffer only if some were dropped.
     */
    method RemoveDegenerateFacesOf(idata: IndexData, positions: seq<Vec3>)
      requires DegenerateReady(idata, positions)
      modifies idata
      ensures IndexState(idata.indexBuffer, idata.indexCount)
        == AfterDegenerateRemoval(old(idata.indexBuffer.value), old(idata.indexCount), positions, posTolerance)
    {
      var buf := idata.indexBuffer.value;
      var count := idata.indexCount;
      var dest := CollectValidTriangles(buf, count, positions);
      if |dest| != count {
        if |dest| > 0 {
          idata.indexBuffer := Some(IndexBuffer(buf.is32Bit, dest));
        } else {
          idata.indexBuffer := None;
        }
        idata.indexCount := |dest|;
      }
    }

    /** removeDegenerateFaces over the registered index data: only triangle lists are touched. */
    method RemoveDegenerateFaces(positions: seq<Vec3>)
      requires Distinct(IndexDatas(indexDataList))
      requires forall k :: 0 <= k < |indexDataList| && indexDataList[k].operationType == TriangleList ==>
        DegenerateReady(indexDataList[k].indexData, positions)
      modifies set k | 0 <= k < |indexDataList| :: indexDataList[k].indexData
      ensures forall k :: 0 <= k < |indexDataList| ==>
        var d := indexDataList[k].indexData;
        if indexDataList[k].operationType == TriangleList then
          old(DegenerateReady(d, positions))
          && IndexState(d.indexBuffer, d.indexCount)
            == old(AfterDegenerateRemoval(d.indexBuffer.value, d.indexCount, positions, posTolerance))
        else
          d.indexBuffer == old(d.indexBuffer) && d.indexCount == old(d.indexCount)
    {
      var i := 0;
      while i < |indexDataList|
        invariant i <= |indexDataList|
        invariant forall k :: 0 <= k < |indexDataList| ==>
          var d := indexDataList[k].indexData;
          (indexDataList[k].operationType == TriangleList ==> old(DegenerateReady(d, positions)))
          && if k < i && indexDataList[k].operationType == TriangleList then
            IndexState(d.indexBuffer, d.indexCount)
              == old(AfterDegenerateRemoval(d.indexBuffer.value, d.indexCount, positions, posTolerance))
          else
            d.indexBuffer == old(d.indexBuffer) && d.indexCount == old(d.indexCount)
      {
        if indexDataList[i].operationType == TriangleList {
          RemoveDegenerateFacesOf(indexDataList[i].indexData, positions);
        }
        i := i + 1;
      }
    }

    /** The vertex outcome of optimiseGeometry under this optimiser's tolerances. */
    function VerticesOutcome(decl: seq<VertexElement>, streams: seq<VertexBuffer>, n: nat, decode: Decoder, find: Lookup,
                             registered: bool): VertexOutcome
      requires StreamsValid(decl, streams, n) && LookupSound(find)
    {
      OptimisedVertices(ComparatorFor(posTolerance, normTolerance, uvTolerance, decl), find, decl, streams, n, decode, registered)
    }

    /** PassedGeometry under this optimiser's tolerances. */
    function Passed(g: Geometry, decl: seq<VertexElement>, op: OperationType, skeletal: bool, decode: Decoder, find: Lookup): Geometry
      requires GeometryReady(g, decl, op, skeletal) && LookupSound(find)
    {
      PassedGeometry(g, decl, op, skeletal, ComparatorFor(posTolerance, normTolerance, uvTolerance, decl), find, decode, posTolerance)
    }

    /**
     * The first half of optimiseGeometry: de-duplicate and, if any vertex
     * matched an earlier one, compact the streams and rewrite the
     * registered indices.
     */
    method DeduplicateAndRemap(decode: Decoder, find: Lookup) returns (verticesChanged: bool)
      requires target != null && target.Valid()
      requires LookupSound(find)
      requires uniqueList == [] && indexRemap == []
      requires Distinct(IndexDatas(indexDataList))
      requires forall k :: 0 <= k < |indexDataList| ==> IndexReady(indexDataList[k], target.vertexCount)
      modifies this, target, set k | 0 <= k < |indexDataList| :: indexDataList[k].indexData
      ensures target == old(target) && indexDataList == old(indexDataList)
      ensures
        var o := VerticesOutcome(target.declaration, old(target.streams), old(target.vertexCount), decode, find, indexDataList != []);
        && verticesChanged == o.changed && indexRemap == o.remap
        && target.streams == o.streams && target.vertexCount == o.count
        && forall k :: 0 <= k < |indexDataList| ==>
             old(IndexReady(indexDataList[k], target.vertexCount)) &&
             IndexStateOf(indexDataList[k].indexData)
               == RemapStep(old(IndexStateOf(indexDataList[k].indexData)), old(target.vertexCount), o)
    {
      var vd := target;
      ghost var decl := vd.declaration;
      ghost var streams0, n0 := vd.streams, vd.vertexCount;
      ghost var c := ComparatorFor(posTolerance, normTolerance, uvTolerance, decl);
      ghost var keys := AllKeys(decl, streams0, decode, n0);
      ghost var st := Dedup(c, find, keys);
      verticesChanged := CalculateDuplicateVertices(decode, find);
      if verticesChanged {
        assert uniqueList == st.uniqueList && indexRemap == st.remap;
        DedupRemapTotal(c, find, keys);
        DedupSourcesWithin(c, find, keys);
        CompactKeepsStreamsValid(decl, streams0, n0, st.uniqueList);
        RebuildVertexBuffers();
        forall k | 0 <= k < |indexDataList|
          ensures RemapReady(indexDataList[k].indexData, indexRemap)
        {
          var d := indexDataList[k].indexData;
          RemappedInUse(d.indexBuffer.value, d.indexCount, indexRemap, |uniqueList|);
        }
        RemapIndexDataList();
      }
    }

    /**
     * optimiseGeometry: de-duplicate; if any vertex matched an earlier one,
     * compact the streams and rewrite the registered indices; in every
     * case drop the degenerate triangles of triangle lists. The result
     * says whether the vertices changed. The target's positions are read
     * only when a triangle list is registered.
     */
    method OptimiseGeometry(decode: Decoder, find: Lookup) returns (verticesChanged: bool)
      requires target != null && target.Valid()
      requires LookupSound(find)
      requires uniqueList == [] && indexRemap == []
      requires Distinct(IndexDatas(indexDataList))
      requires forall k :: 0 <= k < |indexDataList| ==> IndexReady(indexDataList[k], target.vertexCount)
      requires forall k :: 0 <= k < |indexDataList| && indexDataList[k].operationType == TriangleList ==> HasPosition(target)
      modifies this, target, set k | 0 <= k < |indexDataList| :: indexDataList[k].indexData
      ensures target == old(target) && indexDataList == old(indexDataList)
      ensures
        var o := VerticesOutcome(target.declaration, old(target.streams), old(target.vertexCount), decode, find, indexDataList != []);
        && verticesChanged == o.changed && indexRemap == o.remap
        && target.streams == o.streams && target.vertexCount == o.count
        && forall k :: 0 <= k < |indexDataList| ==>
             IndexOptimised(indexDataList[k].indexData, indexDataList[k].operationType, old(IndexStateOf(indexDataList[k].indexData)),
                            old(target.vertexCount), o, VertexPositions(target.declaration, target.streams, decode), posTolerance)
    {
      var vd := target;
      verticesChanged := DeduplicateAndRemap(decode, find);
      var positions := VertexPositions(vd.declaration, vd.streams, decode);
      forall k | 0 <= k < |indexDataList| && indexDataList[k].operationType == TriangleList
        ensures DegenerateReady(indexDataList[k].indexData, positions)
      {
        var d := indexDataList[k].indexData;
        AfterRemovalSound(d.indexBuffer.value, d.indexCount, positions, posTolerance, vd.vertexCount);
      }
      RemoveDegenerateFaces(positions);
    }

    /**
     * getAdjustedBoneAssignments: the assignments of original vertices,
     * moved to their compacted indices, filed into a new multimap.
     */
    method GetAdjustedBoneAssignments(bas: MultiMap<BoneAssignment>) returns (newList: MultiMap<BoneAssignment>)
      requires RemapCovers(bas, indexRemap)
      ensures newList == AdjustedAssignments(bas, indexRemap)
    {
      newList := [];
      ghost var kept: seq<Entry<BoneAssignment>> := [];
      var i := 0;
      while i < |bas|
        invariant i <= |bas|
        invariant RemapCovers(bas[..i], indexRemap) && kept == KeptRetargeted(bas[..i], indexRemap)
        invariant newList == InsertAll([], kept)
      {
        KeptRetargetedSnoc(bas, i, indexRemap);
        var ass := bas[i].value;
        var ii := indexRemap[ass.vertexIndex];
        if ii.isOriginal {
          ass := ass.(vertexIndex := ii.targetIndex);
          InsertAllSnoc([], kept, Entry(ass.vertexIndex, ass));
          newList := Insert(newList, Entry(ass.vertexIndex, ass));
          kept := kept + [Entry(ass.vertexIndex, ass)];
        }
        i := i + 1;
      }
      assert bas[..i] == bas;
    }

    /** A submesh's or the mesh's bone assignments, adjusted and filed again (the clear-and-add loop of processMesh). */
    method ReplaceBones(bas: MultiMap<BoneAssignment>) returns (m: MultiMap<BoneAssignment>)
      requires RemapCovers(bas, indexRemap)
      ensures m == AdjustedAssignments(bas, indexRemap)
    {
      var newList := GetAdjustedBoneAssignments(bas);
      m := RefileAssignments(newList);
      AdjustedIsKeyed(bas, indexRemap);
      ReAddingKeyedListIsIdentity(newList);
    }

    /**
     * After a pass that changed the vertices: the submesh's bone
     * assignments are adjusted when the mesh is skeletal, and its LOD face
     * lists are remapped.
     */
    method FinishSubMesh(sm: SubMesh, skeletal: bool, ghost bound: nat)
      requires RemapShrinks(indexRemap, |indexRemap|, bound)
      requires skeletal ==> RemapCovers(sm.boneAssignments, indexRemap)
      requires LodsReady(sm.lodFaceList, |indexRemap|)
      modifies sm
      ensures sm.materialName == old(sm.materialName)
      ensures skeletal ==> sm.boneAssignments == AdjustedAssignments(old(sm.boneAssignments), indexRemap)
      ensures !skeletal ==> sm.boneAssignments == old(sm.boneAssignments)
      ensures LodsRemapReady(old(sm.lodFaceList), indexRemap)
      ensures sm.lodFaceList == RemappedLods(old(sm.lodFaceList), indexRemap)
      ensures LodsReady(sm.lodFaceList, bound)
    {
      if skeletal {
        sm.boneAssignments := ReplaceBones(sm.boneAssignments);
      }
      RemappedLodsInUse(sm.lodFaceList, indexRemap, bound);
      sm.lodFaceList := FixLOD(sm.lodFaceList);
    }

    /** Registers the index data of every submesh that uses the shared vertex data, in submesh order. */
    method RegisterSharedIndexData(mesh: Mesh)
      modifies this
      ensures indexDataList == old(indexDataList) + EntriesAt(mesh.subMeshes, SharedPositions(mesh.subMeshes, |mesh.subMeshes|))
      ensures target == old(target) && uniqueList == old(uniqueList) && indexRemap == old(indexRemap)
    {
      var subs := mesh.subMeshes;
      ghost var list0 := indexDataList;
      var i := 0;
      while i < |subs|
        invariant i <= |subs|
        invariant target == old(target) && uniqueList == old(uniqueList) && indexRemap == old(indexRemap)
        invariant indexDataList == list0 + EntriesAt(subs, SharedPositions(subs, i))
        modifies this
      {
        if subs[i].useSharedVertices {
          AddIndexData(subs[i].indexData, subs[i].operationType);
        }
        i := i + 1;
      }
    }

    /** The opening of the shared pass: the shared vertex data becomes the target and its users register, in submesh order. */
    method TargetShared(mesh: Mesh)
      requires mesh.sharedVertexData != null
      modifies this
      ensures target == mesh.sharedVertexData && uniqueList == [] && indexRemap == []
      ensures indexDataList == EntriesAt(mesh.subMeshes, SharedPositions(mesh.subMeshes, |mesh.subMeshes|))
    {
      SetTargetVertexData(mesh.sharedVertexData);
      RegisterSharedIndexData(mesh);
    }

    /**
     * The submesh loop of the fix-up after the shared vertices changed, as
     * corrected: the submeshes that use the shared vertex data have their
     * bone assignments adjusted (when the mesh is skeletal) and their LOD
     * face lists remapped; submeshes with their own vertex data are left
     * to their own pass.
     */
    method FixSubMeshes(mesh: Mesh, ghost parts: seq<SubMeshParts>, ghost n0: nat, ghost n: nat)
      requires SubMeshesDistinct(mesh.subMeshes)
      requires RemapShrinks(indexRemap, n0, n)
      requires UsersReady(mesh.subMeshes, parts, n0, mesh.skeletonName != "")
      requires UsersAsBefore(mesh.subMeshes, parts)
      modifies SharedUsers(mesh.subMeshes)
      ensures UsersFixedBelow(mesh.subMeshes, parts, indexRemap, mesh.skeletonName != "", |mesh.subMeshes|)
    {
      var subs := mesh.subMeshes;
      var skeletal := mesh.skeletonName != "";
      var i := 0;
      while i < |subs|
        invariant i <= |subs|
        invariant UsersFixedBelow(subs, parts, indexRemap, skeletal, i)
        modifies SharedUsers(subs)
      {
        if subs[i].useSharedVertices {
          assert AsBefore(subs[i], parts[i]) && PartsReady(parts[i], subs[i].operationType, n0, skeletal);
          FinishSubMesh(subs[i], skeletal, n);
          assert Fixed(subs[i], parts[i], indexRemap, skeletal);
        }
        i := i + 1;
      }
    }

    /**
     * The optimising half of the shared pass: the shared vertex data becomes
     * the target, the submeshes that use it register their index data, and
     * the geometry is optimised. The mesh, the submeshes and the index data
     * of dedicated submeshes are not touched.
     */
    method OptimiseShared(mesh: Mesh, decode: Decoder, find: Lookup) returns (verticesChanged: bool)
      requires mesh.sharedVertexData != null && IndexDataDistinct(mesh.subMeshes) && LookupSound(find)
      requires mesh.sharedVertexData.Valid()
      requires forall a :: 0 <= a < |mesh.subMeshes| && mesh.subMeshes[a].useSharedVertices ==>
        IndexReady(EntryOf(mesh.subMeshes[a]), mesh.sharedVertexData.vertexCount)
      requires forall a :: 0 <= a < |mesh.subMeshes| && mesh.subMeshes[a].useSharedVertices && mesh.subMeshes[a].operationType == TriangleList ==>
        HasPosition(mesh.sharedVertexData)
      modifies this, mesh.sharedVertexData, SharedUserIndexData(mesh.subMeshes)
      ensures
        var sv := mesh.sharedVertexData;
        var o := VerticesOutcome(sv.declaration, old(sv.streams), old(sv.vertexCount), decode, find,
                                 SharedPositions(mesh.subMeshes, |mesh.subMeshes|) != []);
        && verticesChanged == o.changed && indexRemap == o.remap
        && sv.streams == o.streams && sv.vertexCount == o.count
        && UsersIndexOptimised(mesh.subMeshes, old(PartsOfAll(mesh.subMeshes)), old(sv.vertexCount), o,
                               VertexPositions(sv.declaration, sv.streams, decode), posTolerance)
    {
      var subs := mesh.subMeshes;
      ghost var parts0 := PartsOfAll(subs);
      ghost var list := EntriesAt(subs, SharedPositions(subs, |subs|));
      ghost var ps := SharedPositions(subs, |subs|);
      ghost var o := VerticesOutcome(mesh.sharedVertexData.declaration, mesh.sharedVertexData.streams,
                                     mesh.sharedVertexData.vertexCount, decode, find, ps != []);
      RegisteredReady(mesh, mesh.sharedVertexData.vertexCount, list, HasPosition(mesh.sharedVertexData));
      TargetShared(mesh);
      verticesChanged := OptimiseGeometry(decode, find);
      UsersOptimisedFromRegistered(subs, parts0, indexDataList, old(mesh.sharedVertexData.vertexCount), o,
                                   VertexPositions(mesh.sharedVertexData.declaration, mesh.sharedVertexData.streams, decode), posTolerance);
    }

    /**
     * The fix-up after the shared vertices changed: the mesh's own bone
     * assignments are adjusted when the mesh is skeletal, then the
     * submeshes that use the shared vertex data are fixed.
     */
    method FixShared(mesh: Mesh, ghost parts: seq<SubMeshParts>, ghost n0: nat, ghost n: nat)
      requires SubMeshesDistinct(mesh.subMeshes)
      requires RemapShrinks(indexRemap, n0, n)
      requires UsersReady(mesh.subMeshes, parts, n0, mesh.skeletonName != "")
      requires UsersAsBefore(mesh.subMeshes, parts)
      requires mesh.skeletonName != "" ==> BonesBelow(mesh.boneAssignments, n0)
      modifies mesh, SharedUsers(mesh.subMeshes)
      ensures mesh.skeletonName == old(mesh.skeletonName)
      ensures mesh.skeletonName != "" ==> mesh.boneAssignments == AdjustedAssignments(old(mesh.boneAssignments), indexRemap)
      ensures mesh.skeletonName == "" ==> mesh.boneAssignments == old(mesh.boneAssignments)
      ensures UsersFixedBelow(mesh.subMeshes, parts, indexRemap, mesh.skeletonName != "", |mesh.subMeshes|)
    {
      if mesh.skeletonName != "" {
        mesh.boneAssignments := ReplaceBones(mesh.boneAssignments);
      }
      FixSubMeshes(mesh, parts, n0, n);
    }

    /**
     * The shared pass has run on `mesh`, whose shared vertex data had
     * streams `streams0` over `n0` vertices, whose bone assignments were
     * `bones0` and whose submeshes' parts were `parts0`: the shared
     * vertices are as optimiseGeometry leaves them with the users' index
     * data registered; if they changed, the mesh's bone assignments are
     * adjusted (when skeletal); every user is as PassedParts says.
     */
    ghost predicate SharedPassed(mesh: Mesh, streams0: seq<VertexBuffer>, n0: nat, bones0: MultiMap<BoneAssignment>,
                                 parts0: seq<SubMeshParts>, decode: Decoder, find: Lookup)
      reads mesh, mesh.sharedVertexData
      reads SharedUsers(mesh.subMeshes), SharedUserIndexData(mesh.subMeshes)
    {
      && mesh.sharedVertexData != null && LookupSound(find)
      && StreamsValid(mesh.sharedVertexData.declaration, streams0, n0)
      && var sv := mesh.sharedVertexData;
         var skeletal := mesh.skeletonName != "";
         var o := VerticesOutcome(sv.declaration, streams0, n0, decode, find, SharedPositions(mesh.subMeshes, |mesh.subMeshes|) != []);
         && sv.streams == o.streams && sv.vertexCount == o.count
         && (skeletal ==> BonesBelow(bones0, n0))
         && mesh.boneAssignments == (if skeletal && o.changed then AdjustedAssignments(bones0, o.remap) else bones0)
         && UsersPassed(mesh.subMeshes, parts0, n0, o, VertexPositions(sv.declaration, sv.streams, decode), skeletal, posTolerance)
    }

    /**
     * What follows optimiseGeometry in the shared half of processMesh: if
     * the vertices changed, the fix-up runs; either way the mesh's bone
     * assignments are as the outcome `o` says and every user of the shared
     * vertex data ends as PassedParts says.
     */
    method FinishShared(mesh: Mesh, changed: bool, ghost parts: seq<SubMeshParts>, ghost n0: nat,
                        ghost o: VertexOutcome, ghost positions: seq<Vec3>)
      requires SubMeshesDistinct(mesh.subMeshes)
      requires changed == o.changed && indexRemap == o.remap && Shrinks(o, n0)
      requires UsersReady(mesh.subMeshes, parts, n0, mesh.skeletonName != "")
      requires UsersAsBefore(mesh.subMeshes, parts)
      requires UsersIndexOptimised(mesh.subMeshes, parts, n0, o, positions, posTolerance)
      requires mesh.skeletonName != "" ==> BonesBelow(mesh.boneAssignments, n0)
      modifies mesh, SharedUsers(mesh.subMeshes)
      ensures mesh.skeletonName == old(mesh.skeletonName)
      ensures mesh.boneAssignments
        == if mesh.skeletonName != "" && o.changed then AdjustedAssignments(old(mesh.boneAssignments), o.remap)
           else old(mesh.boneAssignments)
      ensures UsersPassed(mesh.subMeshes, parts, n0, o, positions, mesh.skeletonName != "", posTolerance)
    {
      if changed {
        FixShared(mesh, parts, n0, o.count);
      }
      UsersPassedFromSteps(mesh.subMeshes, parts, n0, o, positions, mesh.skeletonName != "", posTolerance);
    }

    /**
     * The shared-geometry half of processMesh, as corrected: the submeshes
     * that use the shared vertex data register their index data and the
     * shared geometry is optimised; if the vertices changed, the bone
     * assignments of the mesh and of the submeshes that use the shared
     * vertex data are adjusted and their LOD face lists remapped.
     * Submeshes with their own vertex data are left to their own pass.
     */
    method ProcessShared(mesh: Mesh, decode: Decoder, find: Lookup) returns (verticesChanged: bool)
      requires mesh.sharedVertexData != null && SubMeshesDistinct(mesh.subMeshes) && IndexDataDistinct(mesh.subMeshes)
      requires LookupSound(find) && mesh.sharedVertexData.Valid()
      requires forall a :: 0 <= a < |mesh.subMeshes| && mesh.subMeshes[a].useSharedVertices ==>
        SharedUserReady(mesh.subMeshes[a], mesh.sharedVertexData.vertexCount, mesh.skeletonName != "")
      requires forall a :: 0 <= a < |mesh.subMeshes| && mesh.subMeshes[a].useSharedVertices && mesh.subMeshes[a].operationType == TriangleList ==>
        HasPosition(mesh.sharedVertexData)
      requires mesh.skeletonName != "" ==> BonesBelow(mesh.boneAssignments, mesh.sharedVertexData.vertexCount)
      modifies this, mesh, mesh.sharedVertexData, SharedUsers(mesh.subMeshes), SharedUserIndexData(mesh.subMeshes)
      ensures mesh.skeletonName == old(mesh.skeletonName)
      ensures verticesChanged == (mesh.sharedVertexData.vertexCount < old(mesh.sharedVertexData.vertexCount))
      ensures SharedPassed(mesh, old(mesh.sharedVertexData.streams), old(mesh.sharedVertexData.vertexCount),
                           old(mesh.boneAssignments), old(PartsOfAll(mesh.subMeshes)), decode, find)
    {
      var shared := mesh.sharedVertexData;
      var subs := mesh.subMeshes;
      ghost var skeletal := mesh.skeletonName != "";
      ghost var parts0 := PartsOfAll(subs);
      ghost var n0 := shared.vertexCount;
      ghost var o := VerticesOutcome(shared.declaration, shared.streams, n0, decode, find, SharedPositions(subs, |subs|) != []);
      UsersReadyNow(subs, n0, skeletal);
      verticesChanged := OptimiseShared(mesh, decode, find);
      ghost var positions := VertexPositions(shared.declaration, shared.streams, decode);
      FinishShared(mesh, verticesChanged, parts0, n0, o, positions);
      OptimisedVerticesChangedIffShrunk(ComparatorFor(posTolerance, normTolerance, uvTolerance, shared.declaration),
                                        find, shared.declaration, old(shared.streams), n0, decode,
                                        SharedPositions(subs, |subs|) != []);
    }

    /**
     * The pass over one submesh with its own vertex data: that vertex data
     * becomes the target, the submesh's index data is registered, and the
     * geometry is optimised; if the vertices changed, the submesh's bone
     * assignments are adjusted (when the mesh is skeletal) and its LOD face
     * lists remapped.
     */
    method ProcessDedicated(sm: SubMesh, skeletal: bool, decode: Decoder, find: Lookup) returns (verticesChanged: bool)
      requires LookupSound(find) && sm.vertexData != null
      requires GeometryReady(GeometryOf(sm), sm.vertexData.declaration, sm.operationType, skeletal)
      modifies this, sm, sm.vertexData, sm.indexData
      ensures verticesChanged
        == VerticesOutcome(sm.vertexData.declaration, old(sm.vertexData.streams), old(sm.vertexData.vertexCount), decode, find, true).changed
      ensures GeometryOf(sm) == Passed(old(GeometryOf(sm)), sm.vertexData.declaration, sm.operationType, skeletal, decode, find)
    {
      var vd := sm.vertexData;
      ghost var g := GeometryOf(sm);
      ghost var o := VerticesOutcome(vd.declaration, vd.streams, vd.vertexCount, decode, find, true);
      ghost var r := Passed(g, vd.declaration, sm.operationType, skeletal, decode, find);
      SetTargetVertexData(vd);
      AddIndexData(sm.indexData, sm.operationType);
      assert indexDataList == [IndexDataWithOpType(sm.indexData, sm.operationType)];
      assert IndexDatas(indexDataList) == [sm.indexData];
      assert IndexReady(indexDataList[0], vd.vertexCount);
      verticesChanged := OptimiseGeometry(decode, find);
      assert IndexOptimised(sm.indexData, sm.operationType, g.parts.index, g.count, o,
                            VertexPositions(vd.declaration, vd.streams, decode), posTolerance);
      assert vd.streams == o.streams && vd.vertexCount == o.count;
      assert IndexStateOf(sm.indexData) == r.parts.index;
      if verticesChanged {
        FinishSubMesh(sm, skeletal, vd.vertexCount);
      }
      assert sm.lodFaceList == r.parts.lods;
      assert sm.boneAssignments == r.parts.bones;
    }

    /**
     * The dedicated loop before submesh `i`: every submesh with its own
     * vertex data was in state `before`; those before `i` have passed, the
     * others are untouched.
     */
    ghost predicate DedicatedProgress(subs: seq<SubMesh>, before: seq<Geometry>, i: nat, skeletal: bool, decode: Decoder, find: Lookup)
      reads DedicatedSubMeshes(subs), DedicatedIndexData(subs), DedicatedVertexData(subs)
    {
      && |before| == |subs| && LookupSound(find)
      && forall a :: 0 <= a < |subs| && !subs[a].useSharedVertices ==>
        && subs[a].vertexData != null
        && GeometryReady(before[a], subs[a].vertexData.declaration, subs[a].operationType, skeletal)
        && GeometryOf(subs[a])
             == if a < i then Passed(before[a], subs[a].vertexData.declaration, subs[a].operationType, skeletal, decode, find)
                else before[a]
    }

    /** The dedicated-geometry loop of processMesh: every submesh with its own vertex data goes through its own pass, in order. */
    method ProcessDedicatedSubMeshes(subs: seq<SubMesh>, ghost before: seq<Geometry>, skeletal: bool, decode: Decoder, find: Lookup)
      requires SubMeshesDistinct(subs) && IndexDataDistinct(subs) && DedicatedVertexDataDistinct(subs)
      requires DedicatedProgress(subs, before, 0, skeletal, decode, find)
      modifies this, DedicatedSubMeshes(subs), DedicatedVertexData(subs), DedicatedIndexData(subs)
      ensures DedicatedProgress(subs, before, |subs|, skeletal, decode, find)
    {
      for i := 0 to |subs|
        invariant DedicatedProgress(subs, before, i, skeletal, decode, find)
      {
        DedicatedStep(subs, before, i, skeletal, decode, find);
      }
    }

    /** One turn of the dedicated loop: submesh i goes through its pass and no other submesh is touched. */
    method DedicatedStep(subs: seq<SubMesh>, ghost before: seq<Geometry>, i: nat, skeletal: bool, decode: Decoder, find: Lookup)
      requires i < |subs|
      requires SubMeshesDistinct(subs) && IndexDataDistinct(subs) && DedicatedVertexDataDistinct(subs)
      requires DedicatedProgress(subs, before, i, skeletal, decode, find)
      modifies if subs[i].useSharedVertices then {} else {this, subs[i], subs[i].vertexData, subs[i].indexData}
      ensures DedicatedProgress(subs, before, i + 1, skeletal, decode, find)
    {
      if subs[i].useSharedVertices {
        return;
      }
      forall a | 0 <= a < |subs| && a != i
        ensures subs[a] != subs[i] && subs[a].indexData != subs[i].indexData
        ensures !subs[a].useSharedVertices ==> subs[a].vertexData != subs[i].vertexData
      {
      }
      label Before:
      var _ := ProcessDedicated(subs[i], skeletal, decode, find);
      forall a | 0 <= a < |subs| && a != i && !subs[a].useSharedVertices
        ensures GeometryOf(subs[a]) == old@Before(GeometryOf(subs[a]))
      {
      }
    }

    /**
     * The shared pass of processMesh seen from the whole mesh: it leaves
     * the submeshes with their own vertex data alone.
     */
    method SharedBeforeDedicated(mesh: Mesh, ghost before: seq<Geometry>, skeletal: bool, decode: Decoder, find: Lookup)
      requires MeshDistinct(mesh) && LookupSound(find) && skeletal == (mesh.skeletonName != "")
      requires mesh.sharedVertexData != null && mesh.sharedVertexData.Valid()
      requires forall a :: 0 <= a < |mesh.subMeshes| && mesh.subMeshes[a].useSharedVertices ==>
        SharedUserReady(mesh.subMeshes[a], mesh.sharedVertexData.vertexCount, skeletal)
      requires forall a :: 0 <= a < |mesh.subMeshes| && mesh.subMeshes[a].useSharedVertices && mesh.subMeshes[a].operationType == TriangleList ==>
        HasPosition(mesh.sharedVertexData)
      requires skeletal ==> BonesBelow(mesh.boneAssignments, mesh.sharedVertexData.vertexCount)
      requires DedicatedProgress(mesh.subMeshes, before, 0, skeletal, decode, find)
      modifies this, mesh, mesh.sharedVertexData, SharedUsers(mesh.subMeshes), SharedUserIndexData(mesh.subMeshes)
      ensures mesh.skeletonName == old(mesh.skeletonName)
      ensures SharedPassed(mesh, old(mesh.sharedVertexData.streams), old(mesh.sharedVertexData.vertexCount),
                           old(mesh.boneAssignments), old(PartsOfAll(mesh.subMeshes)), decode, find)
      ensures DedicatedProgress(mesh.subMeshes, before, 0, skeletal, decode, find)
    {
      PassesApart(mesh);
      var _ := ProcessShared(mesh, decode, find);
    }

    /**
     * The dedicated loop of processMesh seen from the whole mesh: it leaves
     * what the shared pass did alone.
     */
    method DedicatedAfterShared(mesh: Mesh, ghost before: seq<Geometry>, ghost streams0: seq<VertexBuffer>, ghost n0: nat,
                                ghost bones0: MultiMap<BoneAssignment>, ghost parts0: seq<SubMeshParts>,
                                skeletal: bool, decode: Decoder, find: Lookup)
      requires MeshDistinct(mesh)
      requires DedicatedProgress(mesh.subMeshes, before, 0, skeletal, decode, find)
      requires mesh.sharedVertexData != null ==> SharedPassed(mesh, streams0, n0, bones0, parts0, decode, find)
      modifies this, DedicatedSubMeshes(mesh.subMeshes), DedicatedIndexData(mesh.subMeshes), DedicatedVertexData(mesh.subMeshes)
      ensures DedicatedProgress(mesh.subMeshes, before, |mesh.subMeshes|, skeletal, decode, find)
      ensures mesh.sharedVertexData != null ==> SharedPassed(mesh, streams0, n0, bones0, parts0, decode, find)
    {
      var subs := mesh.subMeshes;
      PassesApart(mesh);
      label Shared:
      ProcessDedicatedSubMeshes(subs, before, skeletal, decode, find);
      assert unchanged@Shared(mesh);
      assert mesh.sharedVertexData != null ==> unchanged@Shared(mesh.sharedVertexData);
      assert unchanged@Shared(SharedUsers(subs)) && unchanged@Shared(SharedUserIndexData(subs));
    }

    /**
     * processMesh, with the shared pass as corrected: the shared vertex
     * data, when there is any, is optimised together with the index data
     * of the submeshes that use it, and the mesh's and those submeshes'
     * bone assignments and LOD face lists follow; then every submesh with
     * its own vertex data is optimised on its own. Each ends in the state
     * the value-level passes describe.
     */
    method ProcessMesh(mesh: Mesh, decode: Decoder, find: Lookup)
      requires MeshDistinct(mesh) && LookupSound(find)
      requires mesh.sharedVertexData != null ==> mesh.sharedVertexData.Valid()
      requires mesh.sharedVertexData != null ==> forall a :: 0 <= a < |mesh.subMeshes| && mesh.subMeshes[a].useSharedVertices ==>
        SharedUserReady(mesh.subMeshes[a], mesh.sharedVertexData.vertexCount, mesh.skeletonName != "")
      requires mesh.sharedVertexData != null ==> forall a :: 0 <= a < |mesh.subMeshes| && mesh.subMeshes[a].useSharedVertices && mesh.subMeshes[a].operationType == TriangleList ==>
        HasPosition(mesh.sharedVertexData)
      requires mesh.sharedVertexData != null && mesh.skeletonName != "" ==>
        BonesBelow(mesh.boneAssignments, mesh.sharedVertexData.vertexCount)
      requires forall a :: 0 <= a < |mesh.subMeshes| && !mesh.subMeshes[a].useSharedVertices ==>
        mesh.subMeshes[a].vertexData != null
        && GeometryReady(GeometryOf(mesh.subMeshes[a]), mesh.subMeshes[a].vertexData.declaration,
                         mesh.subMeshes[a].operationType, mesh.skeletonName != "")
      modifies this, mesh, mesh.sharedVertexData, SharedUsers(mesh.subMeshes), SharedUserIndexData(mesh.subMeshes)
      modifies DedicatedSubMeshes(mesh.subMeshes), DedicatedIndexData(mesh.subMeshes), DedicatedVertexData(mesh.subMeshes)
      ensures mesh.skeletonName == old(mesh.skeletonName)
      ensures mesh.sharedVertexData == null ==> mesh.boneAssignments == old(mesh.boneAssignments)
      ensures mesh.sharedVertexData != null ==>
        SharedPassed(mesh, old(mesh.sharedVertexData.streams), old(mesh.sharedVertexData.vertexCount),
                     old(mesh.boneAssignments), old(PartsOfAll(mesh.subMeshes)), decode, find)
      ensures DedicatedProgress(mesh.subMeshes, old(GeometriesOf(mesh.subMeshes)), |mesh.subMeshes|, mesh.skeletonName != "", decode, find)
    {
      var subs := mesh.subMeshes;
      var skeletal := mesh.skeletonName != "";
      ghost var before := GeometriesOf(subs);
      ghost var parts0 := PartsOfAll(subs);
      ghost var bones0 := mesh.boneAssignments;
      ghost var sv0 := mesh.sharedVertexData;
      ghost var streams0 := if sv0 != null then sv0.streams else [];
      ghost var n0 := if sv0 != null then sv0.vertexCount else 0;
      assert DedicatedProgress(subs, before, 0, skeletal, decode, find);
      if mesh.sharedVertexData != null {
        SharedBeforeDedicated(mesh, before, skeletal, decode, find);
      }
      DedicatedAfterShared(mesh, before, streams0, n0, bones0, parts0, skeletal, decode, find);
    }
  }
}
