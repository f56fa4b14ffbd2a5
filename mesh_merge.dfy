/**
 * The mesh merge tool: it collects meshes that agree on their skeleton and
 * bakes them into one new mesh holding every submesh of every collected
 * mesh. The collected meshes are only read, so they are values here; the
 * tool's own state (the base skeleton and the accepted meshes) is a class.
 */
module MeshMerge {
  import opened Wrappers
  import opened Vectors
  import opened VertexLayout
  import opened BoneAssignments
  import opened MeshData
  import opened SubMeshNames

  /** A loaded skeleton, compared by identity: the manager keeps one per name. */
  datatype SkeletonRef = SkeletonRef(handle: nat, name: string)

  /** SkeletonManager::getByName: the loaded skeleton of that name, if any. */
  type SkeletonRegistry = string -> Option<SkeletonRef>

  /** Vertex data as a value: what `VertexData::clone` copies. */
  datatype VertexSnapshot = VertexSnapshot(declaration: seq<VertexElement>, streams: seq<VertexBuffer>, vertexCount: nat)

  /** AxisAlignedBox: null, finite with corners `lo` and `hi`, or infinite. */
  datatype Box = NullBox | FiniteBox(lo: Vec3, hi: Vec3) | InfiniteBox

  datatype SourceSubMesh = SourceSubMesh(
    useSharedVertices: bool,
    operationType: OperationType,
    indexData: IndexState,
    vertexData: Option<VertexSnapshot>,
    materialName: string,
    boneAssignments: MultiMap<BoneAssignment>)

  datatype SourceMesh = SourceMesh(
    name: string,
    skeleton: Option<SkeletonRef>,      // the skeleton the mesh already holds, if loaded
    skeletonName: string,               // "" when the mesh has no skeleton link
    subMeshes: seq<SourceSubMesh>,
    subMeshNames: seq<NameEntry>,
    sharedVertexData: Option<VertexSnapshot>,
    boneAssignments: MultiMap<BoneAssignment>,
    bounds: Box)

  datatype BakedSubMesh = BakedSubMesh(
    name: string,                       // "" for a submesh created without a name
    useSharedVertices: bool,
    operationType: OperationType,
    indexData: IndexState,
    vertexData: Option<VertexSnapshot>,
    materialName: string,
    boneAssignments: MultiMap<BoneAssignment>)

  datatype BakedMesh = BakedMesh(
    name: string,
    skeletonName: string,
    subMeshes: seq<BakedSubMesh>,
    sharedVertexData: Option<VertexSnapshot>,
    boneAssignments: MultiMap<BoneAssignment>,
    bounds: Box)

  // ---------------------------------------------------------------------
  // Collecting meshes

  /**
   * The skeleton addMesh works with: the one the mesh holds, else the
   * manager's skeleton of the mesh's skeleton name when it has one.
   */
  function ResolveSkeleton(m: SourceMesh, registry: SkeletonRegistry): (r: Option<SkeletonRef>)
    ensures m.skeletonName == "" ==> r == m.skeleton
  {
    if m.skeleton.None? && m.skeletonName != "" then registry(m.skeletonName) else m.skeleton
  }

  /** What addMesh did with a mesh; MixedSkeletons is the logic_error it throws. */
  datatype AddOutcome = Added | SkippedNoSkeleton | SkippedOtherSkeleton | MixedSkeletons

  /**
   * The tool's state as a value: the base skeleton, the accepted meshes and,
   * for the proofs, the skeleton each accepted mesh resolved to.
   */
  datatype MergeState = MergeState(base: Option<SkeletonRef>, meshes: seq<SourceMesh>, accepted: seq<Option<SkeletonRef>>)

  datatype AddResult = AddResult(outcome: AddOutcome, state: MergeState)

  /** Every accepted mesh has the base skeleton (so all have none when there is none), and a base skeleton came with a mesh. */
  predicate Consistent(s: MergeState) {
    && |s.accepted| == |s.meshes|
    && (forall i :: 0 <= i < |s.accepted| ==> s.accepted[i] == s.base)
    && (s.base.Some? ==> |s.meshes| > 0)
  }

  /**
   * addMesh on the state value, for a mesh whose skeleton resolved to
   * `skel`: skip a skeleton-less mesh once a base exists, fail on a
   * skeletal mesh after skeleton-less ones, adopt the first skeleton, then
   * accept the mesh exactly when its skeleton is the base.
   */
  function AddStep(s: MergeState, m: SourceMesh, skel: Option<SkeletonRef>): (r: AddResult)
    ensures r.outcome == SkippedNoSkeleton <==> skel.None? && s.base.Some?
    ensures r.outcome == MixedSkeletons <==> skel.Some? && s.base.None? && |s.meshes| > 0
    ensures r.outcome == Added <==> skel == r.state.base && !(skel.Some? && s.base.None? && |s.meshes| > 0)
    ensures r.outcome == Added ==> r.state.meshes == s.meshes + [m] && r.state.accepted == s.accepted + [skel]
    ensures r.outcome != Added ==> r.state.meshes == s.meshes && r.state.accepted == s.accepted
    ensures r.state.base != s.base ==> s.base.None? && s.meshes == [] && r.state.base == skel && r.outcome == Added
    ensures Consistent(s) ==> Consistent(r.state)
  {
    if skel.None? && s.base.Some? then AddResult(SkippedNoSkeleton, s)
    else if skel.Some? && s.base.None? && |s.meshes| > 0 then AddResult(MixedSkeletons, s)
    else
      var base := if skel.Some? && s.base.None? && |s.meshes| == 0 then skel else s.base;
      if skel != base then AddResult(SkippedOtherSkeleton, s.(base := base))
      else AddResult(Added, MergeState(base, s.meshes + [m], s.accepted + [skel]))
  }

  /**
   * The input loop of doInvoke: meshes that failed to load are passed over,
   * every other one goes through addMesh; None when addMesh throws.
   */
  function AddAll(s: MergeState, inputs: seq<Option<SourceMesh>>, registry: SkeletonRegistry): Option<MergeState>
  {
    if inputs == [] then Some(s)
    else
      var n := |inputs| - 1;
      match AddAll(s, inputs[..n], registry)
      case None => None
      case Some(prev) =>
        if inputs[n].None? then Some(prev)
        else
          var r := AddStep(prev, inputs[n].value, ResolveSkeleton(inputs[n].value, registry));
          if r.outcome == MixedSkeletons then None else Some(r.state)
  }

  /**
   * The state the input loop of doInvoke leaves behind: that of AddAll when
   * every input was added, otherwise that of the inputs before the one
   * whose addMesh threw (addMesh throws before it changes anything).
   */
  function Reached(s: MergeState, inputs: seq<Option<SourceMesh>>, registry: SkeletonRegistry): (r: MergeState)
    ensures AddAll(s, inputs, registry).Some? ==> r == AddAll(s, inputs, registry).value
  {
    if inputs == [] then s
    else
      var n := |inputs| - 1;
      var prev := Reached(s, inputs[..n], registry);
      if AddAll(s, inputs[..n], registry).None? || inputs[n].None? then prev
      else
        var r := AddStep(prev, inputs[n].value, ResolveSkeleton(inputs[n].value, registry));
        if r.outcome == MixedSkeletons then prev else r.state
  }

  /** However the inputs are mixed, the collected meshes all share one skeleton or all have none. */
  lemma {:induction false} AddAllKeepsConsistent(s: MergeState, inputs: seq<Option<SourceMesh>>, registry: SkeletonRegistry)
    requires Consistent(s)
    ensures AddAll(s, inputs, registry).Some? ==> Consistent(AddAll(s, inputs, registry).value)
  {
    if inputs != [] {
      AddAllKeepsConsistent(s, inputs[..|inputs| - 1], registry);
    }
  }

  /** Once addMesh has thrown, the rest of the inputs are never looked at. */
  lemma {:induction false} AddAllAbortIsFinal(s: MergeState, inputs: seq<Option<SourceMesh>>, registry: SkeletonRegistry, k: nat)
    requires k <= |inputs| && AddAll(s, inputs[..k], registry).None?
    ensures AddAll(s, inputs, registry).None?
    ensures Reached(s, inputs, registry) == Reached(s, inputs[..k], registry)
    decreases |inputs| - k
  {
    if k < |inputs| {
      assert inputs[..k + 1][..k] == inputs[..k];
      AddAllAbortIsFinal(s, inputs, registry, k + 1);
    } else {
      assert inputs[..k] == inputs;
    }
  }

  /**
   * A skeletal mesh after a skeleton-less one aborts the merge; in the other
   * order the skeletal mesh sets the base and the skeleton-less one is skipped.
   */
  lemma MixedInputsAbort(plain: SourceMesh, skinned: SourceMesh, registry: SkeletonRegistry)
    requires ResolveSkeleton(plain, registry).None? && ResolveSkeleton(skinned, registry).Some?
    ensures AddAll(MergeState(None, [], []), [Some(plain), Some(skinned)], registry).None?
    ensures AddAll(MergeState(None, [], []), [Some(skinned), Some(plain)], registry) ==
      Some(MergeState(ResolveSkeleton(skinned, registry), [skinned], [ResolveSkeleton(skinned, registry)]))
  {
    var s0 := MergeState(None, [], []);
    var a := ResolveSkeleton(skinned, registry);
    var two := [Some(plain), Some(skinned)];
    assert two[..1] == [Some(plain)] && two[..1][..0] == [];
    assert AddAll(s0, [], registry) == Some(s0);
    assert AddStep(s0, plain, None) == AddResult(Added, MergeState(None, [plain], [None]));
    assert AddAll(s0, two[..1], registry) == Some(MergeState(None, [plain], [None]));
    assert AddStep(MergeState(None, [plain], [None]), skinned, a).outcome == MixedSkeletons;
    var owt := [Some(skinned), Some(plain)];
    assert owt[..1] == [Some(skinned)] && owt[..1][..0] == [];
    assert AddStep(s0, skinned, a) == AddResult(Added, MergeState(a, [skinned], [a]));
    assert AddAll(s0, owt[..1], registry) == Some(MergeState(a, [skinned], [a]));
    assert AddStep(MergeState(a, [skinned], [a]), plain, None).outcome == SkippedNoSkeleton;
  }

  // ---------------------------------------------------------------------
  // Baking

  /** findSubmeshName: the name bound to submesh `sid`, or "" when none is. */
  function NameOrBlank(names: seq<NameEntry>, sid: nat): (r: string)
    ensures r != "" ==> exists k :: 0 <= k < |names| && names[k] == NameEntry(r, sid)
  {
    match NameBoundTo(names, sid)
    case Some(n) => n
    case None => ""
  }

  /** AxisAlignedBox::merge: the box grown to hold `b` as well. */
  function MergeBox(a: Box, b: Box): Box {
    if b.NullBox? || a.InfiniteBox? then a
    else if b.InfiniteBox? then InfiniteBox
    else if a.NullBox? then b
    else
      FiniteBox(Vec3(Min(a.lo.x, b.lo.x), Min(a.lo.y, b.lo.y), Min(a.lo.z, b.lo.z)),
                Vec3(Max(a.hi.x, b.hi.x), Max(a.hi.y, b.hi.y), Max(a.hi.z, b.hi.z)))
  }

  function Min(a: real, b: real): real { if a <= b then a else b }
  function Max(a: real, b: real): real { if a <= b then b else a }

  predicate LessEq3(a: Vec3, b: Vec3) {
    a.x <= b.x && a.y <= b.y && a.z <= b.z
  }

  /** `outer` holds every point of `inner`. */
  predicate Contains(outer: Box, inner: Box) {
    || inner.NullBox?
    || outer.InfiniteBox?
    || (outer.FiniteBox? && inner.FiniteBox? && LessEq3(outer.lo, inner.lo) && LessEq3(inner.hi, outer.hi))
  }

  /** A merged box holds both boxes, and is null only when both are. */
  lemma MergeBoxContainsBoth(a: Box, b: Box)
    ensures Contains(MergeBox(a, b), a) && Contains(MergeBox(a, b), b)
    ensures MergeBox(a, b).NullBox? <==> a.NullBox? && b.NullBox?
  {
  }

  lemma ContainsTransitive(a: Box, b: Box, c: Box)
    requires Contains(a, b) && Contains(b, c)
    ensures Contains(a, c)
  {
  }

  /**
   * The clone of one source submesh as bake writes it: named, with its
   * index data, own vertex data, material and bones. Bake never copies the
   * operation type, so the clone keeps the one a created submesh starts
   * with, a triangle list.
   */
  function BakeSubMeshAsWritten(m: SourceMesh, sid: nat, base: Option<SkeletonRef>): (r: BakedSubMesh)
    requires sid < |m.subMeshes|
    ensures r.operationType == TriangleList
  {
    BakeSubMesh(m, sid, base).(operationType := TriangleList)
  }

  /** The baked submesh draws what the source submesh drew: same primitives, indices, own vertices and material. */
  predicate DrawsAs(b: BakedSubMesh, sub: SourceSubMesh) {
    && b.useSharedVertices == sub.useSharedVertices
    && b.operationType == sub.operationType
    && b.indexData == sub.indexData
    && (!sub.useSharedVertices ==> b.vertexData == sub.vertexData)
    && b.materialName == sub.materialName
  }

  /** As written, a submesh drawn as anything but a triangle list does not draw the same once baked. */
  lemma BakeLosesOperationType(m: SourceMesh, sid: nat, base: Option<SkeletonRef>)
    requires sid < |m.subMeshes| && m.subMeshes[sid].operationType != TriangleList
    ensures !DrawsAs(BakeSubMeshAsWritten(m, sid, base), m.subMeshes[sid])
  {
  }

  /**
   * The clone of one source submesh as bake evidently intends it: what
   * BakeSubMeshAsWritten makes, with the operation type copied as well.
   * The rest of the merge model uses this clone.
   */
  function BakeSubMesh(m: SourceMesh, sid: nat, base: Option<SkeletonRef>): (r: BakedSubMesh)
    requires sid < |m.subMeshes|
    ensures DrawsAs(r, m.subMeshes[sid])
    ensures r.name == NameOrBlank(m.subMeshNames, sid)
  {
    var sub := m.subMeshes[sid];
    BakedSubMesh(
      NameOrBlank(m.subMeshNames, sid),
      sub.useSharedVertices,
      sub.operationType,
      sub.indexData,
      if sub.useSharedVertices then None else sub.vertexData,
      sub.materialName,
      if !sub.useSharedVertices && base.Some? then InsertAll([], KeyedAll(Values(sub.boneAssignments))) else [])
  }

  function MeshSubMeshes(m: SourceMesh, base: Option<SkeletonRef>): (r: seq<BakedSubMesh>)
    ensures |r| == |m.subMeshes|
  {
    seq(|m.subMeshes|, sid requires 0 <= sid < |m.subMeshes| => BakeSubMesh(m, sid, base))
  }

  /** The submeshes of the baked mesh: mesh by mesh, each mesh's in index order. */
  function BakedSubMeshes(ms: seq<SourceMesh>, base: Option<SkeletonRef>): seq<BakedSubMesh> {
    if ms == [] then []
    else BakedSubMeshes(ms[..|ms| - 1], base) + MeshSubMeshes(ms[|ms| - 1], base)
  }

  /** The number of submeshes the meshes before `i` contribute. */
  function SubMeshOffset(ms: seq<SourceMesh>, i: nat): nat
    requires i <= |ms|
  {
    if i == 0 then 0 else SubMeshOffset(ms, i - 1) + |ms[i - 1].subMeshes|
  }

  /** The baked mesh's shared vertex data: that of the first mesh that has any. */
  function FirstShared(ms: seq<SourceMesh>): Option<VertexSnapshot> {
    if ms == [] then None
    else
      var prev := FirstShared(ms[..|ms| - 1]);
      if prev.Some? then prev else ms[|ms| - 1].sharedVertexData
  }

  /** The baked mesh's own bone assignments: those of every mesh with shared vertex data, when there is a base skeleton. */
  function SharedBones(ms: seq<SourceMesh>, base: Option<SkeletonRef>): MultiMap<BoneAssignment> {
    if ms == [] then []
    else
      var prev := SharedBones(ms[..|ms| - 1], base);
      var m := ms[|ms| - 1];
      if m.sharedVertexData.Some? && base.Some? then InsertAll(prev, KeyedAll(Values(m.boneAssignments)))
      else prev
  }

  function TotalBounds(ms: seq<SourceMesh>): Box {
    if ms == [] then NullBox else MergeBox(TotalBounds(ms[..|ms| - 1]), ms[|ms| - 1].bounds)
  }

  /** The mesh bake returns. */
  function BakedFrom(ms: seq<SourceMesh>, base: Option<SkeletonRef>, meshName: string): BakedMesh {
    BakedMesh(meshName, if base.Some? then base.value.name else "",
              BakedSubMeshes(ms, base), FirstShared(ms), SharedBones(ms, base), TotalBounds(ms))
  }

  /** A submesh that does not share vertices has vertex data to clone. */
  predicate BakeReady(ms: seq<SourceMesh>) {
    forall m, sub :: m in ms && sub in m.subMeshes && !sub.useSharedVertices ==> sub.vertexData.Some?
  }

  // ---------------------------------------------------------------------
  // What bake promises

  /** Submesh `sid` of mesh `i` is baked at position `SubMeshOffset(ms, i) + sid`. */
  predicate LandsAt(ms: seq<SourceMesh>, base: Option<SkeletonRef>, i: nat, sid: nat)
    requires i < |ms| && sid < |ms[i].subMeshes|
  {
    var baked := BakedSubMeshes(ms, base);
    SubMeshOffset(ms, i) + sid < |baked| && baked[SubMeshOffset(ms, i) + sid] == BakeSubMesh(ms[i], sid, base)
  }

  /**
   * One baked submesh per source submesh, in mesh-then-submesh order: the
   * submesh `sid` of mesh `i` lands at `SubMeshOffset(ms, i) + sid`.
   */
  lemma BakedSubMeshesLayout(ms: seq<SourceMesh>, base: Option<SkeletonRef>)
    ensures |BakedSubMeshes(ms, base)| == SubMeshOffset(ms, |ms|)
    ensures forall i: nat, sid: nat :: i < |ms| && sid < |ms[i].subMeshes| ==> LandsAt(ms, base, i, sid)
  {
    BakedSubMeshesLength(ms, base);
    forall i: nat, sid: nat | i < |ms| && sid < |ms[i].subMeshes|
      ensures LandsAt(ms, base, i, sid)
    {
      BakedSubMeshAt(ms, base, i, sid);
    }
  }

  lemma {:induction false} BakedSubMeshesLength(ms: seq<SourceMesh>, base: Option<SkeletonRef>)
    ensures |BakedSubMeshes(ms, base)| == SubMeshOffset(ms, |ms|)
  {
    if ms != [] {
      var n := |ms| - 1;
      BakedSubMeshesLength(ms[..n], base);
      OffsetOfPrefixAt(ms, n, n);
    }
  }

  lemma {:induction false} BakedSubMeshAt(ms: seq<SourceMesh>, base: Option<SkeletonRef>, i: nat, sid: nat)
    requires i < |ms| && sid < |ms[i].subMeshes|
    ensures SubMeshOffset(ms, i) + sid < |BakedSubMeshes(ms, base)|
    ensures BakedSubMeshes(ms, base)[SubMeshOffset(ms, i) + sid] == BakeSubMesh(ms[i], sid, base)
  {
    var n := |ms| - 1;
    var earlier := BakedSubMeshes(ms[..n], base);
    var last := MeshSubMeshes(ms[n], base);
    assert BakedSubMeshes(ms, base) == earlier + last;
    BakedSubMeshesLength(ms[..n], base);
    OffsetOfPrefixAt(ms, n, n);
    var k := SubMeshOffset(ms, i) + sid;
    if i < n {
      BakedSubMeshAt(ms[..n], base, i, sid);
      OffsetOfPrefixAt(ms, n, i);
      assert ms[..n][i] == ms[i];
      assert k < |earlier| && earlier[k] == BakeSubMesh(ms[i], sid, base);
      AppendKeepsFront(earlier, last, k);
    } else {
      assert k == |earlier| + sid;
      AppendReachesBack(earlier, last, sid);
    }
  }

  lemma AppendKeepsFront<T>(a: seq<T>, b: seq<T>, k: nat)
    requires k < |a|
    ensures (a + b)[k] == a[k]
  {
  }

  lemma AppendReachesBack<T>(a: seq<T>, b: seq<T>, k: nat)
    requires k < |b|
    ensures |a| + k < |a + b| && (a + b)[|a| + k] == b[k]
  {
  }

  lemma {:induction false} OffsetOfPrefixAt(ms: seq<SourceMesh>, i: nat, j: nat)
    requires j <= i <= |ms|
    ensures SubMeshOffset(ms[..i], j) == SubMeshOffset(ms, j)
  {
    if j > 0 {
      OffsetOfPrefixAt(ms, i, j - 1);
    }
  }

  /** The shared vertex data comes from the first mesh that has some, and is absent only when no mesh has any. */
  lemma {:induction false} FirstSharedIsFirst(ms: seq<SourceMesh>)
    ensures FirstShared(ms).None? <==> forall i :: 0 <= i < |ms| ==> ms[i].sharedVertexData.None?
    ensures FirstShared(ms).Some? ==>
      exists i :: 0 <= i < |ms| && ms[i].sharedVertexData == FirstShared(ms) &&
        forall j :: 0 <= j < i ==> ms[j].sharedVertexData.None?
  {
    if ms != [] {
      var n := |ms| - 1;
      FirstSharedIsFirst(ms[..n]);
      assert forall i :: 0 <= i < n ==> ms[..n][i] == ms[i];
      if FirstShared(ms[..n]).None? {
        assert forall j :: 0 <= j < n ==> ms[j].sharedVertexData.None?;
      }
    }
  }

  /** Submesh `sid` of mesh `i` is baked into one that draws what it drew, at its place in mesh-then-submesh order. */
  predicate BakedAsDrawn(ms: seq<SourceMesh>, base: Option<SkeletonRef>, i: nat, sid: nat)
    requires i < |ms| && sid < |ms[i].subMeshes|
  {
    var baked := BakedSubMeshes(ms, base);
    SubMeshOffset(ms, i) + sid < |baked| && DrawsAs(baked[SubMeshOffset(ms, i) + sid], ms[i].subMeshes[sid])
  }

  /** Every source submesh is baked into one that draws what it drew. */
  lemma {:induction false} BakedDrawAsSources(ms: seq<SourceMesh>, base: Option<SkeletonRef>)
    ensures forall i: nat, sid: nat :: i < |ms| && sid < |ms[i].subMeshes| ==> BakedAsDrawn(ms, base, i, sid)
  {
    forall i: nat, sid: nat | i < |ms| && sid < |ms[i].subMeshes|
      ensures BakedAsDrawn(ms, base, i, sid)
    {
      BakedSubMeshAt(ms, base, i, sid);
    }
  }

  /** Without a base skeleton no bone assignment reaches the baked mesh, neither its own nor any submesh's. */
  lemma {:induction false} NoSkeletonNoBones(ms: seq<SourceMesh>)
    ensures SharedBones(ms, None) == []
    ensures forall sub :: sub in BakedSubMeshes(ms, None) ==> sub.boneAssignments == []
  {
    if ms != [] {
      NoSkeletonNoBones(ms[..|ms| - 1]);
    }
  }

  /**
   * With a base skeleton, a submesh with its own vertices keeps its bone
   * assignments exactly: re-adding a multimap keyed by vertex index gives it back.
   */
  lemma SubMeshBonesCopied(m: SourceMesh, sid: nat, skeleton: SkeletonRef)
    requires sid < |m.subMeshes| && !m.subMeshes[sid].useSharedVertices
    requires SortedByKey(m.subMeshes[sid].boneAssignments)
    requires forall e :: e in m.subMeshes[sid].boneAssignments ==> e.key == e.value.vertexIndex
    ensures BakeSubMesh(m, sid, Some(skeleton)).boneAssignments == m.subMeshes[sid].boneAssignments
  {
    ReAddingKeyedListIsIdentity(m.subMeshes[sid].boneAssignments);
  }

  /** The baked bounds hold the bounds of every merged mesh. */
  lemma {:induction false} TotalBoundsContainEach(ms: seq<SourceMesh>)
    ensures forall i :: 0 <= i < |ms| ==> Contains(TotalBounds(ms), ms[i].bounds)
  {
    if ms != [] {
      var n := |ms| - 1;
      TotalBoundsContainEach(ms[..n]);
      MergeBoxContainsBoth(TotalBounds(ms[..n]), ms[n].bounds);
      forall i | 0 <= i < n
        ensures Contains(TotalBounds(ms), ms[i].bounds)
      {
        assert ms[..n][i] == ms[i];
        ContainsTransitive(TotalBounds(ms), TotalBounds(ms[..n]), ms[i].bounds);
      }
    }
  }

  // ---------------------------------------------------------------------
  // The tool

  /** The outcome of doInvoke. */
  datatype InvokeOutcome = WrongOutputCount | NoInputs | MergeFailed | Written(file: string, mesh: BakedMesh)

  class MeshMergeTool {
    var baseSkeleton: Option<SkeletonRef>
    var meshes: seq<SourceMesh>
    ghost var accepted: seq<Option<SkeletonRef>>

    ghost function State(): MergeState
      reads this
    {
      MergeState(baseSkeleton, meshes, accepted)
    }

    ghost predicate Valid()
      reads this
    {
      Consistent(State())
    }

    constructor()
      ensures baseSkeleton == None && meshes == [] && accepted == []
      ensures Valid()
    {
      baseSkeleton := None;
      meshes := [];
      accepted := [];
    }

    /** addMesh: the state moves as AddStep says; on MixedSkeletons nothing changes. */
    method AddMesh(mesh: SourceMesh, registry: SkeletonRegistry) returns (outcome: AddOutcome)
      requires Valid()
      modifies this
      ensures Valid()
      ensures var r := AddStep(old(State()), mesh, ResolveSkeleton(mesh, registry));
        outcome == r.outcome && (outcome != MixedSkeletons ==> State() == r.state)
      ensures outcome == MixedSkeletons ==> State() == old(State())
    {
      var meshSkel := mesh.skeleton;
      if meshSkel.None? && mesh.skeletonName != "" {
        meshSkel := registry(mesh.skeletonName);
      }
      if meshSkel.None? && baseSkeleton.Some? {
        return SkippedNoSkeleton;
      }
      if meshSkel.Some? && baseSkeleton.None? && |meshes| > 0 {
        return MixedSkeletons;
      }
      if meshSkel.Some? && baseSkeleton.None? && |meshes| == 0 {
        baseSkeleton := meshSkel;
      }
      if meshSkel != baseSkeleton {
        return SkippedOtherSkeleton;
      }
      meshes := meshes + [mesh];
      accepted := accepted + [meshSkel];
      outcome := Added;
    }

    /** findSubmeshName: a scan of the name map for the first entry bound to `sid`. */
    method FindSubmeshName(m: SourceMesh, sid: nat) returns (name: string)
      ensures name == NameOrBlank(m.subMeshNames, sid)
    {
      var k := 0;
      while k < |m.subMeshNames|
        invariant k <= |m.subMeshNames|
        invariant NameBoundTo(m.subMeshNames, sid) == NameBoundTo(m.subMeshNames[k..], sid)
      {
        if m.subMeshNames[k].index == sid {
          return m.subMeshNames[k].name;
        }
        assert m.subMeshNames[k..][1..] == m.subMeshNames[k + 1..];
        k := k + 1;
      }
      return "";
    }

    /** bake: one new mesh from every accepted mesh, in order. */
    method Bake(meshName: string) returns (mp: BakedMesh)
      requires BakeReady(meshes)
      ensures mp == BakedFrom(meshes, baseSkeleton, meshName)
    {
      var subs: seq<BakedSubMesh> := [];
      var shared: Option<VertexSnapshot> := None;
      var bones: MultiMap<BoneAssignment> := [];
      var bounds := NullBox;
      var i := 0;
      while i < |meshes|
        invariant i <= |meshes|
        invariant subs == BakedSubMeshes(meshes[..i], baseSkeleton)
        invariant shared == FirstShared(meshes[..i])
        invariant bones == SharedBones(meshes[..i], baseSkeleton)
        invariant bounds == TotalBounds(meshes[..i])
      {
        var m := meshes[i];
        assert meshes[..i + 1][..i] == meshes[..i] && meshes[..i + 1][i] == m;
        var added := BakeMeshSubMeshes(m);
        subs := subs + added;
        if m.sharedVertexData.Some? {
          if shared.None? {
            shared := m.sharedVertexData;
          }
          if baseSkeleton.Some? {
            bones := CopyBoneAssignments(bones, m.boneAssignments);
          }
        }
        bounds := MergeBox(bounds, m.bounds);
        i := i + 1;
      }
      assert meshes[..i] == meshes;
      mp := BakedMesh(meshName, if baseSkeleton.Some? then baseSkeleton.value.name else "",
                      subs, shared, bones, bounds);
    }

    /** The submesh loop of bake for one mesh. */
    method BakeMeshSubMeshes(m: SourceMesh) returns (added: seq<BakedSubMesh>)
      requires forall sub :: sub in m.subMeshes && !sub.useSharedVertices ==> sub.vertexData.Some?
      ensures added == MeshSubMeshes(m, baseSkeleton)
    {
      added := [];
      var sid := 0;
      while sid < |m.subMeshes|
        invariant sid <= |m.subMeshes|
        invariant added == MeshSubMeshes(m, baseSkeleton)[..sid]
      {
        var sub := m.subMeshes[sid];
        var name := FindSubmeshName(m, sid);
        var vertexData: Option<VertexSnapshot> := None;
        var subBones: MultiMap<BoneAssignment> := [];
        if !sub.useSharedVertices {
          vertexData := sub.vertexData;
          if baseSkeleton.Some? {
            subBones := CopyBoneAssignments([], sub.boneAssignments);
          }
        }
        added := added + [BakedSubMesh(name, sub.useSharedVertices, sub.operationType, sub.indexData, vertexData, sub.materialName, subBones)];
        sid := sid + 1;
      }
    }

    /**
     * doInvoke: nothing unless exactly one output and at least one input;
     * then every loaded input goes through addMesh and the result of bake
     * is written to the output.
     */
    method DoInvoke(inputs: seq<Option<SourceMesh>>, outputs: seq<string>, registry: SkeletonRegistry)
      returns (r: InvokeOutcome)
      requires Valid()
      requires forall m :: Some(m) in inputs ==> BakeReady([m])
      requires BakeReady(meshes)
      modifies this
      ensures Valid()
      ensures |outputs| != 1 ==> r == WrongOutputCount && State() == old(State())
      ensures |outputs| == 1 && inputs == [] ==> r == NoInputs && State() == old(State())
      ensures |outputs| == 1 && inputs != [] ==> State() == Reached(old(State()), inputs, registry)
      ensures |outputs| == 1 && inputs != [] ==>
        match AddAll(old(State()), inputs, registry)
        case None => r == MergeFailed
        case Some(s) => State() == s && r == Written(outputs[0], BakedFrom(s.meshes, s.base, outputs[0]))
    {
      if |outputs| != 1 {
        return WrongOutputCount;
      }
      if |inputs| == 0 {
        return NoInputs;
      }
      var added := AddInputs(inputs, registry);
      if !added {
        return MergeFailed;
      }
      var baked := Bake(outputs[0]);
      r := Written(outputs[0], baked);
    }

    /**
     * The input loop of doInvoke: every loaded input goes through addMesh,
     * until one throws. Reports whether every input was handled.
     */
    method AddInputs(inputs: seq<Option<SourceMesh>>, registry: SkeletonRegistry) returns (added: bool)
      requires Valid()
      requires forall m :: Some(m) in inputs ==> BakeReady([m])
      requires BakeReady(meshes)
      modifies this
      ensures Valid() && BakeReady(meshes)
      ensures State() == Reached(old(State()), inputs, registry)
      ensures added == AddAll(old(State()), inputs, registry).Some?
    {
      var k := 0;
      while k < |inputs|
        invariant k <= |inputs|
        invariant Valid() && BakeReady(meshes)
        invariant AddAll(old(State()), inputs[..k], registry) == Some(State())
        invariant Reached(old(State()), inputs[..k], registry) == State()
      {
        assert inputs[..k + 1][..k] == inputs[..k];
        if inputs[k].Some? {
          var m := inputs[k].value;
          assert Some(m) in inputs;
          var outcome := AddMesh(m, registry);
          if outcome == MixedSkeletons {
            AddAllAbortIsFinal(old(State()), inputs, registry, k + 1);
            return false;
          }
        }
        k := k + 1;
      }
      assert inputs[..k] == inputs;
      return true;
    }

    /** Adds every assignment of `from`, in iteration order, to the multimap `into`. */
    static method CopyBoneAssignments(into: MultiMap<BoneAssignment>, from: MultiMap<BoneAssignment>)
      returns (r: MultiMap<BoneAssignment>)
      ensures r == InsertAll(into, KeyedAll(Values(from)))
    {
      r := into;
      ghost var items := KeyedAll(Values(from));
      var k := 0;
      while k < |from|
        invariant k <= |from|
        invariant r == InsertAll(into, items[..k])
      {
        var vba := from[k].value;
        assert items[k] == Keyed(vba);
        assert items[..k + 1] == items[..k] + [items[k]];
        InsertAllSnoc(into, items[..k], items[k]);
        r := Insert(r, Keyed(vba));
        k := k + 1;
      }
      assert items[..k] == items;
    }
  }
}
