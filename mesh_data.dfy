/**
 * The parts of an Ogre mesh the tools work on: vertex data (declaration,
 * bound streams, vertex count), index data (a 16- or 32-bit index buffer
 * and the number of indices in use), submeshes and the mesh itself. Objects
 * the tools update in place are classes.
 */
module MeshData {
  import opened Wrappers
  import opened Vectors
  import opened VertexLayout
  import opened UniqueVertexKey
  import opened BoneAssignments

  datatype OperationType = PointList | LineList | LineStrip | TriangleList | TriangleStrip | TriangleFan

  /** A hardware index buffer: its index width and its contents. */
  datatype IndexBuffer = IndexBuffer(is32Bit: bool, indices: seq<nat>)

  const Limit16: nat := 0x1_0000
  const Limit32: nat := 0x1_0000_0000

  /** Every index fits the buffer's width. */
  predicate IndexBufferValid(b: IndexBuffer) {
    forall j :: 0 <= j < |b.indices| ==> b.indices[j] < (if b.is32Bit then Limit32 else Limit16)
  }

  /** What a write of `value` into a buffer of this width stores (`static_cast<uint16>` for 16-bit buffers). */
  function Narrow(value: nat, is32Bit: bool): (r: nat)
    ensures value < (if is32Bit then Limit32 else Limit16) ==> r == value
  {
    if is32Bit then value else value % Limit16
  }

  /** The buffer and count of an index data object as a value; a level-of-detail face list holds these. */
  datatype IndexState = IndexState(buffer: Option<IndexBuffer>, count: nat)

  class IndexData {
    var indexBuffer: Option<IndexBuffer>
    var indexCount: nat

    /** A buffer holds at least the indices in use; without a buffer nothing is in use. */
    ghost predicate Valid()
      reads this
    {
      match indexBuffer
      case None => indexCount == 0
      case Some(b) => indexCount <= |b.indices| && IndexBufferValid(b)
    }

    /** Every index in use names one of the first `n` vertices. */
    ghost predicate RefersWithin(n: nat)
      reads this
    {
      indexBuffer.Some? ==>
        forall j :: 0 <= j < indexCount && j < |indexBuffer.value.indices| ==> indexBuffer.value.indices[j] < n
    }

    constructor(buffer: Option<IndexBuffer>, count: nat)
      ensures indexBuffer == buffer && indexCount == count
    {
      indexBuffer := buffer;
      indexCount := count;
    }
  }

  /**
   * The declaration can be read into a key, every element's stream is
   * bound, and every stream holds at least `n` records of its own vertex
   * size.
   */
  predicate StreamsValid(decl: seq<VertexElement>, streams: seq<VertexBuffer>, n: nat) {
    && DeclarationReadable(decl)
    && (forall e :: e in decl ==> e.source < |streams|)
    && (forall s :: 0 <= s < |streams| ==>
          n <= |streams[s].records|
          && forall r {:trigger r in streams[s].records} :: r in streams[s].records ==> |r| == streams[s].vertexSize)
  }

  class VertexData {
    const declaration: seq<VertexElement>
    var streams: seq<VertexBuffer>
    var vertexCount: nat

    ghost predicate Valid()
      reads this
    {
      StreamsValid(declaration, streams, vertexCount)
    }

    constructor(decl: seq<VertexElement>, bound: seq<VertexBuffer>, count: nat)
      ensures declaration == decl && streams == bound && vertexCount == count
    {
      declaration := decl;
      streams := bound;
      vertexCount := count;
    }
  }

  /** VertexDeclaration::findElementBySemantic: the first element with semantic `s`. */
  function FindElementBySemantic(decl: seq<VertexElement>, s: Semantic): (r: Option<VertexElement>)
    ensures r.Some? ==> r.value in decl && r.value.semantic == s
    ensures r.None? ==> forall e :: e in decl ==> e.semantic != s
    ensures r.Some? && decl != [] && decl[0].semantic == s ==> r.value == decl[0]
  {
    if decl == [] then None
    else if decl[0].semantic == s then Some(decl[0])
    else FindElementBySemantic(decl[1..], s)
  }

  /** The position stored in every record of the position element's stream. */
  function Positions(decl: seq<VertexElement>, streams: seq<VertexBuffer>, decode: Decoder): (ps: seq<Vec3>)
    requires FindElementBySemantic(decl, Position).Some?
    requires FindElementBySemantic(decl, Position).value.source < |streams|
    ensures var pe := FindElementBySemantic(decl, Position).value;
      |ps| == |streams[pe.source].records|
      && forall i :: 0 <= i < |ps| ==>
           ps[i] == Vec3(decode(pe, streams[pe.source].records[i])[0],
                         decode(pe, streams[pe.source].records[i])[1],
                         decode(pe, streams[pe.source].records[i])[2])
  {
    var pe := FindElementBySemantic(decl, Position).value;
    var recs := streams[pe.source].records;
    seq(|recs|, i requires 0 <= i < |recs| =>
      var f := decode(pe, recs[i]); Vec3(f[0], f[1], f[2]))
  }

  class SubMesh {
    const useSharedVertices: bool
    const vertexData: VertexData?
    const indexData: IndexData
    const operationType: OperationType
    var lodFaceList: seq<IndexState>
    var boneAssignments: MultiMap<BoneAssignment>
    var materialName: string

    constructor(shared: bool, vd: VertexData?, id: IndexData, op: OperationType, lods: seq<IndexState>,
                bas: MultiMap<BoneAssignment>, material: string)
      ensures useSharedVertices == shared && vertexData == vd && indexData == id
      ensures operationType == op && lodFaceList == lods
      ensures boneAssignments == bas && materialName == material
    {
      useSharedVertices := shared;
      vertexData := vd;
      indexData := id;
      operationType := op;
      lodFaceList := lods;
      boneAssignments := bas;
      materialName := material;
    }
  }

  class Mesh {
    const sharedVertexData: VertexData?
    const subMeshes: seq<SubMesh>
    var skeletonName: string
    var boneAssignments: MultiMap<BoneAssignment>

    constructor(shared: VertexData?, subs: seq<SubMesh>, skeleton: string, bas: MultiMap<BoneAssignment>)
      ensures sharedVertexData == shared && subMeshes == subs
      ensures skeletonName == skeleton && boneAssignments == bas
    {
      sharedVertexData := shared;
      subMeshes := subs;
      skeletonName := skeleton;
      boneAssignments := bas;
    }
  }
}
