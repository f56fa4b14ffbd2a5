/**
 * Vertex declarations and vertex streams, as the optimisers and the info
 * tool see them. A stream (one vertex buffer binding) is a sequence of
 * fixed-size byte records, one per vertex.
 */
module VertexLayout {

  /** Ogre's VertexElementSemantic. */
  datatype Semantic =
    | Position | BlendWeights | BlendIndices | Normal | Diffuse | Specular
    | TextureCoordinates | Binormal | Tangent

  /** Ogre's VertexElementType; `OtherType` stands for every type not listed. */
  datatype ElementType =
    | Float1 | Float2 | Float3 | Float4
    | Short1 | Short2 | Short3 | Short4
    | UByte4 | ColourArgb | ColourAbgr
    | OtherType(code: nat)

  /** VertexElement::getTypeCount: the number of components of a type. */
  function TypeCount(t: ElementType): (n: nat)
    ensures 1 <= n <= 4
  {
    match t
    case Float1 => 1
    case Float2 => 2
    case Float3 => 3
    case Float4 => 4
    case Short1 => 1
    case Short2 => 2
    case Short3 => 3
    case Short4 => 4
    case UByte4 => 4
    case ColourArgb => 1
    case ColourAbgr => 1
    case OtherType(_) => 1
  }

  /** One element of a vertex declaration. */
  datatype VertexElement = VertexElement(
    source: nat,            // the buffer binding it lives in
    offset: nat,            // byte offset inside that buffer's record
    semantic: Semantic,
    elementType: ElementType,
    index: nat)             // e.g. which texture coordinate set

  type Byte = bv8
  type Record = seq<Byte>

  /** A hardware vertex buffer: its vertex size and one record per vertex. */
  datatype VertexBuffer = VertexBuffer(vertexSize: nat, records: seq<Record>)

  /** Four float slots read from a record at an element's offset. */
  type Floats4 = s: seq<real> | |s| == 4 witness [0.0, 0.0, 0.0, 0.0]

  /**
   * Reading floats out of a record (`baseVertexPointerToElement` followed by
   * float loads) depends on IEEE encodings that are not part of this model;
   * it is a parameter of the operations that read attributes.
   */
  type Decoder = (VertexElement, Record) -> Floats4

  /** A buffer holds `count` records of its own vertex size. */
  ghost predicate BufferHolds(b: VertexBuffer, count: nat) {
    |b.records| == count && forall r {:trigger r in b.records} :: r in b.records ==> |r| == b.vertexSize
  }
}
