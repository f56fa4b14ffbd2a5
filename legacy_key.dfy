/**
 * The de-duplication key of the older OptimiseTool: its `UniqueVertex`
 * record (position, normal, tangent and eight 3-component UV sets, all zero
 * when constructed), how the vertex loop fills it, and its comparator
 * `UniqueVertexLess`, which carries a single tolerance and a UV-set count.
 */
module LegacyKey {
  import opened Vectors
  import opened VertexLayout
  import opened UniqueVertexKey

  /** The UV array of a legacy key: one Vector3 per texture coordinate set. */
  type LegacyUvArray = s: seq<Vec3> | |s| == 8
    witness [Zero3, Zero3, Zero3, Zero3, Zero3, Zero3, Zero3, Zero3]

  datatype LegacyVertex = LegacyVertex(
    position: Vec3,
    normal: Vec3,
    tangent: Vec4,
    uv: LegacyUvArray)

  /** The constructor's key: every attribute zero. */
  const DefaultLegacyVertex: LegacyVertex :=
    LegacyVertex(Zero3, Zero3, Zero4, [Zero3, Zero3, Zero3, Zero3, Zero3, Zero3, Zero3, Zero3])

  /** UniqueVertexLess: one tolerance for every attribute, and the number of UV sets to compare. */
  datatype LegacyComparator = LegacyComparator(tolerance: real, uvSets: UvSetCount)

  // ---------------------------------------------------------------------
  // The comparator

  /** The UV loop of `operator()`: UV sets `i` up to `uvSets`, compared as positions. */
  predicate LegacyUvLess(c: LegacyComparator, a: LegacyVertex, b: LegacyVertex, i: nat)
    requires i <= c.uvSets
    decreases c.uvSets - i
  {
    if i == c.uvSets then false
    else if !PositionEquals(a.uv[i], b.uv[i], c.tolerance) then Less3(a.uv[i], b.uv[i], c.tolerance)
    else LegacyUvLess(c, a, b, i + 1)
  }

  /** UniqueVertexLess::operator(): position, normal, tangent, then UV sets; false when all compare equal. */
  predicate LegacyLess(c: LegacyComparator, a: LegacyVertex, b: LegacyVertex) {
    if !PositionEquals(a.position, b.position, c.tolerance) then
      Less3(a.position, b.position, c.tolerance)
    else if !PositionEquals(a.normal, b.normal, c.tolerance) then
      Less3(a.normal, b.normal, c.tolerance)
    else if !Equals4(a.tangent, b.tangent, c.tolerance) then
      Less4(a.tangent, b.tangent, c.tolerance)
    else
      LegacyUvLess(c, a, b, 0)
  }

  /** The map's notion of the same key: neither is less than the other. */
  predicate LegacyEquivalent(c: LegacyComparator, a: LegacyVertex, b: LegacyVertex) {
    !LegacyLess(c, a, b) && !LegacyLess(c, b, a)
  }

  predicate LegacyUvsEqualFrom(c: LegacyComparator, a: LegacyVertex, b: LegacyVertex, i: nat)
    requires i <= c.uvSets
  {
    forall j :: i <= j < c.uvSets ==> PositionEquals(a.uv[j], b.uv[j], c.tolerance)
  }

  /** Every attribute the comparator looks at compares equal under the one tolerance. */
  predicate LegacyAttributesEqual(c: LegacyComparator, a: LegacyVertex, b: LegacyVertex) {
    && PositionEquals(a.position, b.position, c.tolerance)
    && PositionEquals(a.normal, b.normal, c.tolerance)
    && Equals4(a.tangent, b.tangent, c.tolerance)
    && LegacyUvsEqualFrom(c, a, b, 0)
  }

  lemma {:induction false} LegacyUvLessTrichotomy(c: LegacyComparator, a: LegacyVertex, b: LegacyVertex, i: nat)
    requires c.tolerance >= 0.0
    requires i <= c.uvSets
    ensures !(LegacyUvLess(c, a, b, i) && LegacyUvLess(c, b, a, i))
    ensures (!LegacyUvLess(c, a, b, i) && !LegacyUvLess(c, b, a, i)) <==> LegacyUvsEqualFrom(c, a, b, i)
    decreases c.uvSets - i
  {
    if i < c.uvSets {
      Less3Trichotomy(a.uv[i], b.uv[i], c.tolerance);
      Less3Trichotomy(b.uv[i], a.uv[i], c.tolerance);
      if PositionEquals(a.uv[i], b.uv[i], c.tolerance) {
        assert PositionEquals(b.uv[i], a.uv[i], c.tolerance);
        LegacyUvLessTrichotomy(c, a, b, i + 1);
      } else {
        assert !PositionEquals(b.uv[i], a.uv[i], c.tolerance);
      }
    }
  }

  /**
   * The map treats two keys as the same exactly when position, normal,
   * tangent and the first `uvSets` UV sets all compare equal under the
   * single tolerance; otherwise exactly one of them is less.
   */
  lemma LegacyEquivalentIffAttributesEqual(c: LegacyComparator, a: LegacyVertex, b: LegacyVertex)
    requires c.tolerance >= 0.0
    ensures LegacyEquivalent(c, a, b) <==> LegacyAttributesEqual(c, a, b)
    ensures !(LegacyLess(c, a, b) && LegacyLess(c, b, a))
  {
    Less3Trichotomy(a.position, b.position, c.tolerance);
    Less3Trichotomy(a.normal, b.normal, c.tolerance);
    Less4Trichotomy(a.tangent, b.tangent, c.tolerance);
    Less3Trichotomy(b.position, a.position, c.tolerance);
    Less3Trichotomy(b.normal, a.normal, c.tolerance);
    Less4Trichotomy(b.tangent, a.tangent, c.tolerance);
    LegacyUvLessTrichotomy(c, a, b, 0);
  }

  /** A key is never less than itself. */
  lemma LegacyLessIrreflexive(c: LegacyComparator, a: LegacyVertex)
    requires c.tolerance >= 0.0
    ensures !LegacyLess(c, a, a)
  {
    LegacyEquivalentIffAttributesEqual(c, a, a);
  }

  // ---------------------------------------------------------------------
  // Reading a key out of the vertex streams

  /** Writes the first `count` floats of `f` (at most three fit a Vector3) into a UV slot. */
  function SetUv3(old3: Vec3, f: Floats4, count: nat): Vec3 {
    Vec3(if count > 0 then f[0] else old3.x,
         if count > 1 then f[1] else old3.y,
         if count > 2 then f[2] else old3.z)
  }

  /** One pass of the `switch` on an element's semantic; binormals and other semantics are not read. */
  function LegacyAbsorb(u: LegacyVertex, e: VertexElement, f: Floats4): LegacyVertex
    requires e.semantic == TextureCoordinates ==> e.index < MaxTextureCoordSets
  {
    match e.semantic
    case Position => u.(position := Vec3(f[0], f[1], f[2]))
    case Normal => u.(normal := Vec3(f[0], f[1], f[2]))
    case Tangent =>
      u.(tangent := Vec4(f[0], f[1], f[2], if TypeCount(e.elementType) == 4 then f[3] else u.tangent.w))
    case TextureCoordinates =>
      u.(uv := u.uv[e.index := SetUv3(u.uv[e.index], f, TypeCount(e.elementType))])
    case _ => u
  }

  /** The legacy key of one vertex, given the floats each declaration element reads. */
  function LegacyExtractKey(decl: seq<VertexElement>, values: seq<Floats4>): LegacyVertex
    requires |values| == |decl|
    requires forall e :: e in decl && e.semantic == TextureCoordinates ==> e.index < MaxTextureCoordSets
  {
    if decl == [] then DefaultLegacyVertex
    else
      var n := |decl| - 1;
      assert decl[n] in decl;
      LegacyAbsorb(LegacyExtractKey(decl[..n], values[..n]), decl[n], values[n])
  }

  /** No element of the declaration has semantic `s`. */
  predicate Lacks(decl: seq<VertexElement>, s: Semantic) {
    forall e :: e in decl ==> e.semantic != s
  }

  /** A normal or tangent the declaration does not contain keeps the zero it was constructed with. */
  lemma {:induction false} LegacyAbsentStaysZero(decl: seq<VertexElement>, values: seq<Floats4>)
    requires |values| == |decl|
    requires forall e :: e in decl && e.semantic == TextureCoordinates ==> e.index < MaxTextureCoordSets
    ensures Lacks(decl, Normal) ==> LegacyExtractKey(decl, values).normal == Zero3
    ensures Lacks(decl, Tangent) ==> LegacyExtractKey(decl, values).tangent == Zero4
    ensures Lacks(decl, Position) ==> LegacyExtractKey(decl, values).position == Zero3
  {
    if decl != [] {
      var n := |decl| - 1;
      assert forall e :: e in decl[..n] ==> e in decl;
      LegacyAbsentStaysZero(decl[..n], values[..n]);
      assert decl[n] in decl;
    }
  }

  /** A UV set no element writes keeps the zero it was constructed with. */
  lemma {:induction false} LegacyAbsentUvSetStaysZero(decl: seq<VertexElement>, values: seq<Floats4>, i: nat)
    requires |values| == |decl|
    requires forall e :: e in decl && e.semantic == TextureCoordinates ==> e.index < MaxTextureCoordSets
    requires i < MaxTextureCoordSets
    requires forall e :: e in decl && e.semantic == TextureCoordinates ==> e.index != i
    ensures LegacyExtractKey(decl, values).uv[i] == Zero3
  {
    if decl != [] {
      var n := |decl| - 1;
      assert forall e :: e in decl[..n] ==> e in decl;
      LegacyAbsentUvSetStaysZero(decl[..n], values[..n], i);
      assert decl[n] in decl;
    }
  }

  /**
   * Attributes absent from the declaration compare equal: two keys read
   * through a declaration without normals and tangents are the same key
   * exactly when their positions and compared UV sets agree.
   */
  lemma AbsentAttributesCompareEqual(c: LegacyComparator, decl: seq<VertexElement>, values1: seq<Floats4>, values2: seq<Floats4>)
    requires c.tolerance >= 0.0
    requires |values1| == |decl| && |values2| == |decl|
    requires forall e :: e in decl && e.semantic == TextureCoordinates ==> e.index < MaxTextureCoordSets
    requires Lacks(decl, Normal) && Lacks(decl, Tangent)
    ensures var a := LegacyExtractKey(decl, values1);
      var b := LegacyExtractKey(decl, values2);
      LegacyEquivalent(c, a, b) <==> PositionEquals(a.position, b.position, c.tolerance) && LegacyUvsEqualFrom(c, a, b, 0)
  {
    LegacyAbsentStaysZero(decl, values1);
    LegacyAbsentStaysZero(decl, values2);
    LegacyEquivalentIffAttributesEqual(c, LegacyExtractKey(decl, values1), LegacyExtractKey(decl, values2));
  }

  /**
   * The element loop of the old calculateDuplicateVertices for vertex `v`:
   * reads every element into a fresh key and counts the texture coordinate
   * sets.
   */
  method BuildLegacyVertex(decl: seq<VertexElement>, streams: seq<VertexBuffer>, decode: Decoder, v: nat)
    returns (key: LegacyVertex, uvSets: nat)
    requires DeclarationReadable(decl)
    requires StreamsCover(decl, streams, v)
    ensures key == LegacyExtractKey(decl, ElementValues(decl, streams, decode, v))
    ensures uvSets == CountTexCoords(decl) && uvSets <= MaxTextureCoordSets
  {
    ghost var values := ElementValues(decl, streams, decode, v);
    key := DefaultLegacyVertex;
    uvSets := 0;
    var e := 0;
    while e < |decl|
      invariant 0 <= e <= |decl|
      invariant key == LegacyExtractKey(decl[..e], values[..e])
      invariant uvSets == CountTexCoords(decl[..e])
    {
      var elem := decl[e];
      assert elem in decl;
      var f := decode(elem, streams[elem.source].records[v]);
      assert decl[..e + 1][..e] == decl[..e] && values[..e + 1][..e] == values[..e];
      key := LegacyAbsorb(key, elem, f);
      if elem.semantic == TextureCoordinates {
        uvSets := uvSets + 1;
      }
      e := e + 1;
    }
    assert decl[..e] == decl && values[..e] == values;
  }
}
