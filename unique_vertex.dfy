/**
 * The de-duplication key of MmOptimiseTool: the `UniqueVertex` snapshot of a
 * vertex's position, normal, tangent, binormal and texture coordinates, how it
 * is read out of the vertex streams, and the tolerance comparator
 * `UniqueVertexLess` that orders keys in the unique-vertex map.
 */
module UniqueVertexKey {
  import opened Vectors
  import opened VertexLayout

  /** OGRE_MAX_TEXTURE_COORD_SETS */
  const MaxTextureCoordSets: nat := 8

  /** The UV array of a key: one 4-component slot per texture coordinate set. */
  type UvArray = s: seq<Vec4> | |s| == 8
    witness [Zero4, Zero4, Zero4, Zero4, Zero4, Zero4, Zero4, Zero4]

  /** The number of UV sets the comparator looks at (it indexes `uv[i]`, so at most 8). */
  type UvSetCount = n: nat | n <= 8

  datatype UniqueVertex = UniqueVertex(
    position: Vec3,
    normal: Vec3,
    tangent: Vec4,
    binormal: Vec3,
    uv: UvArray)

  /** A freshly constructed key: every attribute zero. */
  const DefaultUniqueVertex: UniqueVertex :=
    UniqueVertex(Zero3, Zero3, Zero4, Zero3, [Zero4, Zero4, Zero4, Zero4, Zero4, Zero4, Zero4, Zero4])

  /** The comparator object built when the first vertex is read. */
  datatype Comparator = Comparator(
    posTolerance: real,
    normTolerance: real,
    uvTolerance: real,
    uvSets: UvSetCount)

  predicate TolerancesNonNegative(c: Comparator) {
    c.posTolerance >= 0.0 && c.normTolerance >= 0.0 && c.uvTolerance >= 0.0
  }

  // ---------------------------------------------------------------------
  // The comparator

  /** The UV part of `operator()`: UV sets `i`, `i+1`, ... up to `uvSets`. */
  predicate UvLess(c: Comparator, a: UniqueVertex, b: UniqueVertex, i: nat)
    requires i <= c.uvSets
    decreases c.uvSets - i
  {
    if i == c.uvSets then false
    else if !Equals4(a.uv[i], b.uv[i], c.uvTolerance) then Less4(a.uv[i], b.uv[i], c.uvTolerance)
    else UvLess(c, a, b, i + 1)
  }

  /** UniqueVertexLess::operator(): position, normal, tangent, binormal, then UV sets. */
  predicate KeyLess(c: Comparator, a: UniqueVertex, b: UniqueVertex) {
    if !PositionEquals(a.position, b.position, c.posTolerance) then
      Less3(a.position, b.position, c.posTolerance)
    else if !PositionEquals(a.normal, b.normal, c.normTolerance) then
      Less3(a.normal, b.normal, c.normTolerance)
    else if !Equals4(a.tangent, b.tangent, c.normTolerance) then
      Less4(a.tangent, b.tangent, c.normTolerance)
    else if !PositionEquals(a.binormal, b.binormal, c.normTolerance) then
      Less3(a.binormal, b.binormal, c.normTolerance)
    else
      UvLess(c, a, b, 0)
  }

  /** What an ordered map treats as "the same key": neither is less than the other. */
  predicate Equivalent(c: Comparator, a: UniqueVertex, b: UniqueVertex) {
    !KeyLess(c, a, b) && !KeyLess(c, b, a)
  }

  /** Every attribute the comparator looks at compares equal under its own tolerance. */
  predicate UvsEqualFrom(c: Comparator, a: UniqueVertex, b: UniqueVertex, i: nat)
    requires i <= c.uvSets
  {
    forall j :: i <= j < c.uvSets ==> Equals4(a.uv[j], b.uv[j], c.uvTolerance)
  }

  predicate AttributesEqual(c: Comparator, a: UniqueVertex, b: UniqueVertex) {
    && PositionEquals(a.position, b.position, c.posTolerance)
    && PositionEquals(a.normal, b.normal, c.normTolerance)
    && Equals4(a.tangent, b.tangent, c.normTolerance)
    && PositionEquals(a.binormal, b.binormal, c.normTolerance)
    && UvsEqualFrom(c, a, b, 0)
  }

  /** The UV loop answers "less" in at most one direction, and "neither" exactly when the UV sets agree. */
  lemma {:induction false} UvLessTrichotomy(c: Comparator, a: UniqueVertex, b: UniqueVertex, i: nat)
    requires c.uvTolerance >= 0.0
    requires i <= c.uvSets
    ensures !(UvLess(c, a, b, i) && UvLess(c, b, a, i))
    ensures (!UvLess(c, a, b, i) && !UvLess(c, b, a, i)) <==> UvsEqualFrom(c, a, b, i)
    decreases c.uvSets - i
  {
    if i < c.uvSets {
      Less4Trichotomy(a.uv[i], b.uv[i], c.uvTolerance);
      if Equals4(a.uv[i], b.uv[i], c.uvTolerance) {
        assert Equals4(b.uv[i], a.uv[i], c.uvTolerance);
        UvLessTrichotomy(c, a, b, i + 1);
      } else {
        assert !Equals4(b.uv[i], a.uv[i], c.uvTolerance);
      }
    }
  }

  /**
   * The map treats two keys as the same exactly when position, normal,
   * tangent, binormal and the first `uvSets` UV sets all compare equal;
   * otherwise one of them is strictly less than the other.
   */
  lemma EquivalentIffAttributesEqual(c: Comparator, a: UniqueVertex, b: UniqueVertex)
    requires TolerancesNonNegative(c)
    ensures Equivalent(c, a, b) <==> AttributesEqual(c, a, b)
    ensures !(KeyLess(c, a, b) && KeyLess(c, b, a))
  {
    Less3Trichotomy(a.position, b.position, c.posTolerance);
    Less3Trichotomy(a.normal, b.normal, c.normTolerance);
    Less4Trichotomy(a.tangent, b.tangent, c.normTolerance);
    Less3Trichotomy(a.binormal, b.binormal, c.normTolerance);
    Less3Trichotomy(b.position, a.position, c.posTolerance);
    Less3Trichotomy(b.normal, a.normal, c.normTolerance);
    Less4Trichotomy(b.tangent, a.tangent, c.normTolerance);
    Less3Trichotomy(b.binormal, a.binormal, c.normTolerance);
    UvLessTrichotomy(c, a, b, 0);
  }

  /** A key is never less than itself, so a vertex always finds its own key. */
  lemma KeyLessIrreflexive(c: Comparator, a: UniqueVertex)
    requires TolerancesNonNegative(c)
    ensures !KeyLess(c, a, a)
    ensures Equivalent(c, a, a)
  {
    EquivalentIffAttributesEqual(c, a, a);
  }

  /**
   * Tolerance equivalence is not transitive: keys one tolerance apart chain
   * up, yet the two ends are apart. This is why the model assumes nothing of
   * the map's lookup beyond "an answer, if any, is an equivalent key".
   */
  lemma EquivalenceNotTransitive()
    ensures var c := Comparator(1.0, 1.0, 1.0, 0);
            var k0 := DefaultUniqueVertex.(position := Vec3(0.0, 0.0, 0.0));
            var k1 := DefaultUniqueVertex.(position := Vec3(1.0, 0.0, 0.0));
            var k2 := DefaultUniqueVertex.(position := Vec3(2.0, 0.0, 0.0));
            Equivalent(c, k0, k1) && Equivalent(c, k1, k2) && !Equivalent(c, k0, k2)
  {
  }

  // ---------------------------------------------------------------------
  // Reading a key out of the vertex streams

  /** What the reading loop relies on: texture coordinate indices and the UV-set count stay within the key's 8 slots. */
  predicate DeclarationReadable(decl: seq<VertexElement>) {
    && (forall e :: e in decl && e.semantic == TextureCoordinates ==> e.index < MaxTextureCoordSets)
    && CountTexCoords(decl) <= MaxTextureCoordSets
  }

  /** The `uvSets` counter: one per texture coordinate element. */
  function CountTexCoords(decl: seq<VertexElement>): nat {
    if decl == [] then 0
    else CountTexCoords(decl[..|decl| - 1]) + (if decl[|decl| - 1].semantic == TextureCoordinates then 1 else 0)
  }

  /** Writes the first `count` floats of `f` into UV slot `uv`, leaving the rest. */
  function SetUv(old4: Vec4, f: Floats4, count: nat): Vec4 {
    Vec4(if count > 0 then f[0] else old4.x,
         if count > 1 then f[1] else old4.y,
         if count > 2 then f[2] else old4.z,
         if count > 3 then f[3] else old4.w)
  }

  /** One pass of the `switch` on an element's semantic. */
  function Absorb(u: UniqueVertex, e: VertexElement, f: Floats4): UniqueVertex
    requires e.semantic == TextureCoordinates ==> e.index < MaxTextureCoordSets
  {
    match e.semantic
    case Position => u.(position := Vec3(f[0], f[1], f[2]))
    case Normal => u.(normal := Vec3(f[0], f[1], f[2]))
    case Tangent =>
      u.(tangent := Vec4(f[0], f[1], f[2], if TypeCount(e.elementType) == 4 then f[3] else u.tangent.w))
    case Binormal => u.(binormal := Vec3(f[0], f[1], f[2]))
    case TextureCoordinates =>
      u.(uv := u.uv[e.index := SetUv(u.uv[e.index], f, TypeCount(e.elementType))])
    case _ => u
  }

  /** The key of one vertex, given the floats each declaration element reads. */
  function ExtractKey(decl: seq<VertexElement>, values: seq<Floats4>): UniqueVertex
    requires |values| == |decl|
    requires forall e :: e in decl && e.semantic == TextureCoordinates ==> e.index < MaxTextureCoordSets
  {
    if decl == [] then DefaultUniqueVertex
    else
      var n := |decl| - 1;
      assert decl[n] in decl;
      Absorb(ExtractKey(decl[..n], values[..n]), decl[n], values[n])
  }

  /** Every element's stream exists and holds a record for vertex `v`. */
  predicate StreamsCover(decl: seq<VertexElement>, streams: seq<VertexBuffer>, v: nat) {
    forall e :: e in decl ==> e.source < |streams| && v < |streams[e.source].records|
  }

  /** The floats each element of vertex `v` reads from its stream's record. */
  function ElementValues(decl: seq<VertexElement>, streams: seq<VertexBuffer>, decode: Decoder, v: nat): (vals: seq<Floats4>)
    requires StreamsCover(decl, streams, v)
    ensures |vals| == |decl|
  {
    seq(|decl|, e requires 0 <= e < |decl| => (assert decl[e] in decl; decode(decl[e], streams[decl[e].source].records[v])))
  }

  /** The attribute of a key that elements of semantic `s` write, is still zero. */
  predicate AttributeIsZero(u: UniqueVertex, s: Semantic) {
    match s
    case Position => u.position == Zero3
    case Normal => u.normal == Zero3
    case Tangent => u.tangent == Zero4
    case Binormal => u.binormal == Zero3
    case _ => true
  }

  /** A position, normal, tangent or binormal the declaration does not contain keeps the zero it was constructed with. */
  lemma {:induction false} AbsentAttributeStaysZero(decl: seq<VertexElement>, values: seq<Floats4>, s: Semantic)
    requires |values| == |decl|
    requires forall e :: e in decl && e.semantic == TextureCoordinates ==> e.index < MaxTextureCoordSets
    requires s == Position || s == Normal || s == Tangent || s == Binormal
    requires forall e :: e in decl ==> e.semantic != s
    ensures AttributeIsZero(ExtractKey(decl, values), s)
  {
    if decl != [] {
      var n := |decl| - 1;
      assert forall e :: e in decl[..n] ==> e in decl;
      AbsentAttributeStaysZero(decl[..n], values[..n], s);
      assert decl[n] in decl;
    }
  }

  /** A texture coordinate set no element writes keeps the zero it was constructed with. */
  lemma {:induction false} AbsentUvSetStaysZero(decl: seq<VertexElement>, values: seq<Floats4>, i: nat)
    requires |values| == |decl|
    requires forall e :: e in decl && e.semantic == TextureCoordinates ==> e.index < MaxTextureCoordSets
    requires i < MaxTextureCoordSets
    requires forall e :: e in decl && e.semantic == TextureCoordinates ==> e.index != i
    ensures ExtractKey(decl, values).uv[i] == Zero4
  {
    if decl != [] {
      var n := |decl| - 1;
      assert forall e :: e in decl[..n] ==> e in decl;
      AbsentUvSetStaysZero(decl[..n], values[..n], i);
      assert decl[n] in decl;
    }
  }

  /**
   * The element loop of calculateDuplicateVertices for vertex `v`: reads every
   * element's floats into a fresh key and counts the texture coordinate sets.
   */
  method BuildUniqueVertex(decl: seq<VertexElement>, streams: seq<VertexBuffer>, decode: Decoder, v: nat)
    returns (key: UniqueVertex, uvSets: nat)
    requires DeclarationReadable(decl)
    requires StreamsCover(decl, streams, v)
    ensures key == ExtractKey(decl, ElementValues(decl, streams, decode, v))
    ensures uvSets == CountTexCoords(decl) && uvSets <= MaxTextureCoordSets
  {
    ghost var values := ElementValues(decl, streams, decode, v);
    key := DefaultUniqueVertex;
    uvSets := 0;
    var e := 0;
    while e < |decl|
      invariant 0 <= e <= |decl|
      invariant key == ExtractKey(decl[..e], values[..e])
      invariant uvSets == CountTexCoords(decl[..e])
    {
      var elem := decl[e];
      assert elem in decl;
      var f := decode(elem, streams[elem.source].records[v]);
      assert decl[..e + 1][..e] == decl[..e] && values[..e + 1][..e] == values[..e];
      key := Absorb(key, elem, f);
      if elem.semantic == TextureCoordinates {
        uvSets := uvSets + 1;
      }
      e := e + 1;
    }
    assert decl[..e] == decl && values[..e] == values;
  }
}
