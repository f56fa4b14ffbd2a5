/**
 * The parts of the info tool's report that are computed rather than read:
 * the endian mode's name, the buffer layout string of a vertex declaration,
 * a submesh's reported name and its triangle count.
 */
module Info {
  import opened Wrappers
  import opened VertexLayout
  import opened MeshData
  import opened SubMeshNames

  // ---------------------------------------------------------------------
  // Endian mode

  /** MeshSerializer::Endian; `OtherEndian` stands for any other value. */
  datatype Endian = BigEndian | LittleEndian | NativeEndian | OtherEndian(code: int)

  /** getEndianModeAsString */
  function EndianModeAsString(e: Endian): (r: string)
    ensures r == "Unknown Endian" <==> e.OtherEndian?
  {
    match e
    case BigEndian => "Big Endian"
    case LittleEndian => "Little Endian"
    case NativeEndian => "Native Endian"
    case OtherEndian(_) => "Unknown Endian"
  }

  /** The three known modes get three different names, so the name tells the mode. */
  lemma EndianNamesDistinct(a: Endian, b: Endian)
    requires !a.OtherEndian? && !b.OtherEndian?
    ensures EndianModeAsString(a) == EndianModeAsString(b) <==> a == b
  {
  }

  // ---------------------------------------------------------------------
  // The element map of reportVertexDeclaration

  /** Where an element lives: its buffer source and its offset in the vertex. */
  datatype ElementPosition = ElementPosition(source: nat, offset: nat)

  /** One entry of the element map: a position and the semantic and type stored there. */
  datatype Slot = Slot(pos: ElementPosition, semantic: Semantic, elementType: ElementType)

  /** The map's key order: by source, then by offset. */
  predicate PosLess(a: ElementPosition, b: ElementPosition) {
    a.source < b.source || (a.source == b.source && a.offset < b.offset)
  }

  /** Entries in strictly ascending key order, so no key twice: how a std::map iterates. */
  predicate StrictlySorted(es: seq<Slot>) {
    forall i, j :: 0 <= i < j < |es| ==> PosLess(es[i].pos, es[j].pos)
  }

  function SlotOf(e: VertexElement): Slot {
    Slot(ElementPosition(e.source, e.offset), e.semantic, e.elementType)
  }

  /** `elements[pos] = value` on the ordered map: overwrite the key if present, else insert in order. */
  function Put(es: seq<Slot>, s: Slot): (r: seq<Slot>)
    ensures StrictlySorted(es) ==> StrictlySorted(r)
    ensures StrictlySorted(es) ==> forall x :: x in r <==> x == s || (x in es && x.pos != s.pos)
  {
    if es == [] then [s]
    else if es[0].pos == s.pos then [s] + es[1..]
    else if PosLess(s.pos, es[0].pos) then [s] + es
    else
      var rest := Put(es[1..], s);
      assert forall x :: x in es[1..] ==> x in es;
      [es[0]] + rest
  }

  /** The element map after the first loop: every element put in declaration order. */
  function ElementMapOf(decl: seq<VertexElement>): seq<Slot> {
    if decl == [] then []
    else Put(ElementMapOf(decl[..|decl| - 1]), SlotOf(decl[|decl| - 1]))
  }

  /** No later element of the declaration shares element `i`'s position. */
  predicate LastAt(decl: seq<VertexElement>, i: nat)
    requires i < |decl|
  {
    forall j :: i < j < |decl| ==> SlotOf(decl[j]).pos != SlotOf(decl[i]).pos
  }

  /** The element map holds exactly the last write at each position the declaration uses. */
  ghost predicate HoldsLastWrites(es: seq<Slot>, decl: seq<VertexElement>) {
    forall x :: x in es <==> exists i :: 0 <= i < |decl| && x == SlotOf(decl[i]) && LastAt(decl, i)
  }

  /**
   * The map is ordered by (source, offset) and holds, for each position the
   * declaration uses, the element declared there last.
   */
  lemma {:induction false} ElementMapHoldsLastWrites(decl: seq<VertexElement>)
    ensures StrictlySorted(ElementMapOf(decl))
    ensures HoldsLastWrites(ElementMapOf(decl), decl)
  {
    if decl != [] {
      var n := |decl| - 1;
      ElementMapHoldsLastWrites(decl[..n]);
      forall x
        ensures x in ElementMapOf(decl) <==> exists i :: 0 <= i < |decl| && x == SlotOf(decl[i]) && LastAt(decl, i)
      {
        LastWriteStep(decl, x);
      }
    }
  }

  /** Element `i` before the last is a last write exactly when it is one in the prefix and the last element is elsewhere. */
  lemma LastAtSnoc(decl: seq<VertexElement>, i: nat)
    requires i < |decl| - 1
    ensures LastAt(decl, i) <==>
      LastAt(decl[..|decl| - 1], i) && SlotOf(decl[|decl| - 1]).pos != SlotOf(decl[i]).pos
  {
    var n := |decl| - 1;
    assert forall j :: i < j < n ==> decl[..n][j] == decl[j];
  }

  lemma LastWriteStep(decl: seq<VertexElement>, x: Slot)
    requires decl != []
    requires StrictlySorted(ElementMapOf(decl[..|decl| - 1]))
    requires HoldsLastWrites(ElementMapOf(decl[..|decl| - 1]), decl[..|decl| - 1])
    ensures x in ElementMapOf(decl) <==> exists i :: 0 <= i < |decl| && x == SlotOf(decl[i]) && LastAt(decl, i)
  {
    var n := |decl| - 1;
    var front := decl[..n];
    var s := SlotOf(decl[n]);
    assert ElementMapOf(decl) == Put(ElementMapOf(front), s);
    if x in ElementMapOf(decl) {
      if x == s {
        assert LastAt(decl, n);
      } else {
        assert x in ElementMapOf(front) && x.pos != s.pos;
        var i :| 0 <= i < n && x == SlotOf(front[i]) && LastAt(front, i);
        assert front[i] == decl[i];
        LastAtSnoc(decl, i);
      }
    }
    if exists i :: 0 <= i < |decl| && x == SlotOf(decl[i]) && LastAt(decl, i) {
      var i :| 0 <= i < |decl| && x == SlotOf(decl[i]) && LastAt(decl, i);
      if i < n {
        LastAtSnoc(decl, i);
        assert front[i] == decl[i];
        assert x in ElementMapOf(front);
      }
    }
  }

  /** Two ordered maps with the same entries are the same map. */
  lemma {:induction false} SortedSlotsDetermined(a: seq<Slot>, b: seq<Slot>)
    requires StrictlySorted(a) && StrictlySorted(b)
    requires forall x :: x in a <==> x in b
    ensures a == b
  {
    if a != [] {
      assert a[0] in b;
    }
    if b != [] {
      assert b[0] in a;
    }
    if a != [] {
      var i :| 0 <= i < |b| && b[i] == a[0];
      var j :| 0 <= j < |a| && a[j] == b[0];
      assert a[0].pos == b[0].pos;
      assert i == 0;
      forall x
        ensures x in a[1..] <==> x in b[1..]
      {
        SortedTailMembership(a, x);
        SortedTailMembership(b, x);
      }
      SortedSlotsDetermined(a[1..], b[1..]);
      assert a == [a[0]] + a[1..] && b == [b[0]] + b[1..];
    }
  }

  lemma SortedTailMembership(a: seq<Slot>, x: Slot)
    requires StrictlySorted(a) && a != []
    ensures x in a[1..] <==> x in a && x != a[0]
  {
    if x in a && x != a[0] {
      var i :| 0 <= i < |a| && a[i] == x;
      assert a[1..][i - 1] == x;
    }
    if x in a[1..] {
      var i :| 0 <= i < |a| - 1 && a[1..][i] == x;
      assert PosLess(a[0].pos, a[i + 1].pos);
    }
  }

  /** No two elements of the declaration share a position. */
  predicate PositionsDistinct(decl: seq<VertexElement>) {
    forall i, j :: 0 <= i < j < |decl| ==> SlotOf(decl[i]).pos != SlotOf(decl[j]).pos
  }

  /**
   * The declaration order does not matter: two declarations holding the same
   * elements, each at its own position, give the same element map (and so
   * the same layout string).
   */
  lemma DeclarationOrderIrrelevant(d1: seq<VertexElement>, d2: seq<VertexElement>)
    requires PositionsDistinct(d1) && PositionsDistinct(d2)
    requires multiset(d1) == multiset(d2)
    ensures ElementMapOf(d1) == ElementMapOf(d2)
  {
    ElementMapHoldsLastWrites(d1);
    ElementMapHoldsLastWrites(d2);
    forall x
      ensures x in ElementMapOf(d1) <==> x in ElementMapOf(d2)
    {
      if x in ElementMapOf(d1) {
        var i :| 0 <= i < |d1| && x == SlotOf(d1[i]) && LastAt(d1, i);
        assert d1[i] in multiset(d2);
        var k :| 0 <= k < |d2| && d2[k] == d1[i];
        assert LastAt(d2, k);
      }
      if x in ElementMapOf(d2) {
        var i :| 0 <= i < |d2| && x == SlotOf(d2[i]) && LastAt(d2, i);
        assert d2[i] in multiset(d1);
        var k :| 0 <= k < |d1| && d1[k] == d2[i];
        assert LastAt(d1, k);
      }
    }
    SortedSlotsDetermined(ElementMapOf(d1), ElementMapOf(d2));
  }

  // ---------------------------------------------------------------------
  // The layout string

  /** The letter of an element semantic. */
  function SemanticLetter(s: Semantic): (r: string)
    ensures |r| == 1 && r[0] != '-'
  {
    match s
    case Position => "p"
    case BlendWeights => "w"
    case BlendIndices => "i"
    case Normal => "n"
    case Diffuse => "d"
    case Specular => "s"
    case TextureCoordinates => "u"
    case Binormal => "b"
    case Tangent => "t"
  }

  /** The type tag of an element type; types the report does not list add nothing. */
  function TypeTag(t: ElementType): (r: string)
    ensures t.OtherType? <==> r == ""
    ensures r != "" ==> |r| == 4 && r[0] == '(' && r[3] == ')'
    ensures forall i :: 0 <= i < |r| ==> r[i] != '-'
  {
    match t
    case Float1 => "(f1)"
    case Float2 => "(f2)"
    case Float3 => "(f3)"
    case Float4 => "(f4)"
    case Short1 => "(s1)"
    case Short2 => "(s2)"
    case Short3 => "(s3)"
    case Short4 => "(s4)"
    case UByte4 => "(u4)"
    case ColourArgb => "(dx)"
    case ColourAbgr => "(gl)"
    case OtherType(_) => ""
  }

  /** The layout after one more map entry, when the entry before it had source `source`. */
  function AppendSlot(layout: string, s: Slot, source: nat): string {
    layout + (if s.pos.source != source then "-" else "") + SemanticLetter(s.semantic) + TypeTag(s.elementType)
  }

  /** The source of the entry before entry `k`; 0 before the first. */
  function PreviousSource(es: seq<Slot>, k: nat): nat
    requires k <= |es|
  {
    if k == 0 then 0 else es[k - 1].pos.source
  }

  /** The layout written for the first `k` map entries. */
  function LayoutUpTo(es: seq<Slot>, k: nat): string
    requires k <= |es|
  {
    if k == 0 then "" else AppendSlot(LayoutUpTo(es, k - 1), es[k - 1], PreviousSource(es, k - 1))
  }

  /** The layout string of a declaration: every entry of its element map. */
  function LayoutOf(decl: seq<VertexElement>): string {
    var es := ElementMapOf(decl);
    LayoutUpTo(es, |es|)
  }

  function CountHyphens(s: string): nat {
    if s == [] then 0 else (if s[0] == '-' then 1 else 0) + CountHyphens(s[1..])
  }

  /** The number of the first `k` entries whose source differs from the one before (0 before the first). */
  function SourceChanges(es: seq<Slot>, k: nat): nat
    requires k <= |es|
  {
    if k == 0 then 0 else SourceChanges(es, k - 1) + (if es[k - 1].pos.source != PreviousSource(es, k - 1) then 1 else 0)
  }

  lemma {:induction false} CountHyphensAppend(a: string, b: string)
    ensures CountHyphens(a + b) == CountHyphens(a) + CountHyphens(b)
  {
    if a != [] {
      assert (a + b)[0] == a[0] && (a + b)[1..] == a[1..] + b;
      CountHyphensAppend(a[1..], b);
      assert CountHyphens(a + b) == (if a[0] == '-' then 1 else 0) + CountHyphens(a[1..] + b);
    } else {
      assert a + b == b;
    }
  }

  lemma {:induction false} NoHyphenCountsZero(s: string)
    requires forall i :: 0 <= i < |s| ==> s[i] != '-'
    ensures CountHyphens(s) == 0
  {
    if s != [] {
      NoHyphenCountsZero(s[1..]);
    }
  }

  /** A hyphen marks each change of buffer source, and only those: letters and type tags hold none. */
  lemma {:induction false} HyphensMarkSourceChanges(es: seq<Slot>, k: nat)
    requires k <= |es|
    ensures CountHyphens(LayoutUpTo(es, k)) == SourceChanges(es, k)
  {
    if k > 0 {
      var s := es[k - 1];
      var prev := LayoutUpTo(es, k - 1);
      var hyphen := if s.pos.source != PreviousSource(es, k - 1) then "-" else "";
      var dashed := prev + hyphen;
      HyphensMarkSourceChanges(es, k - 1);
      NoHyphenCountsZero(TypeTag(s.elementType));
      NoHyphenCountsZero(SemanticLetter(s.semantic));
      CountHyphensAppend(prev, hyphen);
      assert CountHyphens("-") == 1;
      CountHyphensAppend(dashed, SemanticLetter(s.semantic));
      CountHyphensAppend(dashed + SemanticLetter(s.semantic), TypeTag(s.elementType));
    }
  }

  /** Once written, the first character of the layout stays. */
  lemma {:induction false} LayoutKeepsFirst(es: seq<Slot>, k: nat)
    requires 1 <= k <= |es|
    ensures |LayoutUpTo(es, k)| >= 1 && LayoutUpTo(es, k)[0] == LayoutUpTo(es, 1)[0]
  {
    if k > 1 {
      LayoutKeepsFirst(es, k - 1);
    }
  }

  /** The layout starts with a hyphen exactly when the first entry's source is not 0. */
  lemma LeadingHyphen(es: seq<Slot>)
    requires es != []
    ensures LayoutUpTo(es, |es|)[0] == '-' <==> es[0].pos.source != 0
  {
    LayoutKeepsFirst(es, |es|);
    var letter := SemanticLetter(es[0].semantic);
    assert LayoutUpTo(es, 0) == "";
    if es[0].pos.source == 0 {
      assert LayoutUpTo(es, 1)[0] == letter[0];
    }
  }

  /** reportVertexDeclaration: the layout string of a declaration, built by its two loops. */
  method ReportVertexDeclaration(decl: seq<VertexElement>) returns (layout: string)
    ensures layout == LayoutOf(decl)
  {
    var elements := BuildElementMap(decl);
    layout := WriteLayout(elements);
  }

  /** The first loop: every element put into the ordered map, in declaration order. */
  method BuildElementMap(decl: seq<VertexElement>) returns (elements: seq<Slot>)
    ensures elements == ElementMapOf(decl)
  {
    elements := [];
    var e := 0;
    while e < |decl|
      invariant e <= |decl|
      invariant elements == ElementMapOf(decl[..e])
    {
      assert decl[..e + 1][..e] == decl[..e];
      elements := Put(elements, SlotOf(decl[e]));
      e := e + 1;
    }
    assert decl[..e] == decl;
  }

  /** The second loop: each map entry in key order, a hyphen first whenever the source changes. */
  method WriteLayout(elements: seq<Slot>) returns (layout: string)
    ensures layout == LayoutUpTo(elements, |elements|)
  {
    layout := "";
    var source := 0;
    var k := 0;
    while k < |elements|
      invariant k <= |elements|
      invariant layout == LayoutUpTo(elements, k) && source == PreviousSource(elements, k)
    {
      var s := elements[k];
      if s.pos.source != source {
        layout := layout + "-";
        source := s.pos.source;
      }
      layout := layout + SemanticLetter(s.semantic);
      layout := layout + TypeTag(s.elementType);
      k := k + 1;
    }
  }

  // ---------------------------------------------------------------------
  // Submesh lines

  /** The name reported for submesh `i`: the first name bound to it, or "unnamed". */
  function SubMeshLabel(names: seq<NameEntry>, i: nat): (r: string)
    ensures (forall k :: 0 <= k < |names| ==> names[k].index != i) ==> r == "unnamed"
    ensures (exists k :: 0 <= k < |names| && names[k].index == i) ==>
      exists k :: 0 <= k < |names| && names[k] == NameEntry(r, i)
  {
    match NameBoundTo(names, i)
    case Some(n) => n
    case None => "unnamed"
  }

  /** The reported triangle count: the buffer's index count divided by three, rounded down. */
  function ReportedTriangles(b: IndexBuffer): (r: nat)
    ensures 3 * r <= |b.indices| < 3 * r + 3
  {
    |b.indices| / 3
  }
}
