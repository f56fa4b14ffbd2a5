/**
 * The duplicate-detection pass of the older OptimiseTool, as a
 * specification over the sequence of vertex keys. The unique-vertex map
 * stores, for each distinct key, the SOURCE index of the vertex that first
 * had it. A new key gets the map's size as its remap target; a key the map
 * already holds gets the stored source index as its target.
 *
 * The map is a std::map ordered by the comparator, and the rebuild walks it
 * in that order, so the model keeps its entries in iteration order: a new
 * key is inserted at the position a `place` parameter names. As with the
 * lookup, only soundness is assumed of it (a position within the map).
 */
module LegacyDeduplication {
  import opened Wrappers
  import opened Vectors
  import opened LegacyKey
  import opened Deduplication

  /** An entry of the unique-vertex map: a key and the source index of its first occurrence. */
  type LegacyEntry = MapEntry<LegacyVertex, nat>

  /** The working set: the map in iteration order, the remap table, and the "duplicates seen" flag. */
  datatype LegacyState = LegacyState(entries: seq<LegacyEntry>, remap: seq<nat>, duplicates: bool)

  const LegacyEmpty: LegacyState := LegacyState([], [], false)

  type LegacyLookup = (LegacyComparator, seq<LegacyVertex>, LegacyVertex) -> Option<nat>
  type Placement = (LegacyComparator, seq<LegacyVertex>, LegacyVertex) -> nat

  /** A lookup answers with the position of a stored key equivalent to the probe, or with nothing. */
  ghost predicate LegacyLookupSound(find: LegacyLookup) {
    forall c, ks, k {:trigger find(c, ks, k)} ::
      find(c, ks, k).Some? ==> find(c, ks, k).value < |ks| && LegacyEquivalent(c, ks[find(c, ks, k).value], k)
  }

  /** Insertion puts a new key somewhere within the map. */
  ghost predicate PlacementSound(place: Placement) {
    forall c, ks, k {:trigger place(c, ks, k)} :: place(c, ks, k) <= |ks|
  }

  /** One iteration of the old vertex loop, for vertex `v` with key `key`. */
  function LegacyStep(c: LegacyComparator, find: LegacyLookup, place: Placement, st: LegacyState,
                      key: LegacyVertex, v: nat): LegacyState
    requires LegacyLookupSound(find) && PlacementSound(place)
  {
    match find(c, MapKeys(st.entries), key)
    case Some(j) =>
      LegacyState(st.entries, st.remap + [st.entries[j].info], true)
    case None =>
      var p := place(c, MapKeys(st.entries), key);
      LegacyState(st.entries[..p] + [MapEntry(key, v)] + st.entries[p..], st.remap + [|st.entries|], st.duplicates)
  }

  function LegacyDedupUpTo(c: LegacyComparator, find: LegacyLookup, place: Placement, keys: seq<LegacyVertex>, m: nat): LegacyState
    requires LegacyLookupSound(find) && PlacementSound(place)
    requires m <= |keys|
  {
    if m == 0 then LegacyEmpty
    else LegacyStep(c, find, place, LegacyDedupUpTo(c, find, place, keys, m - 1), keys[m - 1], m - 1)
  }

  /** The working set after visiting every key. */
  function LegacyDedup(c: LegacyComparator, find: LegacyLookup, place: Placement, keys: seq<LegacyVertex>): LegacyState
    requires LegacyLookupSound(find) && PlacementSound(place)
  {
    LegacyDedupUpTo(c, find, place, keys, |keys|)
  }

  /** The source indices the map stores. */
  function Sources(entries: seq<LegacyEntry>): (r: set<nat>)
    ensures forall e :: e in entries ==> e.info in r
    ensures forall s :: s in r ==> exists e :: e in entries && e.info == s
  {
    set e | e in entries :: e.info
  }

  /** Filing a new entry at position `p` adds exactly that entry. */
  lemma InsertAt(entries: seq<LegacyEntry>, p: nat, e: LegacyEntry)
    requires p <= |entries|
    ensures var r := entries[..p] + [e] + entries[p..];
      && |r| == |entries| + 1
      && (forall x :: x in r <==> x in entries || x == e)
      && Sources(r) == Sources(entries) + {e.info}
  {
    var r := entries[..p] + [e] + entries[p..];
    assert entries == entries[..p] + entries[p..];
    assert forall x :: x in r <==> x in entries[..p] || x == e || x in entries[p..];
  }

  // ---------------------------------------------------------------------
  // The invariant of the old vertex loop after `m` vertices

  /** Every stored key is the key of its source vertex, an earlier one. */
  ghost predicate EntriesWellFormed(entries: seq<LegacyEntry>, keys: seq<LegacyVertex>, m: nat)
    requires m <= |keys|
  {
    forall e :: e in entries ==> e.info < m && e.key == keys[e.info]
  }

  /**
   * A vertex is stored exactly when it was new, and then its target is a
   * position in the map; a vertex that was not new is remapped onto the
   * source index of an earlier stored vertex with an equivalent key.
   */
  ghost predicate TargetsWellFormed(c: LegacyComparator, st: LegacyState, keys: seq<LegacyVertex>, m: nat)
    requires m <= |keys| && |st.remap| == m
  {
    && (forall i :: 0 <= i < m ==> st.remap[i] <= i)
    && (forall i :: 0 <= i < m && i in Sources(st.entries) ==> st.remap[i] < |st.entries|)
    && (forall i :: 0 <= i < m && i !in Sources(st.entries) ==>
          st.remap[i] in Sources(st.entries) && st.remap[i] < i && LegacyEquivalent(c, keys[st.remap[i]], keys[i]))
  }

  ghost predicate LegacyWellFormed(c: LegacyComparator, st: LegacyState, keys: seq<LegacyVertex>, m: nat) {
    && m <= |keys|
    && |st.remap| == m
    && |st.entries| <= m
    && (st.duplicates <==> |st.entries| < m)
    && EntriesWellFormed(st.entries, keys, m)
    && TargetsWellFormed(c, st, keys, m)
  }

  lemma LegacyHitPreserves(c: LegacyComparator, st: LegacyState, keys: seq<LegacyVertex>, m: nat, j: nat)
    requires m < |keys|
    requires LegacyWellFormed(c, st, keys, m)
    requires j < |st.entries| && LegacyEquivalent(c, st.entries[j].key, keys[m])
    ensures LegacyWellFormed(c, LegacyState(st.entries, st.remap + [st.entries[j].info], true), keys, m + 1)
  {
    var st' := LegacyState(st.entries, st.remap + [st.entries[j].info], true);
    assert st.entries[j] in st.entries;
    assert m !in Sources(st.entries);
    forall i | 0 <= i < m ensures st'.remap[i] == st.remap[i] { }
  }

  /** A miss keeps every stored key tied to its source vertex. */
  lemma MissKeepsEntries(entries: seq<LegacyEntry>, keys: seq<LegacyVertex>, m: nat, p: nat)
    requires m < |keys| && p <= |entries|
    requires EntriesWellFormed(entries, keys, m)
    ensures EntriesWellFormed(entries[..p] + [MapEntry(keys[m], m)] + entries[p..], keys, m + 1)
  {
    InsertAt(entries, p, MapEntry(keys[m], m));
  }

  /** A miss files vertex `m` with the old map size as its target; earlier targets stay valid. */
  lemma MissKeepsTargets(c: LegacyComparator, st: LegacyState, keys: seq<LegacyVertex>, m: nat, entries': seq<LegacyEntry>)
    requires m < |keys| && |st.remap| == m && |st.entries| <= m
    requires TargetsWellFormed(c, st, keys, m)
    requires Sources(entries') == Sources(st.entries) + {m} && |entries'| == |st.entries| + 1
    ensures TargetsWellFormed(c, LegacyState(entries', st.remap + [|st.entries|], st.duplicates), keys, m + 1)
  {
    var st' := LegacyState(entries', st.remap + [|st.entries|], st.duplicates);
    var sources, sources' := Sources(st.entries), Sources(entries');
    forall i | 0 <= i < m ensures st'.remap[i] == st.remap[i] && (i in sources' <==> i in sources) { }
    assert st'.remap[m] == |st.entries| && m in sources';
    forall i | 0 <= i < m + 1 && i in sources' ensures st'.remap[i] < |entries'| {
      if i < m {
        assert i in sources;
      }
    }
    forall i | 0 <= i < m + 1 && i !in sources'
      ensures st'.remap[i] in sources' && st'.remap[i] < i && LegacyEquivalent(c, keys[st'.remap[i]], keys[i])
    {
      assert i < m && st'.remap[i] == st.remap[i];
    }
  }

  lemma LegacyMissPreserves(c: LegacyComparator, st: LegacyState, keys: seq<LegacyVertex>, m: nat, p: nat)
    requires m < |keys|
    requires LegacyWellFormed(c, st, keys, m)
    requires p <= |st.entries|
    ensures LegacyWellFormed(c, LegacyState(st.entries[..p] + [MapEntry(keys[m], m)] + st.entries[p..],
                                            st.remap + [|st.entries|], st.duplicates), keys, m + 1)
  {
    var entries' := st.entries[..p] + [MapEntry(keys[m], m)] + st.entries[p..];
    InsertAt(st.entries, p, MapEntry(keys[m], m));
    MissKeepsEntries(st.entries, keys, m, p);
    MissKeepsTargets(c, st, keys, m, entries');
  }

  lemma LegacyStepPreserves(c: LegacyComparator, find: LegacyLookup, place: Placement, st: LegacyState,
                            keys: seq<LegacyVertex>, m: nat)
    requires LegacyLookupSound(find) && PlacementSound(place)
    requires m < |keys|
    requires LegacyWellFormed(c, st, keys, m)
    ensures LegacyWellFormed(c, LegacyStep(c, find, place, st, keys[m], m), keys, m + 1)
  {
    match find(c, MapKeys(st.entries), keys[m])
    case Some(j) =>
      LegacyHitPreserves(c, st, keys, m, j);
    case None =>
      LegacyMissPreserves(c, st, keys, m, place(c, MapKeys(st.entries), keys[m]));
  }

  lemma {:induction false} LegacyWellFormedUpTo(c: LegacyComparator, find: LegacyLookup, place: Placement,
                                                keys: seq<LegacyVertex>, m: nat)
    requires LegacyLookupSound(find) && PlacementSound(place)
    requires m <= |keys|
    ensures LegacyWellFormed(c, LegacyDedupUpTo(c, find, place, keys, m), keys, m)
  {
    if m > 0 {
      LegacyWellFormedUpTo(c, find, place, keys, m - 1);
      LegacyStepPreserves(c, find, place, LegacyDedupUpTo(c, find, place, keys, m - 1), keys, m - 1);
    }
  }

  // ---------------------------------------------------------------------
  // What the old pass guarantees

  /**
   * One remap entry per source vertex, never above the vertex's own index;
   * the map holds at most one entry per vertex, each storing the key of its
   * source vertex; and duplicates were seen exactly when the map ends up
   * smaller than the vertex count.
   */
  lemma LegacyRemapTotal(c: LegacyComparator, find: LegacyLookup, place: Placement, keys: seq<LegacyVertex>)
    requires LegacyLookupSound(find) && PlacementSound(place)
    ensures var st := LegacyDedup(c, find, place, keys);
      && |st.remap| == |keys|
      && |st.entries| <= |keys|
      && (st.duplicates <==> |st.entries| < |keys|)
      && (forall i :: 0 <= i < |keys| ==> st.remap[i] <= i)
      && forall e :: e in st.entries ==> e.info < |keys| && e.key == keys[e.info]
  {
    LegacyWellFormedUpTo(c, find, place, keys, |keys|);
  }

  /**
   * The two kinds of remap target: a vertex the map stores (a first
   * occurrence) is remapped into the map's range; any other vertex is
   * remapped onto the SOURCE index of an earlier stored vertex whose key
   * is equivalent to its own.
   */
  lemma LegacyTargets(c: LegacyComparator, find: LegacyLookup, place: Placement, keys: seq<LegacyVertex>)
    requires LegacyLookupSound(find) && PlacementSound(place)
    ensures var st := LegacyDedup(c, find, place, keys);
      && |st.remap| == |keys|
      && (forall i :: 0 <= i < |keys| && i in Sources(st.entries) ==> st.remap[i] < |st.entries|)
      && forall i :: 0 <= i < |keys| && i !in Sources(st.entries) ==>
           st.remap[i] in Sources(st.entries) && st.remap[i] < i && LegacyEquivalent(c, keys[st.remap[i]], keys[i])
  {
    LegacyWellFormedUpTo(c, find, place, keys, |keys|);
  }

  /** What a missed key's step does: the map grows by that key stored with its source index, and the target is the old map size. */
  lemma LegacyMissStoresSource(c: LegacyComparator, find: LegacyLookup, place: Placement, st: LegacyState, key: LegacyVertex, v: nat)
    requires LegacyLookupSound(find) && PlacementSound(place)
    requires find(c, MapKeys(st.entries), key).None?
    ensures var st' := LegacyStep(c, find, place, st, key, v);
      && |st'.entries| == |st.entries| + 1
      && multiset(st'.entries) == multiset(st.entries) + multiset{MapEntry(key, v)}
      && st'.remap == st.remap + [|st.entries|]
      && st'.duplicates == st.duplicates
  {
    var p := place(c, MapKeys(st.entries), key);
    assert st.entries == st.entries[..p] + st.entries[p..];
  }

  // ---------------------------------------------------------------------
  // A concrete lookup and insertion position, for the counterexamples below

  /** The first stored key equivalent to the probe. */
  function FirstEquivalent(c: LegacyComparator, ks: seq<LegacyVertex>, k: LegacyVertex): (r: Option<nat>)
    ensures r.Some? ==> r.value < |ks| && LegacyEquivalent(c, ks[r.value], k)
    ensures r.None? ==> forall j :: 0 <= j < |ks| ==> !LegacyEquivalent(c, ks[j], k)
  {
    if ks == [] then None
    else if LegacyEquivalent(c, ks[0], k) then Some(0)
    else match FirstEquivalent(c, ks[1..], k)
      case None => None
      case Some(j) => Some(j + 1)
  }

  /** Where an ordered map files a new key among keys it keeps in strictly increasing order: before the first greater one. */
  function OrderedPlacement(c: LegacyComparator, ks: seq<LegacyVertex>, k: LegacyVertex): (p: nat)
    ensures p <= |ks|
    ensures forall j :: 0 <= j < p ==> !LegacyLess(c, k, ks[j])
    ensures p < |ks| ==> LegacyLess(c, k, ks[p])
  {
    if ks == [] then 0
    else if LegacyLess(c, k, ks[0]) then 0
    else 1 + OrderedPlacement(c, ks[1..], k)
  }

  lemma ConcreteOraclesSound()
    ensures LegacyLookupSound(FirstEquivalent) && PlacementSound(OrderedPlacement)
  {
  }

  /** Two keys far apart in position, with A below B. */
  const KeyA: LegacyVertex := DefaultLegacyVertex.(position := Vec3(0.0, 0.0, 0.0))
  const KeyB: LegacyVertex := DefaultLegacyVertex.(position := Vec3(10.0, 0.0, 0.0))
  const UnitComparator: LegacyComparator := LegacyComparator(1.0, 0)

  lemma KeysApart()
    ensures LegacyLess(UnitComparator, KeyA, KeyB) && !LegacyLess(UnitComparator, KeyB, KeyA)
    ensures LegacyEquivalent(UnitComparator, KeyA, KeyA) && LegacyEquivalent(UnitComparator, KeyB, KeyB)
    ensures !LegacyEquivalent(UnitComparator, KeyA, KeyB) && !LegacyEquivalent(UnitComparator, KeyB, KeyA)
  {
  }

  /**
   * A hit's target is a source index, not a map position: for vertices
   * A, A, B, B the last vertex is remapped to 2, the source index of the
   * first B, although the map (and so the rebuilt buffer) holds only two
   * vertices.
   */
  lemma HitTargetLeavesRange()
    ensures LegacyLookupSound(FirstEquivalent) && PlacementSound(OrderedPlacement) && var st := LegacyDedup(UnitComparator, FirstEquivalent, OrderedPlacement, [KeyA, KeyA, KeyB, KeyB]);
      st.remap == [0, 0, 1, 2] && |st.entries| == 2 && st.remap[3] >= |st.entries|
  {
    ConcreteOraclesSound();
    var c, f, p := UnitComparator, FirstEquivalent, OrderedPlacement;
    var keys := [KeyA, KeyA, KeyB, KeyB];
    StepsFirstPair();
    StepsSecondPair();
    assert LegacyDedupUpTo(c, f, p, keys, 1) == LegacyState([MapEntry(KeyA, 0)], [0], false);
    assert LegacyDedupUpTo(c, f, p, keys, 2) == LegacyState([MapEntry(KeyA, 0)], [0, 0], true);
    assert LegacyDedupUpTo(c, f, p, keys, 3) == LegacyState([MapEntry(KeyA, 0), MapEntry(KeyB, 2)], [0, 0, 1], true);
    assert LegacyDedupUpTo(c, f, p, keys, 4) == LegacyState([MapEntry(KeyA, 0), MapEntry(KeyB, 2)], [0, 0, 1, 2], true);
  }

  /** Vertices 0 and 1 of A, A, B, B: A is stored with source 0, then found again. */
  lemma StepsFirstPair()
    ensures LegacyLookupSound(FirstEquivalent) && PlacementSound(OrderedPlacement)
    ensures LegacyStep(UnitComparator, FirstEquivalent, OrderedPlacement, LegacyEmpty, KeyA, 0)
            == LegacyState([MapEntry(KeyA, 0)], [0], false)
    ensures LegacyStep(UnitComparator, FirstEquivalent, OrderedPlacement, LegacyState([MapEntry(KeyA, 0)], [0], false), KeyA, 1)
            == LegacyState([MapEntry(KeyA, 0)], [0, 0], true)
  {
    ConcreteOraclesSound();
    KeysApart();
    var c := UnitComparator;
    assert MapKeys<LegacyVertex, nat>([]) == [] && FirstEquivalent(c, [], KeyA) == None;
    assert MapKeys([MapEntry(KeyA, 0)]) == [KeyA] && FirstEquivalent(c, [KeyA], KeyA) == Some(0);
  }

  /** Vertices 2 and 3 of A, A, B, B: B is stored with source 2, then found again and remapped to 2. */
  lemma StepsSecondPair()
    ensures LegacyLookupSound(FirstEquivalent) && PlacementSound(OrderedPlacement)
    ensures LegacyStep(UnitComparator, FirstEquivalent, OrderedPlacement, LegacyState([MapEntry(KeyA, 0)], [0, 0], true), KeyB, 2)
            == LegacyState([MapEntry(KeyA, 0), MapEntry(KeyB, 2)], [0, 0, 1], true)
    ensures LegacyStep(UnitComparator, FirstEquivalent, OrderedPlacement,
                       LegacyState([MapEntry(KeyA, 0), MapEntry(KeyB, 2)], [0, 0, 1], true), KeyB, 3)
            == LegacyState([MapEntry(KeyA, 0), MapEntry(KeyB, 2)], [0, 0, 1, 2], true)
  {
    ConcreteOraclesSound();
    KeysApart();
    var c := UnitComparator;
    assert MapKeys([MapEntry(KeyA, 0)]) == [KeyA];
    assert FirstEquivalent(c, [KeyA], KeyB) == None && OrderedPlacement(c, [KeyA], KeyB) == 1;
    assert MapKeys([MapEntry(KeyA, 0), MapEntry(KeyB, 2)]) == [KeyA, KeyB];
    assert FirstEquivalent(c, [KeyA, KeyB], KeyB) == Some(1);
  }

  /** The record order the old rebuild produces: position k takes the k-th map entry's source vertex. */
  function MapOrderList(entries: seq<LegacyEntry>): (list: seq<VertexInfo>)
    ensures |list| == |entries|
    ensures forall k :: 0 <= k < |entries| ==> list[k] == VertexInfo(entries[k].info, k)
  {
    seq(|entries|, k requires 0 <= k < |entries| => VertexInfo(entries[k].info, k))
  }

  /**
   * New vertices get targets in visiting order, but the rebuild lays the
   * records out in comparator order: for vertices B, A (A below B), vertex
   * 0 keeps target 0, yet the rebuilt record 0 is vertex 1's, whose key A
   * is not equivalent to B.
   */
  lemma RebuildOrderDisagrees()
    ensures LegacyLookupSound(FirstEquivalent) && PlacementSound(OrderedPlacement) && var st := LegacyDedup(UnitComparator, FirstEquivalent, OrderedPlacement, [KeyB, KeyA]);
      && st.remap == [0, 1]
      && MapOrderList(st.entries)[st.remap[0]].oldIndex == 1
      && !LegacyEquivalent(UnitComparator, [KeyB, KeyA][1], [KeyB, KeyA][0])
  {
    ConcreteOraclesSound();
    KeysApart();
    var c, f, p := UnitComparator, FirstEquivalent, OrderedPlacement;
    var keys := [KeyB, KeyA];
    var s1 := LegacyState([MapEntry(KeyB, 0)], [0], false);
    var s2 := LegacyState([MapEntry(KeyA, 1), MapEntry(KeyB, 0)], [0, 1], false);
    assert MapKeys<LegacyVertex, nat>([]) == [] && FirstEquivalent(c, [], KeyB) == None;
    assert LegacyStep(c, f, p, LegacyEmpty, KeyB, 0) == s1;
    assert MapKeys(s1.entries) == [KeyB];
    assert FirstEquivalent(c, [KeyB], KeyA) == None && OrderedPlacement(c, [KeyB], KeyA) == 0;
    assert LegacyStep(c, f, p, s1, KeyA, 1) == s2;
    assert LegacyDedupUpTo(c, f, p, keys, 1) == s1;
    assert LegacyDedupUpTo(c, f, p, keys, 2) == s2;
  }
}
