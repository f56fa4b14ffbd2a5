/**
 * The duplicate-detection pass of MmOptimiseTool::calculateDuplicateVertices,
 * as a specification over the sequence of vertex keys: vertices are visited
 * in order; a key the unique-vertex map already holds (up to tolerance) is
 * remapped onto the stored vertex, a new key is appended with the next
 * compacted index.
 *
 * std::map::find under a tolerance comparator is not modelled as a tree
 * search: `find` is a parameter of which only soundness is assumed (an answer,
 * if any, is a stored key the comparator treats as equivalent). Every
 * property below holds whatever a sound lookup answers.
 */
module Deduplication {
  import opened Wrappers
  import opened Vectors
  import opened UniqueVertexKey

  /** Original and compacted index of a surviving vertex. */
  datatype VertexInfo = VertexInfo(oldIndex: nat, newIndex: nat)

  /** One remap-table entry: the compacted target, and whether this vertex is the first of its class. */
  datatype IndexInfo = IndexInfo(targetIndex: nat, isOriginal: bool)

  /** An entry of a unique-vertex map: a key and what the map stores for it. */
  datatype MapEntry<K, I> = MapEntry(key: K, info: I)

  /** An entry of the unique-vertex map (kept in insertion order; see the module comment). */
  type UniqueEntry = MapEntry<UniqueVertex, VertexInfo>

  /** The working set: unique-vertex map, unique-vertex list, remap table, and the "duplicates seen" flag. */
  datatype DedupState = DedupState(
    entries: seq<UniqueEntry>,
    uniqueList: seq<VertexInfo>,
    remap: seq<IndexInfo>,
    duplicates: bool)

  const EmptyState: DedupState := DedupState([], [], [], false)

  type Lookup = (Comparator, seq<UniqueVertex>, UniqueVertex) -> Option<nat>

  /** A lookup answers with the position of a stored key equivalent to the probe, or with nothing. */
  ghost predicate LookupSound(find: Lookup) {
    forall c, ks, k {:trigger find(c, ks, k)} ::
      find(c, ks, k).Some? ==> find(c, ks, k).value < |ks| && Equivalent(c, ks[find(c, ks, k).value], k)
  }

  /** The keys of a map's entries, in entry order. */
  function MapKeys<K, I>(m: seq<MapEntry<K, I>>): (ks: seq<K>)
    ensures |ks| == |m| && forall j :: 0 <= j < |m| ==> ks[j] == m[j].key
  {
    seq(|m|, j requires 0 <= j < |m| => m[j].key)
  }

  /** One iteration of the vertex loop, for vertex `v` with key `key`. */
  function Step(c: Comparator, find: Lookup, st: DedupState, key: UniqueVertex, v: nat): DedupState
    requires LookupSound(find)
  {
    match find(c, MapKeys(st.entries), key)
    case Some(j) =>
      DedupState(st.entries, st.uniqueList, st.remap + [IndexInfo(st.entries[j].info.newIndex, false)], true)
    case None =>
      var info := VertexInfo(v, |st.entries|);
      DedupState(st.entries + [MapEntry(key, info)], st.uniqueList + [info],
                 st.remap + [IndexInfo(|st.entries|, true)], st.duplicates)
  }

  /** The working set after visiting the first `m` keys, starting from an empty one. */
  function DedupUpTo(c: Comparator, find: Lookup, keys: seq<UniqueVertex>, m: nat): DedupState
    requires LookupSound(find)
    requires m <= |keys|
  {
    if m == 0 then EmptyState
    else Step(c, find, DedupUpTo(c, find, keys, m - 1), keys[m - 1], m - 1)
  }

  /** The working set after visiting every key. */
  function Dedup(c: Comparator, find: Lookup, keys: seq<UniqueVertex>): DedupState
    requires LookupSound(find)
  {
    DedupUpTo(c, find, keys, |keys|)
  }

  function CountOriginals(remap: seq<IndexInfo>): nat {
    if remap == [] then 0
    else CountOriginals(remap[..|remap| - 1]) + (if remap[|remap| - 1].isOriginal then 1 else 0)
  }

  function CountDuplicates(remap: seq<IndexInfo>): nat {
    if remap == [] then 0
    else CountDuplicates(remap[..|remap| - 1]) + (if remap[|remap| - 1].isOriginal then 0 else 1)
  }

  // ---------------------------------------------------------------------
  // The invariant of the vertex loop after `m` vertices

  /** Unique list and map agree, targets are assigned in first-occurrence order. */
  ghost predicate ListWellFormed(st: DedupState, keys: seq<UniqueVertex>, m: nat) {
    && m <= |keys|
    && |st.uniqueList| <= m
    && |st.entries| == |st.uniqueList|
    && (forall k :: 0 <= k < |st.entries| ==> st.entries[k].info == st.uniqueList[k])
    && (forall k :: 0 <= k < |st.uniqueList| ==> st.uniqueList[k].newIndex == k && st.uniqueList[k].oldIndex < m)
    && (forall k :: 0 <= k < |st.entries| ==> st.entries[k].key == keys[st.uniqueList[k].oldIndex])
    && (forall k1, k2 :: 0 <= k1 < k2 < |st.uniqueList| ==> st.uniqueList[k1].oldIndex < st.uniqueList[k2].oldIndex)
  }

  /** One remap entry per visited vertex, each pointing at its class's first occurrence. */
  ghost predicate RemapWellFormed(c: Comparator, st: DedupState, keys: seq<UniqueVertex>, m: nat)
    requires ListWellFormed(st, keys, m)
  {
    && |st.remap| == m
    && (forall i :: 0 <= i < m ==> st.remap[i].targetIndex < |st.uniqueList| && st.remap[i].targetIndex <= i)
    && (forall i :: 0 <= i < m && st.remap[i].isOriginal ==>
          st.uniqueList[st.remap[i].targetIndex].oldIndex == i)
    && (forall i :: 0 <= i < m && !st.remap[i].isOriginal ==>
          st.uniqueList[st.remap[i].targetIndex].oldIndex < i
          && Equivalent(c, keys[st.uniqueList[st.remap[i].targetIndex].oldIndex], keys[i]))
    && (forall k :: 0 <= k < |st.uniqueList| ==> st.remap[st.uniqueList[k].oldIndex] == IndexInfo(k, true))
  }

  ghost predicate CountsAgree(st: DedupState) {
    && (st.duplicates <==> exists i :: 0 <= i < |st.remap| && !st.remap[i].isOriginal)
    && CountOriginals(st.remap) == |st.uniqueList|
    && CountOriginals(st.remap) + CountDuplicates(st.remap) == |st.remap|
  }

  ghost predicate WellFormed(c: Comparator, st: DedupState, keys: seq<UniqueVertex>, m: nat) {
    ListWellFormed(st, keys, m) && RemapWellFormed(c, st, keys, m) && CountsAgree(st)
  }

  lemma StepPreservesList(c: Comparator, find: Lookup, st: DedupState, keys: seq<UniqueVertex>, m: nat)
    requires LookupSound(find)
    requires m < |keys|
    requires ListWellFormed(st, keys, m)
    ensures ListWellFormed(Step(c, find, st, keys[m], m), keys, m + 1)
  {
  }

  /** A hit on stored key `j` keeps the remap well formed. */
  lemma HitPreservesRemap(c: Comparator, st: DedupState, keys: seq<UniqueVertex>, m: nat, j: nat)
    requires m < |keys|
    requires ListWellFormed(st, keys, m) && RemapWellFormed(c, st, keys, m)
    requires j < |st.entries| && Equivalent(c, st.entries[j].key, keys[m])
    ensures var st' := DedupState(st.entries, st.uniqueList, st.remap + [IndexInfo(st.entries[j].info.newIndex, false)], true);
      ListWellFormed(st', keys, m + 1) && RemapWellFormed(c, st', keys, m + 1)
  {
    var st' := DedupState(st.entries, st.uniqueList, st.remap + [IndexInfo(st.entries[j].info.newIndex, false)], true);
    assert ListWellFormed(st', keys, m + 1);
    assert st'.remap[m] == IndexInfo(j, false);
    assert st.entries[j].key == keys[st.uniqueList[j].oldIndex];
    forall i | 0 <= i < m ensures st'.remap[i] == st.remap[i] { }
    forall i | 0 <= i < m + 1 && !st'.remap[i].isOriginal
      ensures st.uniqueList[st'.remap[i].targetIndex].oldIndex < i
      ensures Equivalent(c, keys[st.uniqueList[st'.remap[i].targetIndex].oldIndex], keys[i])
    {
      if i == m {
        assert st'.remap[i].targetIndex == j;
      } else {
        assert st'.remap[i] == st.remap[i];
      }
    }
    forall k | 0 <= k < |st.uniqueList| ensures st'.remap[st.uniqueList[k].oldIndex] == IndexInfo(k, true) {
      assert st'.remap[st.uniqueList[k].oldIndex] == st.remap[st.uniqueList[k].oldIndex];
    }
  }

  /** A miss files the key as the next unique vertex and keeps the remap well formed. */
  lemma MissPreservesRemap(c: Comparator, st: DedupState, keys: seq<UniqueVertex>, m: nat)
    requires m < |keys|
    requires ListWellFormed(st, keys, m) && RemapWellFormed(c, st, keys, m)
    ensures var info := VertexInfo(m, |st.entries|);
      var st' := DedupState(st.entries + [MapEntry(keys[m], info)], st.uniqueList + [info],
                            st.remap + [IndexInfo(|st.entries|, true)], st.duplicates);
      ListWellFormed(st', keys, m + 1) && RemapWellFormed(c, st', keys, m + 1)
  {
    var info := VertexInfo(m, |st.entries|);
    var st' := DedupState(st.entries + [MapEntry(keys[m], info)], st.uniqueList + [info],
                          st.remap + [IndexInfo(|st.entries|, true)], st.duplicates);
    assert ListWellFormed(st', keys, m + 1);
    assert st'.remap[m] == IndexInfo(|st.entries|, true);
    forall i | 0 <= i < m ensures st'.remap[i] == st.remap[i] { }
  }

  lemma StepPreservesRemap(c: Comparator, find: Lookup, st: DedupState, keys: seq<UniqueVertex>, m: nat)
    requires LookupSound(find)
    requires m < |keys|
    requires ListWellFormed(st, keys, m) && RemapWellFormed(c, st, keys, m)
    ensures ListWellFormed(Step(c, find, st, keys[m], m), keys, m + 1)
    ensures RemapWellFormed(c, Step(c, find, st, keys[m], m), keys, m + 1)
  {
    match find(c, MapKeys(st.entries), keys[m])
    case Some(j) =>
      HitPreservesRemap(c, st, keys, m, j);
    case None =>
      MissPreservesRemap(c, st, keys, m);
  }

  lemma StepPreservesCounts(c: Comparator, find: Lookup, st: DedupState, key: UniqueVertex, m: nat)
    requires LookupSound(find)
    requires |st.entries| == |st.uniqueList|
    requires CountsAgree(st)
    ensures CountsAgree(Step(c, find, st, key, m))
  {
    var st' := Step(c, find, st, key, m);
    assert st'.remap[..|st'.remap| - 1] == st.remap;
    if st'.duplicates && !st.duplicates {
      assert !st'.remap[|st.remap|].isOriginal;
    }
    if st.duplicates {
      var i :| 0 <= i < |st.remap| && !st.remap[i].isOriginal;
      assert st'.remap[i] == st.remap[i];
    }
  }

  lemma StepPreserves(c: Comparator, find: Lookup, st: DedupState, keys: seq<UniqueVertex>, m: nat)
    requires LookupSound(find)
    requires m < |keys|
    requires WellFormed(c, st, keys, m)
    ensures WellFormed(c, Step(c, find, st, keys[m], m), keys, m + 1)
  {
    StepPreservesRemap(c, find, st, keys, m);
    StepPreservesCounts(c, find, st, keys[m], m);
  }

  /** The loop invariant holds after every prefix of the keys. */
  lemma {:induction false} DedupWellFormedUpTo(c: Comparator, find: Lookup, keys: seq<UniqueVertex>, m: nat)
    requires LookupSound(find)
    requires m <= |keys|
    ensures WellFormed(c, DedupUpTo(c, find, keys, m), keys, m)
  {
    if m > 0 {
      DedupWellFormedUpTo(c, find, keys, m - 1);
      StepPreserves(c, find, DedupUpTo(c, find, keys, m - 1), keys, m - 1);
    }
  }

  lemma DedupWellFormed(c: Comparator, find: Lookup, keys: seq<UniqueVertex>)
    requires LookupSound(find)
    ensures WellFormed(c, Dedup(c, find, keys), keys, |keys|)
  {
    DedupWellFormedUpTo(c, find, keys, |keys|);
  }

  // ---------------------------------------------------------------------
  // What the pass guarantees

  /**
   * Exactly one remap entry per source vertex, and every target lies in the
   * compacted range and never above the vertex's own index.
   */
  lemma DedupRemapTotal(c: Comparator, find: Lookup, keys: seq<UniqueVertex>)
    requires LookupSound(find)
    ensures var st := Dedup(c, find, keys);
      && |st.remap| == |keys|
      && |st.entries| == |st.uniqueList| <= |keys|
      && forall i :: 0 <= i < |keys| ==> st.remap[i].targetIndex < |st.uniqueList| && st.remap[i].targetIndex <= i
  {
    DedupWellFormed(c, find, keys);
    var st := Dedup(c, find, keys);
    CountsBound(st.remap);
  }

  lemma {:induction false} CountsBound(remap: seq<IndexInfo>)
    ensures CountOriginals(remap) <= |remap|
  {
    if remap != [] {
      CountsBound(remap[..|remap| - 1]);
    }
  }

  /**
   * First occurrence wins: entry k of the unique list is the k-th new key,
   * carries newIndex k, is stored in the map with the same info, and its
   * source vertex is remapped onto k as the original.
   */
  /** Every unique vertex comes from a visited vertex. */
  lemma DedupSourcesWithin(c: Comparator, find: Lookup, keys: seq<UniqueVertex>)
    requires LookupSound(find)
    ensures var st := Dedup(c, find, keys);
      forall k :: 0 <= k < |st.uniqueList| ==> st.uniqueList[k].oldIndex < |keys|
  {
    DedupWellFormed(c, find, keys);
  }

  lemma DedupFirstOccurrence(c: Comparator, find: Lookup, keys: seq<UniqueVertex>)
    requires LookupSound(find)
    ensures var st := Dedup(c, find, keys);
      && |st.remap| == |keys| && |st.entries| == |st.uniqueList|
      && (forall k :: 0 <= k < |st.uniqueList| ==>
            st.uniqueList[k].newIndex == k && st.uniqueList[k].oldIndex < |keys|
            && st.entries[k] == MapEntry(keys[st.uniqueList[k].oldIndex], st.uniqueList[k])
            && st.remap[st.uniqueList[k].oldIndex] == IndexInfo(k, true))
      && (forall k1, k2 :: 0 <= k1 < k2 < |st.uniqueList| ==> st.uniqueList[k1].oldIndex < st.uniqueList[k2].oldIndex)
  {
    DedupWellFormed(c, find, keys);
  }

  /**
   * An original vertex is the one its target was created from; a duplicate
   * is mapped onto an earlier vertex whose key the comparator treats as
   * equivalent to its own.
   */
  lemma DedupTargetsRepresent(c: Comparator, find: Lookup, keys: seq<UniqueVertex>)
    requires LookupSound(find)
    ensures var st := Dedup(c, find, keys);
      && |st.remap| == |keys|
      && (forall i :: 0 <= i < |keys| ==> st.remap[i].targetIndex < |st.uniqueList|)
      && forall i :: 0 <= i < |keys| ==>
        var rep := st.uniqueList[st.remap[i].targetIndex].oldIndex;
        && (st.remap[i].isOriginal ==> rep == i)
        && (!st.remap[i].isOriginal ==> rep < i && Equivalent(c, keys[rep], keys[i]))
  {
    DedupWellFormed(c, find, keys);
  }

  /**
   * Conservation: surviving plus removed vertices is the source count, the
   * originals are exactly the survivors, and duplicates were found iff some
   * vertex was removed.
   */
  lemma DedupConservation(c: Comparator, find: Lookup, keys: seq<UniqueVertex>)
    requires LookupSound(find)
    ensures var st := Dedup(c, find, keys);
      && CountOriginals(st.remap) == |st.uniqueList|
      && |st.uniqueList| + CountDuplicates(st.remap) == |keys|
      && (st.duplicates <==> |st.uniqueList| < |keys|)
  {
    DedupWellFormed(c, find, keys);
    var st := Dedup(c, find, keys);
    if |st.uniqueList| < |keys| {
      NoDuplicateMeansAllOriginal(st.remap);
    }
    if st.duplicates {
      var i :| 0 <= i < |st.remap| && !st.remap[i].isOriginal;
      SomeDuplicateCounts(st.remap, i);
    }
  }

  lemma {:induction false} NoDuplicateMeansAllOriginal(remap: seq<IndexInfo>)
    requires CountDuplicates(remap) > 0
    ensures exists i :: 0 <= i < |remap| && !remap[i].isOriginal
  {
    var n := |remap| - 1;
    if remap[n].isOriginal {
      NoDuplicateMeansAllOriginal(remap[..n]);
      var i :| 0 <= i < n && !remap[..n][i].isOriginal;
      assert remap[i] == remap[..n][i];
    }
  }

  lemma {:induction false} SomeDuplicateCounts(remap: seq<IndexInfo>, i: nat)
    requires i < |remap| && !remap[i].isOriginal
    ensures CountDuplicates(remap) > 0
  {
    var n := |remap| - 1;
    if i < n {
      assert remap[..n][i] == remap[i];
      SomeDuplicateCounts(remap[..n], i);
    }
  }

  /** Originals keep their relative order: a later original gets a larger target. */
  lemma DedupOriginalsMonotone(c: Comparator, find: Lookup, keys: seq<UniqueVertex>)
    requires LookupSound(find)
    ensures var st := Dedup(c, find, keys);
      && |st.remap| == |keys|
      && forall i, j :: 0 <= i < j < |keys| && st.remap[i].isOriginal && st.remap[j].isOriginal ==>
        st.remap[i].targetIndex < st.remap[j].targetIndex
  {
    DedupWellFormed(c, find, keys);
  }

  // ---------------------------------------------------------------------
  // A reference lookup and the worked example

  /** A linear search, from position `i` on, for the first stored key equivalent to the probe. */
  function FirstEquivalentFrom(c: Comparator, ks: seq<UniqueVertex>, k: UniqueVertex, i: nat): (r: Option<nat>)
    requires i <= |ks|
    ensures r.Some? ==>
      && i <= r.value < |ks| && Equivalent(c, ks[r.value], k)
      && forall j :: i <= j < r.value ==> !Equivalent(c, ks[j], k)
    ensures r.None? ==> forall j :: i <= j < |ks| ==> !Equivalent(c, ks[j], k)
    decreases |ks| - i
  {
    if i == |ks| then None
    else if Equivalent(c, ks[i], k) then Some(i)
    else FirstEquivalentFrom(c, ks, k, i + 1)
  }

  /** The first stored key equivalent to the probe: one sound lookup among many. */
  function FirstEquivalent(c: Comparator, ks: seq<UniqueVertex>, k: UniqueVertex): (r: Option<nat>)
    ensures r.Some? ==>
      && r.value < |ks| && Equivalent(c, ks[r.value], k)
      && forall j :: 0 <= j < r.value ==> !Equivalent(c, ks[j], k)
    ensures r.None? ==> forall j :: 0 <= j < |ks| ==> !Equivalent(c, ks[j], k)
  {
    FirstEquivalentFrom(c, ks, k, 0)
  }

  lemma FirstEquivalentSound()
    ensures LookupSound(FirstEquivalent)
  {
  }

  /** Three of the keys used below: `a` and `b` and `d` differ in position by a unit. */
  lemma ScenarioKeys(c: Comparator, a: UniqueVertex, b: UniqueVertex, d: UniqueVertex)
    requires c == Comparator(0.000001, 0.000001, 0.000001, 0)
    requires a == DefaultUniqueVertex
    requires b == DefaultUniqueVertex.(position := Vec3(1.0, 0.0, 0.0))
    requires d == DefaultUniqueVertex.(position := Vec3(0.0, 1.0, 0.0))
    ensures FirstEquivalent(c, [a], b) == None
    ensures FirstEquivalent(c, [a, b], a) == Some(0)
    ensures FirstEquivalent(c, [a, b], d) == None
  {
    assert KeyLess(c, a, b) && KeyLess(c, a, d) && KeyLess(c, d, b);
    KeyLessIrreflexive(c, a);
    assert FirstEquivalent(c, [b], d) == None;
  }

  /**
   * Four vertices where 0 and 2 share every attribute: the remap is
   * 0 -> 0, 1 -> 1, 2 -> 0 (duplicate), 3 -> 2, and three vertices remain.
   */
  lemma FourVertexScenario(c: Comparator, a: UniqueVertex, b: UniqueVertex, d: UniqueVertex)
    requires c == Comparator(0.000001, 0.000001, 0.000001, 0)
    requires a == DefaultUniqueVertex
    requires b == DefaultUniqueVertex.(position := Vec3(1.0, 0.0, 0.0))
    requires d == DefaultUniqueVertex.(position := Vec3(0.0, 1.0, 0.0))
    ensures LookupSound(FirstEquivalent)
    ensures
      var st := Dedup(c, FirstEquivalent, [a, b, a, d]);
      && st.remap == [IndexInfo(0, true), IndexInfo(1, true), IndexInfo(0, false), IndexInfo(2, true)]
      && |st.uniqueList| == 3 && st.duplicates
  {
    FirstEquivalentSound();
    ScenarioKeys(c, a, b, d);
    var keys := [a, b, a, d];
    var s1 := DedupState([MapEntry(a, VertexInfo(0, 0))], [VertexInfo(0, 0)], [IndexInfo(0, true)], false);
    assert DedupUpTo(c, FirstEquivalent, keys, 1) == s1;
    var s2 := DedupState(s1.entries + [MapEntry(b, VertexInfo(1, 1))], s1.uniqueList + [VertexInfo(1, 1)],
                         s1.remap + [IndexInfo(1, true)], false);
    assert DedupUpTo(c, FirstEquivalent, keys, 2) == s2;
    var s3 := s2.(remap := s2.remap + [IndexInfo(0, false)], duplicates := true);
    assert MapKeys(s2.entries) == [a, b];
    assert DedupUpTo(c, FirstEquivalent, keys, 3) == s3;
  }
}
