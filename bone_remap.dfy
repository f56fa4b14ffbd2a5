/**
 * Re-targeting skinning data through the remap table
 * (MmOptimiseTool::getAdjustedBoneAssignments, as a specification).
 */
module BoneRemap {
  import opened BoneAssignments
  import opened Deduplication

  /** Every assignment names a vertex below `n`. */
  predicate BonesBelow(bas: MultiMap<BoneAssignment>, n: nat) {
    forall e :: e in bas ==> e.value.vertexIndex < n
  }

  /** Every assignment's vertex has an entry in the remap table. */
  predicate RemapCovers(bas: MultiMap<BoneAssignment>, remap: seq<IndexInfo>) {
    BonesBelow(bas, |remap|)
  }

  /** The assignment moved onto its vertex's compacted index; bone and weight stay. */
  function Retargeted(a: BoneAssignment, remap: seq<IndexInfo>): BoneAssignment
    requires a.vertexIndex < |remap|
  {
    a.(vertexIndex := remap[a.vertexIndex].targetIndex)
  }

  /** The entries the loop inserts, in the order it inserts them. */
  function KeptRetargeted(bas: MultiMap<BoneAssignment>, remap: seq<IndexInfo>): seq<Entry<BoneAssignment>>
    requires RemapCovers(bas, remap)
  {
    if bas == [] then []
    else
      var n := |bas| - 1;
      assert bas[n] in bas;
      assert forall e :: e in bas[..n] ==> e in bas;
      KeptRetargeted(bas[..n], remap)
        + (if remap[bas[n].value.vertexIndex].isOriginal then [Keyed(Retargeted(bas[n].value, remap))] else [])
  }

  /** Visiting one more assignment adds its re-targeted copy exactly when its vertex is original. */
  lemma KeptRetargetedSnoc(bas: MultiMap<BoneAssignment>, i: nat, remap: seq<IndexInfo>)
    requires i < |bas| && RemapCovers(bas, remap)
    ensures RemapCovers(bas[..i], remap) && RemapCovers(bas[..i + 1], remap)
    ensures bas[i].value.vertexIndex < |remap|
    ensures KeptRetargeted(bas[..i + 1], remap)
      == KeptRetargeted(bas[..i], remap)
         + (if remap[bas[i].value.vertexIndex].isOriginal then [Keyed(Retargeted(bas[i].value, remap))] else [])
  {
    assert forall e :: e in bas[..i + 1] ==> e in bas;
    assert forall e :: e in bas[..i] ==> e in bas;
    assert bas[i] in bas;
    assert bas[..i + 1][..i] == bas[..i];
  }

  /** The new multimap getAdjustedBoneAssignments returns. */
  function AdjustedAssignments(bas: MultiMap<BoneAssignment>, remap: seq<IndexInfo>): MultiMap<BoneAssignment>
    requires RemapCovers(bas, remap)
  {
    InsertAll([], KeptRetargeted(bas, remap))
  }

  lemma {:induction false} KeptRetargetedMembers(bas: MultiMap<BoneAssignment>, remap: seq<IndexInfo>)
    requires RemapCovers(bas, remap)
    ensures forall x :: x in KeptRetargeted(bas, remap) <==>
      exists i :: 0 <= i < |bas| && remap[bas[i].value.vertexIndex].isOriginal
                  && x == Keyed(Retargeted(bas[i].value, remap))
  {
    if bas != [] {
      var n := |bas| - 1;
      assert forall e :: e in bas[..n] ==> e in bas;
      KeptRetargetedMembers(bas[..n], remap);
      var prev := KeptRetargeted(bas[..n], remap);
      var last := if remap[bas[n].value.vertexIndex].isOriginal then [Keyed(Retargeted(bas[n].value, remap))] else [];
      assert KeptRetargeted(bas, remap) == prev + last;
      forall x ensures x in prev + last <==>
        exists i :: 0 <= i < |bas| && remap[bas[i].value.vertexIndex].isOriginal
                    && x == Keyed(Retargeted(bas[i].value, remap))
      {
        if x in prev {
          var i :| 0 <= i < n && remap[bas[..n][i].value.vertexIndex].isOriginal
                   && x == Keyed(Retargeted(bas[..n][i].value, remap));
          assert bas[..n][i] == bas[i];
        } else if x in last {
          assert remap[bas[n].value.vertexIndex].isOriginal && x == Keyed(Retargeted(bas[n].value, remap));
        }
        if exists i :: 0 <= i < |bas| && remap[bas[i].value.vertexIndex].isOriginal
                       && x == Keyed(Retargeted(bas[i].value, remap)) {
          var i :| 0 <= i < |bas| && remap[bas[i].value.vertexIndex].isOriginal
                   && x == Keyed(Retargeted(bas[i].value, remap));
          if i < n {
            assert bas[..n][i] == bas[i];
            assert x in prev;
          } else {
            assert i == n && last == [x];
          }
        }
      }
    }
  }

  /**
   * Exactly the assignments of original vertices survive, each filed under
   * and pointing at its vertex's compacted index, with bone and weight
   * unchanged; the result is a well-formed multimap that keeps, per vertex,
   * the input order.
   */
  lemma AdjustedKeepsExactlyOriginals(bas: MultiMap<BoneAssignment>, remap: seq<IndexInfo>)
    requires RemapCovers(bas, remap)
    ensures var r := AdjustedAssignments(bas, remap);
      && SortedByKey(r)
      && multiset(r) == multiset(KeptRetargeted(bas, remap))
      && (forall k :: WithKey(r, k) == WithKey(KeptRetargeted(bas, remap), k))
      && (forall x :: x in r <==>
            exists i :: 0 <= i < |bas| && remap[bas[i].value.vertexIndex].isOriginal
                        && x == Entry(remap[bas[i].value.vertexIndex].targetIndex,
                                      BoneAssignment(remap[bas[i].value.vertexIndex].targetIndex,
                                                     bas[i].value.boneIndex, bas[i].value.weight)))
  {
    InsertAllIsStableSort(KeptRetargeted(bas, remap));
    KeptRetargetedMembers(bas, remap);
    var r := AdjustedAssignments(bas, remap);
    forall x ensures x in r <==> x in KeptRetargeted(bas, remap) {
      assert x in multiset(r) <==> x in multiset(KeptRetargeted(bas, remap));
    }
  }

  /** Targets below `bound` give assignments below `bound` (the assertion in the loop). */
  lemma AdjustedWithinRange(bas: MultiMap<BoneAssignment>, remap: seq<IndexInfo>, bound: nat)
    requires RemapCovers(bas, remap)
    requires forall i :: 0 <= i < |remap| ==> remap[i].targetIndex < bound
    ensures forall x :: x in AdjustedAssignments(bas, remap) ==> x.key == x.value.vertexIndex < bound
  {
    AdjustedKeepsExactlyOriginals(bas, remap);
  }

  /** Originals keep their relative order in the compacted buffer. */
  ghost predicate OriginalsMonotone(remap: seq<IndexInfo>) {
    forall i, j :: 0 <= i < j < |remap| && remap[i].isOriginal && remap[j].isOriginal ==>
      remap[i].targetIndex < remap[j].targetIndex
  }

  lemma {:induction false} KeptKeysBounded(bas: MultiMap<BoneAssignment>, remap: seq<IndexInfo>, v: nat)
    requires RemapCovers(bas, remap)
    requires OriginalsMonotone(remap)
    requires v < |remap| && remap[v].isOriginal
    requires forall e :: e in bas ==> e.value.vertexIndex <= v
    ensures forall x :: x in KeptRetargeted(bas, remap) ==> x.key <= remap[v].targetIndex
  {
    if bas != [] {
      var n := |bas| - 1;
      assert forall e :: e in bas[..n] ==> e in bas;
      assert bas[n] in bas;
      KeptKeysBounded(bas[..n], remap, v);
    }
  }

  lemma {:induction false} KeptRetargetedSorted(bas: MultiMap<BoneAssignment>, remap: seq<IndexInfo>)
    requires RemapCovers(bas, remap)
    requires OriginalsMonotone(remap)
    requires SortedByKey(bas) && forall e :: e in bas ==> e.key == e.value.vertexIndex
    ensures SortedByKey(KeptRetargeted(bas, remap))
  {
    if bas != [] {
      var n := |bas| - 1;
      assert forall e :: e in bas[..n] ==> e in bas;
      KeptRetargetedSorted(bas[..n], remap);
      var prev := KeptRetargeted(bas[..n], remap);
      assert bas[n] in bas;
      var v := bas[n].value.vertexIndex;
      if remap[v].isOriginal {
        forall e | e in bas[..n] ensures e.value.vertexIndex <= v {
          var i :| 0 <= i < n && bas[..n][i] == e;
          assert bas[i] in bas;
        }
        KeptKeysBounded(bas[..n], remap, v);
        var r := KeptRetargeted(bas, remap);
        forall p, q | 0 <= p < q < |r| ensures r[p].key <= r[q].key {
          if q == |r| - 1 {
            assert r[p] in prev;
          } else {
            assert r[p] == prev[p] && r[q] == prev[q];
          }
        }
      }
    }
  }

  /**
   * A list read from a well-formed multimap, remapped by a table whose
   * originals keep their order, is already in key order: the multimap
   * returns the surviving assignments in the order they were read.
   */
  lemma AdjustedOfSortedInputKeepsOrder(bas: MultiMap<BoneAssignment>, remap: seq<IndexInfo>)
    requires RemapCovers(bas, remap)
    requires OriginalsMonotone(remap)
    requires SortedByKey(bas) && forall e :: e in bas ==> e.key == e.value.vertexIndex
    ensures AdjustedAssignments(bas, remap) == KeptRetargeted(bas, remap)
  {
    KeptRetargetedSorted(bas, remap);
    InsertAllSortedIsIdentity(KeptRetargeted(bas, remap));
  }

  /**
   * A remap whose targets never exceed their source moves no assignment
   * upwards: whatever bound held before still holds.
   */
  lemma AdjustedStaysBelow(bas: MultiMap<BoneAssignment>, remap: seq<IndexInfo>, n: nat)
    requires RemapCovers(bas, remap)
    requires forall i :: 0 <= i < |remap| ==> remap[i].targetIndex <= i
    requires BonesBelow(bas, n)
    ensures BonesBelow(AdjustedAssignments(bas, remap), n)
  {
    AdjustedKeepsExactlyOriginals(bas, remap);
    forall x | x in AdjustedAssignments(bas, remap) ensures x.value.vertexIndex < n {
      var i :| 0 <= i < |bas| && remap[bas[i].value.vertexIndex].isOriginal
               && x == Entry(remap[bas[i].value.vertexIndex].targetIndex,
                             BoneAssignment(remap[bas[i].value.vertexIndex].targetIndex,
                                            bas[i].value.boneIndex, bas[i].value.weight));
      assert bas[i] in bas;
    }
  }

  /** The new list is keyed by each assignment's own (new) vertex index, in key order. */
  lemma AdjustedIsKeyed(bas: MultiMap<BoneAssignment>, remap: seq<IndexInfo>)
    requires RemapCovers(bas, remap)
    ensures SortedByKey(AdjustedAssignments(bas, remap))
    ensures forall x :: x in AdjustedAssignments(bas, remap) ==> x.key == x.value.vertexIndex
  {
    AdjustedKeepsExactlyOriginals(bas, remap);
    forall x | x in AdjustedAssignments(bas, remap) ensures x.key == x.value.vertexIndex {
      var i :| 0 <= i < |bas| && remap[bas[i].value.vertexIndex].isOriginal
               && x == Entry(remap[bas[i].value.vertexIndex].targetIndex,
                             BoneAssignment(remap[bas[i].value.vertexIndex].targetIndex,
                                            bas[i].value.boneIndex, bas[i].value.weight));
    }
  }
}
