/**
 * Vertex bone assignments and the multimap that stores them
 * (`VertexBoneAssignmentList`, a std::multimap keyed by vertex index).
 * A multimap is a sequence of entries sorted by key; inserting places the
 * new entry after every entry with an equal or smaller key (upper bound),
 * which is where std::multimap::insert puts it.
 */
module BoneAssignments {
  datatype BoneAssignment = BoneAssignment(vertexIndex: nat, boneIndex: nat, weight: real)

  datatype Entry<V> = Entry(key: nat, value: V)

  type MultiMap<V> = seq<Entry<V>>

  predicate SortedByKey<V>(m: MultiMap<V>) {
    forall i, j :: 0 <= i < j < |m| ==> m[i].key <= m[j].key
  }

  /** std::multimap::insert: after all entries whose key is not greater. */
  function Insert<V>(m: MultiMap<V>, e: Entry<V>): (r: MultiMap<V>)
    ensures |r| == |m| + 1
    ensures multiset(r) == multiset(m) + multiset{e}
  {
    if m == [] then [e]
    else if e.key < m[0].key then [e] + m
    else
      assert m == [m[0]] + m[1..];
      [m[0]] + Insert(m[1..], e)
  }

  /** The entries filed under key `k`, in stored order. */
  function WithKey<V>(m: MultiMap<V>, k: nat): (r: MultiMap<V>)
    ensures forall e :: e in r ==> e in m && e.key == k
  {
    if m == [] then []
    else (if m[0].key == k then [m[0]] else []) + WithKey(m[1..], k)
  }

  /** A lower bound on every key survives insertion of an entry that respects it. */
  lemma {:induction false} InsertKeepsLowerBound<V>(m: MultiMap<V>, e: Entry<V>, lo: nat)
    requires forall i :: 0 <= i < |m| ==> lo <= m[i].key
    requires lo <= e.key
    ensures forall i :: 0 <= i < |Insert(m, e)| ==> lo <= Insert(m, e)[i].key
  {
    if m != [] && e.key >= m[0].key {
      InsertKeepsLowerBound(m[1..], e, lo);
      assert Insert(m, e) == [m[0]] + Insert(m[1..], e);
    }
  }

  lemma {:induction false} InsertKeepsSorted<V>(m: MultiMap<V>, e: Entry<V>)
    requires SortedByKey(m)
    ensures SortedByKey(Insert(m, e))
  {
    if m != [] && e.key >= m[0].key {
      InsertKeepsSorted(m[1..], e);
      InsertKeepsLowerBound(m[1..], e, m[0].key);
      var t := Insert(m[1..], e);
      var r := Insert(m, e);
      assert r == [m[0]] + t;
      forall i, j | 0 <= i < j < |r| ensures r[i].key <= r[j].key {
        if i == 0 {
          assert r[j] == t[j - 1];
        } else {
          assert r[i] == t[i - 1] && r[j] == t[j - 1];
        }
      }
    }
  }

  /**
   * Insertion is stable: under the new entry's key it lands after the
   * entries already there, and every other key's entries are untouched.
   */
  lemma {:induction false} InsertIsStable<V>(m: MultiMap<V>, e: Entry<V>, k: nat)
    requires SortedByKey(m)
    ensures WithKey(Insert(m, e), k) == WithKey(m, k) + (if e.key == k then [e] else [])
  {
    if m == [] {
    } else if e.key < m[0].key {
      if e.key == k {
        WithKeyAboveIsEmpty(m, k);
      }
    } else {
      InsertIsStable(m[1..], e, k);
      assert Insert(m, e)[1..] == Insert(m[1..], e);
    }
  }

  lemma {:induction false} WithKeyAboveIsEmpty<V>(m: MultiMap<V>, k: nat)
    requires SortedByKey(m)
    requires m != [] && k < m[0].key
    ensures WithKey(m, k) == []
  {
    if |m| > 1 {
      WithKeyAboveIsEmpty(m[1..], k);
    }
  }

  /** Inserting a key no smaller than any stored key appends. */
  lemma {:induction false} InsertAfterAll<V>(m: MultiMap<V>, e: Entry<V>)
    requires forall x :: x in m ==> x.key <= e.key
    ensures Insert(m, e) == m + [e]
  {
    if m != [] {
      assert m[0] in m;
      InsertAfterAll(m[1..], e);
    }
  }

  /** A multimap filled by inserting `items` one after another into `m`. */
  function InsertAll<V>(m: MultiMap<V>, items: seq<Entry<V>>): MultiMap<V>
  {
    if items == [] then m
    else Insert(InsertAll(m, items[..|items| - 1]), items[|items| - 1])
  }

  /**
   * Filling an empty multimap is a stable sort by key: the result is sorted,
   * holds the same entries, and each key's entries keep their input order.
   */
  lemma {:induction false} InsertAllIsStableSort<V>(items: seq<Entry<V>>)
    ensures SortedByKey(InsertAll([], items))
    ensures multiset(InsertAll([], items)) == multiset(items)
    ensures forall k :: WithKey(InsertAll([], items), k) == WithKey(items, k)
  {
    if items != [] {
      var n := |items| - 1;
      InsertAllIsStableSort(items[..n]);
      var prev := InsertAll([], items[..n]);
      var all := InsertAll([], items);
      assert all == Insert(prev, items[n]);
      InsertKeepsSorted(prev, items[n]);
      assert items == items[..n] + [items[n]];
      assert multiset(all) == multiset(prev) + multiset{items[n]};
      forall k ensures WithKey(all, k) == WithKey(items, k) {
        InsertIsStable(prev, items[n], k);
        WithKeyAppend(items[..n], items[n], k);
      }
    }
  }

  lemma {:induction false} WithKeyAppend<V>(m: MultiMap<V>, e: Entry<V>, k: nat)
    ensures WithKey(m + [e], k) == WithKey(m, k) + (if e.key == k then [e] else [])
  {
    if m != [] {
      assert (m + [e])[1..] == m[1..] + [e];
      WithKeyAppend(m[1..], e, k);
    }
  }

  /** Items already in key order come out in the order they went in. */
  lemma {:induction false} InsertAllSortedIsIdentity<V>(items: seq<Entry<V>>)
    requires SortedByKey(items)
    ensures InsertAll([], items) == items
  {
    if items != [] {
      var n := |items| - 1;
      InsertAllSortedIsIdentity(items[..n]);
      InsertAfterAll(items[..n], items[n]);
      assert items == items[..n] + [items[n]];
    }
  }

  /** How Mesh/SubMesh::addBoneAssignment files an assignment: under its own vertex index. */
  function Keyed(a: BoneAssignment): Entry<BoneAssignment> {
    Entry(a.vertexIndex, a)
  }

  function KeyedAll(l: seq<BoneAssignment>): (r: MultiMap<BoneAssignment>)
    ensures |r| == |l| && forall i :: 0 <= i < |l| ==> r[i] == Keyed(l[i])
  {
    seq(|l|, i requires 0 <= i < |l| => Keyed(l[i]))
  }

  function Values<V>(m: MultiMap<V>): (r: seq<V>)
    ensures |r| == |m| && forall i :: 0 <= i < |m| ==> r[i] == m[i].value
  {
    seq(|m|, i requires 0 <= i < |m| => m[i].value)
  }

  /**
   * `clearBoneAssignments` followed by `addBoneAssignment` for each value of
   * a list that is already keyed by vertex index gives back that list.
   */
  lemma ReAddingKeyedListIsIdentity(m: MultiMap<BoneAssignment>)
    requires SortedByKey(m)
    requires forall e :: e in m ==> e.key == e.value.vertexIndex
    ensures InsertAll([], KeyedAll(Values(m))) == m
  {
    assert KeyedAll(Values(m)) == m;
    InsertAllSortedIsIdentity(m);
  }

  /** Filling with one more item inserts that item into what the others gave. */
  lemma InsertAllSnoc<V>(m: MultiMap<V>, items: seq<Entry<V>>, e: Entry<V>)
    ensures InsertAll(m, items + [e]) == Insert(InsertAll(m, items), e)
  {
    assert (items + [e])[..|items|] == items;
  }
}
