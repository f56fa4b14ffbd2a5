/**
 * The degenerate-triangle test and the filter removeDegenerateFaces applies
 * to a triangle list, as functions over an index sequence.
 */
module Triangles {
  import opened Vectors

  function Sub(a: Vec3, b: Vec3): Vec3 {
    Vec3(a.x - b.x, a.y - b.y, a.z - b.z)
  }

  function Cross(a: Vec3, b: Vec3): Vec3 {
    Vec3(a.y * b.z - a.z * b.y, a.z * b.x - a.x * b.z, a.x * b.y - a.y * b.x)
  }

  function SquaredLength(a: Vec3): (r: real)
    ensures r >= 0.0
  {
    a.x * a.x + a.y * a.y + a.z * a.z
  }

  /** Tolerance of the area test: half the cross product's length within 1e-4 of zero means no area. */
  const AreaTolerance: real := 0.0001

  /**
   * `!RealEqual(0, 0.5 * |cross|, 1e-4)` without the square root:
   * 0.5 * |c| > t exactly when |c|^2 > 4 t^2, for a non-negative length.
   */
  predicate HasArea(p0: Vec3, p1: Vec3, p2: Vec3) {
    SquaredLength(Cross(Sub(p1, p0), Sub(p2, p0))) > 4.0 * AreaTolerance * AreaTolerance
  }

  /** `l` is the length of `c`: the non-negative root of its squared length. */
  predicate IsLength(l: real, c: Vec3) {
    l >= 0.0 && l * l == SquaredLength(c)
  }

  /** Adding a positive amount to a non-negative real makes its square grow. */
  lemma SquareGrows(c: real, d: real)
    requires c >= 0.0 && d > 0.0
    ensures c * c < (c + d) * (c + d)
  {
    assert d * d > 0.0;
    assert c * d >= 0.0;
    assert (c + d) * (c + d) == c * c + 2.0 * (c * d) + d * d;
  }

  /** Between non-negative reals, order is the order of the squares. */
  lemma SquareMonotone(l: real, c: real)
    requires l >= 0.0 && c >= 0.0
    ensures l <= c <==> l * l <= c * c
  {
    if l < c {
      SquareGrows(l, c - l);
      assert l + (c - l) == c;
    } else if c < l {
      SquareGrows(c, l - c);
      assert c + (l - c) == l;
    }
  }

  /**
   * The square-root-free HasArea agrees with the test as written on the
   * length `l` of the cross product: half of `l` is not within the
   * tolerance of zero.
   */
  lemma HasAreaMatchesSource(p0: Vec3, p1: Vec3, p2: Vec3, l: real)
    requires IsLength(l, Cross(Sub(p1, p0), Sub(p2, p0)))
    ensures HasArea(p0, p1, p2) <==> !RealEqual(0.0, 0.5 * l, AreaTolerance)
  {
    SquareMonotone(l, 2.0 * AreaTolerance);
    assert (2.0 * AreaTolerance) * (2.0 * AreaTolerance) == 4.0 * AreaTolerance * AreaTolerance;
  }

  /** Three distinct indices, three pairwise distinct positions (under `tol`), and some area. */
  predicate ValidTriangle(i0: nat, i1: nat, i2: nat, p0: Vec3, p1: Vec3, p2: Vec3, tol: real) {
    && i0 != i1 && i1 != i2 && i0 != i2
    && !PositionEquals(p0, p1, tol) && !PositionEquals(p1, p2, tol) && !PositionEquals(p0, p2, tol)
    && HasArea(p0, p1, p2)
  }

  /** Every index of `idx` names a vertex with a position. */
  predicate IndicesWithin(idx: seq<nat>, positions: seq<Vec3>) {
    forall j :: 0 <= j < |idx| ==> idx[j] < |positions|
  }

  /** A triangle given by its three indices, looked up in `positions`. */
  predicate TriangleValid(tri: seq<nat>, positions: seq<Vec3>, tol: real)
    requires |tri| == 3 && IndicesWithin(tri, positions)
  {
    ValidTriangle(tri[0], tri[1], tri[2], positions[tri[0]], positions[tri[1]], positions[tri[2]], tol)
  }

  /** Every whole triangle of the list is valid. */
  predicate AllTrianglesValid(idx: seq<nat>, positions: seq<Vec3>, tol: real)
    requires IndicesWithin(idx, positions)
  {
    forall j :: 0 <= j && j + 3 <= |idx| && j % 3 == 0 ==> TriangleValid(idx[j..j + 3], positions, tol)
  }

  /** The triangles of `idx` that are not degenerate, in their original order. */
  function KeepValidTriangles(idx: seq<nat>, positions: seq<Vec3>, tol: real): seq<nat>
    requires |idx| % 3 == 0 && IndicesWithin(idx, positions)
  {
    if idx == [] then []
    else
      var n := |idx| - 3;
      KeepValidTriangles(idx[..n], positions, tol)
        + (if TriangleValid(idx[n..], positions, tol) then idx[n..] else [])
  }

  /** The filter keeps whole triangles, never more than it was given, and only indices it was given. */
  lemma {:induction false} KeepValidTrianglesSubset(idx: seq<nat>, positions: seq<Vec3>, tol: real)
    requires |idx| % 3 == 0 && IndicesWithin(idx, positions)
    ensures var r := KeepValidTriangles(idx, positions, tol);
      && |r| % 3 == 0 && |r| <= |idx| && IndicesWithin(r, positions)
      && (forall x :: x in r ==> x in idx)
  {
    if idx != [] {
      var n := |idx| - 3;
      KeepValidTrianglesSubset(idx[..n], positions, tol);
      var last := if TriangleValid(idx[n..], positions, tol) then idx[n..] else [];
      SublistStep(KeepValidTriangles(idx[..n], positions, tol), last, idx, n, positions);
    }
  }

  /**
   * One step of the filter: whole triangles taken from the first `n`
   * indices, followed by nothing or by the last triangle, are whole
   * triangles taken from all of them.
   */
  lemma SublistStep(prev: seq<nat>, last: seq<nat>, idx: seq<nat>, n: nat, positions: seq<Vec3>)
    requires n + 3 == |idx| && IndicesWithin(idx, positions)
    requires |prev| % 3 == 0 && |prev| <= n && forall x :: x in prev ==> x in idx[..n]
    requires last == [] || last == idx[n..]
    ensures var r := prev + last;
      && |r| % 3 == 0 && |r| <= |idx| && IndicesWithin(r, positions)
      && (forall x :: x in r ==> x in idx)
  {
    PrefixThenSuffixMembers(prev, last, idx, n);
    MembersWithin(prev + last, idx, positions);
  }

  /** Members of a prefix's sublist, followed by members of the suffix, are members of the whole. */
  lemma PrefixThenSuffixMembers(prev: seq<nat>, last: seq<nat>, idx: seq<nat>, n: nat)
    requires n <= |idx|
    requires forall x :: x in prev ==> x in idx[..n]
    requires last == [] || last == idx[n..]
    ensures forall x :: x in prev + last ==> x in idx
  {
    assert idx == idx[..n] + idx[n..];
  }

  /** Indices drawn from a list within range are within range. */
  lemma MembersWithin(r: seq<nat>, idx: seq<nat>, positions: seq<Vec3>)
    requires forall x :: x in r ==> x in idx
    requires IndicesWithin(idx, positions)
    ensures IndicesWithin(r, positions)
  {
    forall j | 0 <= j < |r| ensures r[j] < |positions| {
      assert r[j] in idx;
      var k :| 0 <= k < |idx| && idx[k] == r[j];
    }
  }

  /** Joining two lists of whole valid triangles gives a list of valid triangles. */
  lemma AllTrianglesValidAppend(a: seq<nat>, b: seq<nat>, positions: seq<Vec3>, tol: real)
    requires |a| % 3 == 0 && IndicesWithin(a, positions) && IndicesWithin(b, positions)
    requires AllTrianglesValid(a, positions, tol) && AllTrianglesValid(b, positions, tol)
    ensures IndicesWithin(a + b, positions) && AllTrianglesValid(a + b, positions, tol)
  {
    var r := a + b;
    forall j | 0 <= j && j + 3 <= |r| && j % 3 == 0 ensures TriangleValid(r[j..j + 3], positions, tol) {
      if j < |a| {
        assert j + 3 <= |a| by {
          assert j / 3 < |a| / 3;
        }
        assert r[j..j + 3] == a[j..j + 3];
      } else {
        var jb := j - |a|;
        assert jb % 3 == 0;
        assert TriangleValid(b[jb..jb + 3], positions, tol);
        assert r[j..j + 3] == b[jb..jb + 3];
      }
    }
  }

  /** Every triangle the filter keeps is valid. */
  lemma {:induction false} KeepValidTrianglesShape(idx: seq<nat>, positions: seq<Vec3>, tol: real)
    requires |idx| % 3 == 0 && IndicesWithin(idx, positions)
    ensures var r := KeepValidTriangles(idx, positions, tol);
      && |r| % 3 == 0 && |r| <= |idx| && IndicesWithin(r, positions)
      && AllTrianglesValid(r, positions, tol)
      && (forall x :: x in r ==> x in idx)
  {
    KeepValidTrianglesSubset(idx, positions, tol);
    if idx != [] {
      var n := |idx| - 3;
      KeepValidTrianglesShape(idx[..n], positions, tol);
      var tail := idx[n..];
      if TriangleValid(tail, positions, tol) {
        assert tail[0..3] == tail;
        AllTrianglesValidAppend(KeepValidTriangles(idx[..n], positions, tol), tail, positions, tol);
      } else {
        assert KeepValidTriangles(idx, positions, tol) == KeepValidTriangles(idx[..n], positions, tol);
      }
    }
  }

  /** The filter drops nothing exactly when every triangle is valid; then it returns its input. */
  lemma {:induction false} KeepValidTrianglesFull(idx: seq<nat>, positions: seq<Vec3>, tol: real)
    requires |idx| % 3 == 0 && IndicesWithin(idx, positions)
    requires |KeepValidTriangles(idx, positions, tol)| == |idx|
    ensures KeepValidTriangles(idx, positions, tol) == idx
    ensures AllTrianglesValid(idx, positions, tol)
  {
    if idx != [] {
      var n := |idx| - 3;
      KeepValidTrianglesSubset(idx[..n], positions, tol);
      if !TriangleValid(idx[n..], positions, tol) {
        assert false;
      }
      KeepValidTrianglesFull(idx[..n], positions, tol);
      assert idx[..n] + idx[n..] == idx;
    }
    KeepValidTrianglesShape(idx, positions, tol);
  }

  /** Filtering distributes over concatenation of whole triangle lists: it treats each triangle on its own. */
  lemma {:induction false} KeepValidTrianglesAppend(a: seq<nat>, b: seq<nat>, positions: seq<Vec3>, tol: real)
    requires |a| % 3 == 0 && |b| % 3 == 0
    requires IndicesWithin(a, positions) && IndicesWithin(b, positions)
    ensures IndicesWithin(a + b, positions)
    ensures KeepValidTriangles(a + b, positions, tol)
            == KeepValidTriangles(a, positions, tol) + KeepValidTriangles(b, positions, tol)
    decreases |b|
  {
    if b != [] {
      var n := |b| - 3;
      assert (a + b)[..|a| + n] == a + b[..n];
      assert (a + b)[|a| + n..] == b[n..];
      KeepValidTrianglesAppend(a, b[..n], positions, tol);
    } else {
      assert a + b == a;
    }
  }

  /** A list of valid triangles passes unchanged; hence the filter is idempotent. */
  lemma {:induction false} KeepValidTrianglesOfValid(idx: seq<nat>, positions: seq<Vec3>, tol: real)
    requires |idx| % 3 == 0 && IndicesWithin(idx, positions)
    requires AllTrianglesValid(idx, positions, tol)
    ensures KeepValidTriangles(idx, positions, tol) == idx
  {
    if idx != [] {
      var n := |idx| - 3;
      forall j | 0 <= j && j + 3 <= n && j % 3 == 0 ensures TriangleValid(idx[..n][j..j + 3], positions, tol) {
        assert idx[..n][j..j + 3] == idx[j..j + 3];
      }
      KeepValidTrianglesOfValid(idx[..n], positions, tol);
      assert TriangleValid(idx[n..n + 3], positions, tol);
      assert idx[n..n + 3] == idx[n..];
    }
  }

  lemma KeepValidTrianglesIdempotent(idx: seq<nat>, positions: seq<Vec3>, tol: real)
    requires |idx| % 3 == 0 && IndicesWithin(idx, positions)
    ensures |KeepValidTriangles(idx, positions, tol)| % 3 == 0
    ensures IndicesWithin(KeepValidTriangles(idx, positions, tol), positions)
    ensures KeepValidTriangles(KeepValidTriangles(idx, positions, tol), positions, tol)
            == KeepValidTriangles(idx, positions, tol)
  {
    KeepValidTrianglesShape(idx, positions, tol);
    KeepValidTrianglesOfValid(KeepValidTriangles(idx, positions, tol), positions, tol);
  }

  /** A triangle that repeats an index is always dropped. */
  lemma RepeatedIndexIsDegenerate(i: nat, j: nat, positions: seq<Vec3>, tol: real)
    requires i < |positions| && j < |positions|
    ensures KeepValidTriangles([i, i, j], positions, tol) == []
  {
    assert [i, i, j][..0] == [];
  }

  /** Reading one more triangle extends the filtered list by that triangle exactly when it is valid. */
  lemma KeepValidTrianglesSnoc(idx: seq<nat>, j: nat, positions: seq<Vec3>, tol: real)
    requires j % 3 == 0 && j + 3 <= |idx|
    requires IndicesWithin(idx, positions)
    ensures IndicesWithin(idx[..j], positions) && IndicesWithin(idx[..j + 3], positions)
    ensures KeepValidTriangles(idx[..j + 3], positions, tol)
      == KeepValidTriangles(idx[..j], positions, tol)
         + (if ValidTriangle(idx[j], idx[j + 1], idx[j + 2],
                             positions[idx[j]], positions[idx[j + 1]], positions[idx[j + 2]], tol)
            then [idx[j], idx[j + 1], idx[j + 2]] else [])
  {
    assert idx[..j + 3][..j] == idx[..j];
    assert idx[..j + 3][j..] == idx[j..j + 3] == [idx[j], idx[j + 1], idx[j + 2]];
  }
}
