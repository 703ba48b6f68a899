/**
  Bounding boxes: the scan of a mesh's vertices and the merge of transformed
  mesh boxes over the node tree. Both update the minimum corner first and
  then compare the candidate maximum against the freshly updated MINIMUM
  corner, not against the maximum; this is modelled as written, next to a
  corrected merge that compares against the maximum.
 */
module Bounds {
  import opened Geometry
  import opened SceneGraph

  /** An axis-aligned box by its minimum and maximum corners (bb[0], bb[1]). */
  datatype Box = Box(lo: Vec3, hi: Vec3)

  /** One axis of a box. */
  datatype Range = Range(lo: real, hi: real)

  function AxisOf(b: Box, a: Axis): Range
  {
    Range(Coord(b.lo, a), Coord(b.hi, a))
  }

  // ---------------------------------------------------------------------
  // One merge step, per axis

  /** The update as written: the minimum first, then the maximum compared against the new minimum. */
  function MergeAxis(r: Range, lo: real, hi: real): Range
  {
    var newLo := if lo < r.lo then lo else r.lo;
    Range(newLo, if hi > newLo then hi else r.hi)
  }

  /** The update with the maximum compared against the maximum. */
  function MergeAxisFixed(r: Range, lo: real, hi: real): Range
  {
    Range(if lo < r.lo then lo else r.lo, if hi > r.hi then hi else r.hi)
  }

  function Merge(acc: Box, b: Box): (r: Box)
    ensures forall a :: AxisOf(r, a) == MergeAxis(AxisOf(acc, a), Coord(b.lo, a), Coord(b.hi, a))
  {
    var x := MergeAxis(AxisOf(acc, X), b.lo.x, b.hi.x);
    var y := MergeAxis(AxisOf(acc, Y), b.lo.y, b.hi.y);
    var z := MergeAxis(AxisOf(acc, Z), b.lo.z, b.hi.z);
    Box(Vec3(x.lo, y.lo, z.lo), Vec3(x.hi, y.hi, z.hi))
  }

  function MergeFixed(acc: Box, b: Box): (r: Box)
    ensures forall a :: AxisOf(r, a) == MergeAxisFixed(AxisOf(acc, a), Coord(b.lo, a), Coord(b.hi, a))
  {
    var x := MergeAxisFixed(AxisOf(acc, X), b.lo.x, b.hi.x);
    var y := MergeAxisFixed(AxisOf(acc, Y), b.lo.y, b.hi.y);
    var z := MergeAxisFixed(AxisOf(acc, Z), b.lo.z, b.hi.z);
    Box(Vec3(x.lo, y.lo, z.lo), Vec3(x.hi, y.hi, z.hi))
  }

  // ---------------------------------------------------------------------
  // Folds

  /** The box after merging bs in order, as written. */
  function MergeAll(acc: Box, bs: seq<Box>): Box
    decreases |bs|
  {
    if bs == [] then acc else Merge(MergeAll(acc, bs[..|bs| - 1]), bs[|bs| - 1])
  }

  /** The box after merging bs in order, corrected. */
  function MergeAllFixed(acc: Box, bs: seq<Box>): Box
    decreases |bs|
  {
    if bs == [] then acc else MergeFixed(MergeAllFixed(acc, bs[..|bs| - 1]), bs[|bs| - 1])
  }

  /** Merging a + b is merging a, then b. */
  lemma {:induction false} MergeAllAppend(acc: Box, a: seq<Box>, b: seq<Box>)
    decreases |b|
    ensures MergeAll(acc, a + b) == MergeAll(MergeAll(acc, a), b)
  {
    if b == [] {
      assert a + b == a;
    } else {
      MergeAllAppend(acc, a, b[..|b| - 1]);
      assert (a + b)[..|a + b| - 1] == a + b[..|b| - 1];
      assert (a + b)[|a + b| - 1] == b[|b| - 1];
    }
  }

  /** The degenerate box of a single point. */
  function PointBox(v: Vec3): Box
  {
    Box(v, v)
  }

  function PointBoxes(vs: seq<Vec3>): (r: seq<Box>)
    ensures |r| == |vs| && forall k | 0 <= k < |vs| :: r[k] == PointBox(vs[k])
  {
    seq(|vs|, k requires 0 <= k < |vs| => PointBox(vs[k]))
  }

  /** A mesh's box: both corners start at the first vertex, then every vertex is merged in. */
  function MeshBox(vs: seq<Vec3>): Box
    requires |vs| > 0
  {
    MergeAll(PointBox(vs[0]), PointBoxes(vs))
  }

  function MeshBoxFixed(vs: seq<Vec3>): Box
    requires |vs| > 0
  {
    MergeAllFixed(PointBox(vs[0]), PointBoxes(vs))
  }

  /** The midpoint of the two corners. */
  function Centre(b: Box): Vec3
  {
    Vec3(0.5 * (b.lo.x + b.hi.x), 0.5 * (b.lo.y + b.hi.y), 0.5 * (b.lo.z + b.hi.z))
  }

  // ---------------------------------------------------------------------
  // What the folds compute, per axis

  /**
    Both merges make the minimum corner the least of the starting minimum
    and every merged box's minimum, attained by one of them.
   */
  lemma {:induction false} MergeAllLo(acc: Box, bs: seq<Box>, a: Axis)
    decreases |bs|
    ensures var lo := Coord(MergeAll(acc, bs).lo, a);
      && lo <= Coord(acc.lo, a)
      && (forall k | 0 <= k < |bs| :: lo <= Coord(bs[k].lo, a))
      && (lo == Coord(acc.lo, a) || exists k | 0 <= k < |bs| :: lo == Coord(bs[k].lo, a))
    ensures Coord(MergeAll(acc, bs).lo, a) == Coord(MergeAllFixed(acc, bs).lo, a)
  {
    if bs != [] {
      var init := bs[..|bs| - 1];
      MergeAllLo(acc, init, a);
      forall k | 0 <= k < |init| ensures init[k] == bs[k] { }
      var lo := Coord(MergeAll(acc, bs).lo, a);
      if lo != Coord(acc.lo, a) && lo != Coord(bs[|bs| - 1].lo, a) {
        var k :| 0 <= k < |init| && Coord(MergeAll(acc, init).lo, a) == Coord(init[k].lo, a);
        assert lo == Coord(bs[k].lo, a);
      }
    }
  }

  /**
    The corrected merge makes the maximum corner the greatest of the starting
    maximum and every merged box's maximum, attained by one of them.
   */
  lemma {:induction false} MergeAllFixedHi(acc: Box, bs: seq<Box>, a: Axis)
    decreases |bs|
    ensures var hi := Coord(MergeAllFixed(acc, bs).hi, a);
      && hi >= Coord(acc.hi, a)
      && (forall k | 0 <= k < |bs| :: hi >= Coord(bs[k].hi, a))
      && (hi == Coord(acc.hi, a) || exists k | 0 <= k < |bs| :: hi == Coord(bs[k].hi, a))
  {
    if bs != [] {
      var init := bs[..|bs| - 1];
      MergeAllFixedHi(acc, init, a);
      forall k | 0 <= k < |init| ensures init[k] == bs[k] { }
      var hi := Coord(MergeAllFixed(acc, bs).hi, a);
      if hi != Coord(acc.hi, a) && hi != Coord(bs[|bs| - 1].hi, a) {
        var k :| 0 <= k < |init| && Coord(MergeAllFixed(acc, init).hi, a) == Coord(init[k].hi, a);
        assert hi == Coord(bs[k].hi, a);
      }
    }
  }

  /**
    As written, the maximum corner still only ever takes a merged box's
    maximum or keeps its start value, and stays at or above the minimum
    corner once a merged box had hi >= lo on that axis or the start did.
   */
  lemma {:induction false} MergeAllHi(acc: Box, bs: seq<Box>, a: Axis)
    decreases |bs|
    ensures var r := MergeAll(acc, bs);
      && (Coord(r.hi, a) == Coord(acc.hi, a) || exists k | 0 <= k < |bs| :: Coord(r.hi, a) == Coord(bs[k].hi, a))
      && (Coord(acc.lo, a) <= Coord(acc.hi, a) && (forall k | 0 <= k < |bs| :: Coord(bs[k].lo, a) <= Coord(bs[k].hi, a))
          ==> Coord(r.lo, a) <= Coord(r.hi, a))
  {
    if bs != [] {
      var init := bs[..|bs| - 1];
      MergeAllHi(acc, init, a);
      forall k | 0 <= k < |init| ensures init[k] == bs[k] { }
      var hi := Coord(MergeAll(acc, bs).hi, a);
      if hi != Coord(acc.hi, a) && hi != Coord(bs[|bs| - 1].hi, a) {
        var k :| 0 <= k < |init| && Coord(MergeAll(acc, init).hi, a) == Coord(init[k].hi, a);
        assert hi == Coord(bs[k].hi, a);
      }
    }
  }

  /** A mesh box's minimum corner is the least vertex coordinate, on every axis. */
  lemma MeshBoxLo(vs: seq<Vec3>, a: Axis)
    requires |vs| > 0
    ensures forall k | 0 <= k < |vs| :: Coord(MeshBox(vs).lo, a) <= Coord(vs[k], a)
    ensures exists k | 0 <= k < |vs| :: Coord(MeshBox(vs).lo, a) == Coord(vs[k], a)
    ensures Coord(MeshBox(vs).lo, a) <= Coord(MeshBox(vs).hi, a)
  {
    var bs := PointBoxes(vs);
    MergeAllLo(PointBox(vs[0]), bs, a);
    MergeAllHi(PointBox(vs[0]), bs, a);
    assert forall k | 0 <= k < |vs| :: Coord(bs[k].lo, a) == Coord(vs[k], a);
  }

  /** The corrected mesh box's maximum corner is the greatest vertex coordinate, on every axis. */
  lemma MeshBoxFixedHi(vs: seq<Vec3>, a: Axis)
    requires |vs| > 0
    ensures forall k | 0 <= k < |vs| :: Coord(vs[k], a) <= Coord(MeshBoxFixed(vs).hi, a)
    ensures exists k | 0 <= k < |vs| :: Coord(MeshBoxFixed(vs).hi, a) == Coord(vs[k], a)
  {
    var bs := PointBoxes(vs);
    MergeAllFixedHi(PointBox(vs[0]), bs, a);
    assert forall k | 0 <= k < |vs| :: Coord(bs[k].hi, a) == Coord(vs[k], a);
  }

  /**
    As written, the mesh scan can miss the maximum: with x coordinates 0, 5,
    3 the maximum corner ends at 3, because 3 exceeds the minimum 0.
   */
  lemma MeshBoxMissesMaximum()
    ensures var vs := [Vec3(0.0, 0.0, 0.0), Vec3(5.0, 0.0, 0.0), Vec3(3.0, 0.0, 0.0)];
      MeshBox(vs).hi.x == 3.0 && MeshBoxFixed(vs).hi.x == 5.0
  {
    var vs := [Vec3(0.0, 0.0, 0.0), Vec3(5.0, 0.0, 0.0), Vec3(3.0, 0.0, 0.0)];
    var bs := PointBoxes(vs);
    var acc := PointBox(vs[0]);
    assert bs[..2][..1][..0] == [];
    assert MergeAll(acc, bs[..1]) == Merge(acc, bs[0]) by { assert bs[..2][..1] == bs[..1]; }
    assert MergeAll(acc, bs[..2]) == Merge(Merge(acc, bs[0]), bs[1]);
    assert MergeAll(acc, bs) == Merge(Merge(Merge(acc, bs[0]), bs[1]), bs[2]);
    assert MergeAllFixed(acc, bs[..1]) == MergeFixed(acc, bs[0]) by { assert bs[..2][..1] == bs[..1]; }
    assert MergeAllFixed(acc, bs[..2]) == MergeFixed(MergeFixed(acc, bs[0]), bs[1]);
    assert MergeAllFixed(acc, bs) == MergeFixed(MergeFixed(MergeFixed(acc, bs[0]), bs[1]), bs[2]);
  }

  // ---------------------------------------------------------------------
  // The walk over the node tree

  /**
    The boxes the tree walk merges, in order: for each node in pre-order,
    its meshes' boxes with both corners transformed by the product of the
    transformations from the root down to that node (after trafo).
   */
  function Visits(nodes: seq<SceneNode>, boxes: seq<Box>, i: nat, trafo: Matrix): seq<Box>
    requires WellFormedNodes(nodes) && MeshIdsBelow(nodes, |boxes|) && i < |nodes|
    decreases |nodes| - i, 1, 0
  {
    var t := Mul(trafo, nodes[i].transformation);
    NodeBoxes(boxes, nodes[i].meshes, t) + VisitsChildren(nodes, boxes, i, 0, t)
  }

  function VisitsChildren(nodes: seq<SceneNode>, boxes: seq<Box>, i: nat, k: nat, t: Matrix): seq<Box>
    requires WellFormedNodes(nodes) && MeshIdsBelow(nodes, |boxes|) && i < |nodes| && k <= |nodes[i].children|
    decreases |nodes| - i, 0, |nodes[i].children| - k
  {
    if k == |nodes[i].children| then []
    else Visits(nodes, boxes, nodes[i].children[k], t) + VisitsChildren(nodes, boxes, i, k + 1, t)
  }

  /** Every mesh id a node lists names one of n meshes. */
  predicate MeshIdsBelow(nodes: seq<SceneNode>, n: nat)
  {
    forall i, k | 0 <= i < |nodes| && 0 <= k < |nodes[i].meshes| :: nodes[i].meshes[k] < n
  }

  /** The boxes of the listed meshes, in order, with both corners transformed by t. */
  function NodeBoxes(boxes: seq<Box>, meshes: seq<nat>, t: Matrix): (r: seq<Box>)
    requires forall k | 0 <= k < |meshes| :: meshes[k] < |boxes|
    ensures |r| == |meshes|
    ensures forall k | 0 <= k < |meshes| ::
      r[k] == Box(TransformPoint(t, boxes[meshes[k]].lo), TransformPoint(t, boxes[meshes[k]].hi))
  {
    seq(|meshes|, k requires 0 <= k < |meshes| =>
      Box(TransformPoint(t, boxes[meshes[k]].lo), TransformPoint(t, boxes[meshes[k]].hi)))
  }

  /** The box getBB starts from: minimum corner at 1e10, maximum corner at -1e10 on every axis. */
  function EmptyBox(): Box
  {
    Box(Vec3(1e10, 1e10, 1e10), Vec3(-1e10, -1e10, -1e10))
  }

  /**
    As written, a model whose only mesh is flat along y (and lies below
    1e10) keeps the maximum corner's y at -1e10: the candidate maximum equals
    the new minimum and so never exceeds it.
   */
  lemma FlatMeshKeepsStartMaximum(lo: Vec3, hi: Vec3)
    requires -1e10 < lo.y == hi.y < 1e10
    ensures Merge(EmptyBox(), Box(lo, hi)).hi.y == -1e10
    ensures MergeFixed(EmptyBox(), Box(lo, hi)).hi.y == hi.y
  {
  }
}
