/**
  Pose evaluation: the walk over the node tree that composes transforms from
  the root down and writes one skinning matrix (16 floats) per bone met into
  a flat buffer, and the time reduction done before the walk.
 */
module Pose {
  import opened Geometry
  import opened Keyframes
  import opened SceneGraph

  /** A loaded clip with its look-up table from node to (channel, bone). */
  datatype Animation = Animation(clip: Clip, lookUp: map<NodeRef, LookUpEntry>)

  /** What one walk reads: the nodes, the bone offsets, the global inverse root transform, the clip and the time. */
  datatype PoseInput = PoseInput(
    nodes: seq<SceneNode>,
    offsets: seq<Matrix>,
    globInv: Matrix,
    anim: Animation,
    time: real,
    rot: Rotations)

  predicate Ready(p: PoseInput)
  {
    WellFormedNodes(p.nodes) && ClipReadyAt(p.anim.clip, p.time)
  }

  /**
    The transform of node i under the parent transform t, as handed to its
    children: animated nodes compose t * T * R * S from the interpolated
    keys, nodes whose channel index is out of range use t * the node's own
    transformation, and nodes absent from the look-up table get the identity.
   */
  function NodeTransform(p: PoseInput, i: nat, t: Matrix): Matrix
    requires Ready(p) && i < |p.nodes|
  {
    if NodeIndex(i) !in p.anim.lookUp then Identity()
    else
      var c := p.anim.lookUp[NodeIndex(i)].channel;
      if c < |p.anim.clip.channels| then
        var ch := p.anim.clip.channels[c];
        assert ch in p.anim.clip.channels;
        Mul(Mul(Mul(t, Translation(InterpolateVector(ch.positionKeys, p.time))),
                RotationMatrix(InterpolateRotation(ch.rotationKeys, p.time, p.rot))),
            Scaling(InterpolateVector(ch.scalingKeys, p.time)))
      else Mul(t, p.nodes[i].transformation)
  }

  /** The bone node i writes, if any: its look-up bone id when that is below the bone count. */
  predicate IsBone(p: PoseInput, i: nat)
  {
    NodeIndex(i) in p.anim.lookUp && p.anim.lookUp[NodeIndex(i)].bone < |p.offsets|
  }

  /** The matrix stored for bone b: transpose(globInv * transform * offset_b). */
  function SkinningMatrix(p: PoseInput, transform: Matrix, b: nat): Matrix
    requires b < |p.offsets|
  {
    Transpose(Mul(Mul(p.globInv, transform), p.offsets[b]))
  }

  /** The buffer with the sixteen floats of slot b replaced by m. */
  function WriteSlot(buf: seq<real>, b: nat, m: Matrix): (r: seq<real>)
    requires 16 * b + 16 <= |buf|
    ensures |r| == |buf|
    ensures forall k | 0 <= k < |buf| :: r[k] == if 16 * b <= k < 16 * b + 16 then m[k - 16 * b] else buf[k]
  {
    buf[..16 * b] + m + buf[16 * b + 16..]
  }

  /** The buffer after the walk from node i with parent transform t. */
  function Walk(p: PoseInput, i: nat, t: Matrix, buf: seq<real>): (r: seq<real>)
    requires Ready(p) && i < |p.nodes| && |buf| == 16 * |p.offsets|
    decreases |p.nodes| - i, 1, 0
    ensures |r| == |buf|
  {
    var transform := NodeTransform(p, i, t);
    WalkChildren(p, i, 0, transform, Visit(p, i, transform, buf))
  }

  /** The buffer after node i, with the given transform, has stored its skinning matrix if it is a bone. */
  function Visit(p: PoseInput, i: nat, transform: Matrix, buf: seq<real>): (r: seq<real>)
    requires |buf| == 16 * |p.offsets|
    ensures |r| == |buf|
  {
    if IsBone(p, i) then
      var b := p.anim.lookUp[NodeIndex(i)].bone;
      WriteSlot(buf, b, SkinningMatrix(p, transform, b))
    else buf
  }

  /** The walk over the children of node i from the k-th on, each with parent transform t. */
  function WalkChildren(p: PoseInput, i: nat, k: nat, t: Matrix, buf: seq<real>): (r: seq<real>)
    requires Ready(p) && i < |p.nodes| && k <= |p.nodes[i].children| && |buf| == 16 * |p.offsets|
    decreases |p.nodes| - i, 0, |p.nodes[i].children| - k
    ensures |r| == |buf|
  {
    if k == |p.nodes[i].children| then buf
    else WalkChildren(p, i, k + 1, t, Walk(p, p.nodes[i].children[k], t, buf))
  }

  /** The bone ids written by the walk from node i. */
  function BonesMet(p: PoseInput, i: nat): (r: set<nat>)
    requires Ready(p) && i < |p.nodes|
    decreases |p.nodes| - i, 1, 0
    ensures forall b | b in r :: b < |p.offsets|
  {
    (if IsBone(p, i) then {p.anim.lookUp[NodeIndex(i)].bone} else {}) + BonesMetChildren(p, i, 0)
  }

  function BonesMetChildren(p: PoseInput, i: nat, k: nat): (r: set<nat>)
    requires Ready(p) && i < |p.nodes| && k <= |p.nodes[i].children|
    decreases |p.nodes| - i, 0, |p.nodes[i].children| - k
    ensures forall b | b in r :: b < |p.offsets|
  {
    if k == |p.nodes[i].children| then {}
    else BonesMet(p, p.nodes[i].children[k]) + BonesMetChildren(p, i, k + 1)
  }

  /** Buffer index k lies in none of the slots of the bones in s. */
  predicate OutsideSlots(k: int, s: set<nat>)
  {
    forall b | b in s :: !(16 * b <= k < 16 * b + 16)
  }

  /**
    The walk writes nothing outside the slots of the bones it meets, all of
    them below the bone count: every other entry, the slot a NotABone id
    would name included, keeps its prior content.
   */
  lemma {:induction false} WalkFrame(p: PoseInput, i: nat, t: Matrix, buf: seq<real>, k: nat)
    requires Ready(p) && i < |p.nodes| && |buf| == 16 * |p.offsets|
    requires k < |buf| && OutsideSlots(k, BonesMet(p, i))
    decreases |p.nodes| - i, 1, 0
    ensures Walk(p, i, t, buf)[k] == buf[k]
  {
    var transform := NodeTransform(p, i, t);
    WalkChildrenFrame(p, i, 0, transform, Visit(p, i, transform, buf), k);
  }

  lemma {:induction false} WalkChildrenFrame(p: PoseInput, i: nat, c: nat, t: Matrix, buf: seq<real>, k: nat)
    requires Ready(p) && i < |p.nodes| && c <= |p.nodes[i].children| && |buf| == 16 * |p.offsets|
    requires k < |buf| && OutsideSlots(k, BonesMetChildren(p, i, c))
    decreases |p.nodes| - i, 0, |p.nodes[i].children| - c
    ensures WalkChildren(p, i, c, t, buf)[k] == buf[k]
  {
    if c < |p.nodes[i].children| {
      var child := p.nodes[i].children[c];
      WalkFrame(p, child, t, buf, k);
      WalkChildrenFrame(p, i, c + 1, t, Walk(p, child, t, buf), k);
    }
  }

  /**
    A bone node whose bone no descendant writes again ends the walk with its
    own skinning matrix, transpose(globInv * transform * offset), in its slot.
   */
  lemma WalkWritesBone(p: PoseInput, i: nat, t: Matrix, buf: seq<real>, j: nat)
    requires Ready(p) && i < |p.nodes| && |buf| == 16 * |p.offsets|
    requires IsBone(p, i) && p.anim.lookUp[NodeIndex(i)].bone !in BonesMetChildren(p, i, 0)
    requires j < 16
    ensures var b := p.anim.lookUp[NodeIndex(i)].bone;
      Walk(p, i, t, buf)[16 * b + j] == SkinningMatrix(p, NodeTransform(p, i, t), b)[j]
  {
    VisitedBoneKept(p, i, NodeTransform(p, i, t), buf, j);
  }

  lemma VisitedBoneKept(p: PoseInput, i: nat, transform: Matrix, buf: seq<real>, j: nat)
    requires Ready(p) && i < |p.nodes| && |buf| == 16 * |p.offsets|
    requires IsBone(p, i) && p.anim.lookUp[NodeIndex(i)].bone !in BonesMetChildren(p, i, 0)
    requires j < 16
    ensures var b := p.anim.lookUp[NodeIndex(i)].bone;
      WalkChildren(p, i, 0, transform, Visit(p, i, transform, buf))[16 * b + j] == SkinningMatrix(p, transform, b)[j]
  {
    var b := p.anim.lookUp[NodeIndex(i)].bone;
    var k := 16 * b + j;
    assert OutsideSlots(k, BonesMetChildren(p, i, 0)) by {
      forall b' | b' in BonesMetChildren(p, i, 0) ensures !(16 * b' <= k < 16 * b' + 16) {
        if 16 * b' <= k < 16 * b' + 16 {
          SlotOwner(b, b', j);
        }
      }
    }
    WalkChildrenFrame(p, i, 0, transform, Visit(p, i, transform, buf), k);
  }

  /** Index 16 * b + j, j < 16, lies in slot b and in no other. */
  lemma SlotOwner(b: nat, b': nat, j: nat)
    requires j < 16 && 16 * b' <= 16 * b + j < 16 * b' + 16
    ensures b' == b
  {
  }

  /** A node missing from the look-up table passes the identity to its children, whatever t is. */
  lemma UnlookedNodeIgnoresParent(p: PoseInput, i: nat, t1: Matrix, t2: Matrix, buf: seq<real>)
    requires Ready(p) && i < |p.nodes| && |buf| == 16 * |p.offsets|
    requires NodeIndex(i) !in p.anim.lookUp
    ensures Walk(p, i, t1, buf) == Walk(p, i, t2, buf) == WalkChildren(p, i, 0, Identity(), buf)
  {
  }

  /** A node whose channel index is out of range (NotAnimated included) uses its own transformation after t. */
  lemma ChannelFallback(p: PoseInput, i: nat, t: Matrix)
    requires Ready(p) && i < |p.nodes| && NodeIndex(i) in p.anim.lookUp
    requires p.anim.lookUp[NodeIndex(i)].channel >= |p.anim.clip.channels|
    ensures NodeTransform(p, i, t) == Mul(t, p.nodes[i].transformation)
  {
  }

  // ---------------------------------------------------------------------
  // Before the walk: buffer sizing and time reduction

  /** std::vector resize: truncate, or extend with zeros. */
  function Resize(s: seq<real>, n: nat): (r: seq<real>)
    ensures |r| == n
    ensures forall k | 0 <= k < n :: r[k] == if k < |s| then s[k] else 0.0
  {
    if n <= |s| then s[..n] else s + seq(n - |s|, _ => 0.0)
  }

  /** n consecutive identity matrices. */
  function IdentitySlots(n: nat): (r: seq<real>)
    ensures |r| == 16 * n
    ensures forall k | 0 <= k < |r| :: r[k] == Identity()[k % 16]
  {
    if n == 0 then [] else IdentitySlots(n - 1) + Identity()
  }

  /** Truncation toward zero. */
  function Trunc(q: real): int
  {
    if q >= 0.0 then q.Floor else -((-q).Floor)
  }

  /** C's fmod: x minus the truncated quotient times y. */
  function FMod(x: real, y: real): real
    requires y != 0.0
  {
    x - (Trunc(x / y) as real) * y
  }

  /**
    fmod leaves a remainder smaller than |y| in magnitude, with the sign of
    x, and differs from x by a whole multiple of y.
   */
  lemma FModRange(x: real, y: real)
    requires y != 0.0
    ensures var r := FMod(x, y);
      && (x >= 0.0 ==> 0.0 <= r && r < Abs(y))
      && (x < 0.0 ==> -Abs(y) < r && r <= 0.0)
      && x - r == (Trunc(x / y) as real) * y
  {
    var q := x / y;
    var d := q - Trunc(q) as real;
    var r := FMod(x, y);
    RemainderIsFraction(x, y);
    TruncBounds(q);
    QuotientSign(x, y);
    if y > 0.0 {
      RemainderBounds(r, d, y);
    } else {
      Negate(d, y);
      RemainderBounds(r, -d, -y);
    }
  }

  /** The fmod remainder is the fractional part of the quotient times y. */
  lemma RemainderIsFraction(x: real, y: real)
    requires y != 0.0
    ensures FMod(x, y) == (x / y - Trunc(x / y) as real) * y
  {
    var q := x / y;
    var n := Trunc(q) as real;
    assert q * y == x;
    assert (q - n) * y == q * y - n * y;
  }

  /** Truncation drops less than one toward zero. */
  lemma TruncBounds(q: real)
    ensures q >= 0.0 ==> 0.0 <= q - Trunc(q) as real < 1.0
    ensures q < 0.0 ==> -1.0 < q - Trunc(q) as real <= 0.0
  {
  }

  lemma Negate(d: real, y: real)
    ensures d * y == -d * -y
  {
  }

  function Abs(y: real): real { if y < 0.0 then -y else y }

  /** x / y is non-negative exactly when x is zero or has the sign of y. */
  lemma QuotientSign(x: real, y: real)
    requires y != 0.0
    ensures x / y >= 0.0 <==> (x == 0.0 || (x > 0.0) == (y > 0.0))
  {
    var q := x / y;
    assert q * y == x;
    if q > 0.0 && y > 0.0 { assert q * y > 0.0; }
    if q > 0.0 && y < 0.0 { assert q * y < 0.0; }
    if q < 0.0 && y > 0.0 { assert q * y < 0.0; }
    if q < 0.0 && y < 0.0 { assert q * y > 0.0; }
  }

  lemma RemainderBounds(r: real, d: real, a: real)
    requires a > 0.0 && d > -1.0 && d < 1.0 && r == d * a
    ensures d >= 0.0 ==> 0.0 <= r < a
    ensures d <= 0.0 ==> -a < r <= 0.0
  {
    ProductBelow(d, a);
    ProductAbove(d, a);
    assert r < a && r > -a;
    if d >= 0.0 { ProductNonNegative(d, a); }
    if d <= 0.0 { ProductNonPositive(d, a); }
  }
  lemma ProductBelow(d: real, a: real)
    requires a > 0.0 && d < 1.0
    ensures d * a < a
  {
    assert (1.0 - d) * a > 0.0;
  }
  lemma ProductAbove(d: real, a: real)
    requires a > 0.0 && d > -1.0
    ensures d * a > -a
  {
    assert (1.0 + d) * a > 0.0;
  }
  lemma ProductNonNegative(d: real, a: real)
    requires a > 0.0 && d >= 0.0
    ensures d * a >= 0.0
  {
  }
  lemma ProductNonPositive(d: real, a: real)
    requires a > 0.0 && d <= 0.0
    ensures d * a <= 0.0
  {
  }

  /** Ticks per second of a clip, 25 when the file gives none. */
  function TicksPerSecond(c: Clip): real
  {
    if c.ticksPerSecond == 0.0 then 25.0 else c.ticksPerSecond
  }

  /** The clip-local time the walk is evaluated at. */
  function AnimTime(c: Clip, time: real): real
    requires c.duration != 0.0
  {
    FMod(time * TicksPerSecond(c), c.duration)
  }

  /**
    The clip-local time lies in [0, duration) for a non-negative time and a
    positive duration.
   */
  lemma AnimTimeInClip(c: Clip, time: real)
    requires c.duration > 0.0 && time >= 0.0 && c.ticksPerSecond >= 0.0
    ensures 0.0 <= AnimTime(c, time) < c.duration
  {
    var x := time * TicksPerSecond(c);
    ProductNonNegative(time, TicksPerSecond(c));
    FModRange(x, c.duration);
    assert AnimTime(c, time) == FMod(x, c.duration);
  }
}
