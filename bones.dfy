/**
  The bone registry (bone name to dense id, with the bind-pose offset and the
  name recorded per id) and the per-vertex bone slots a skinned mesh fills,
  as functions over values. The model's methods are proved against these.
 */
module Bones {
  import opened Geometry
  import opened SceneGraph

  /** Number of (bone id, weight) slots per vertex. */
  const MaxBonesPerVertex: nat := 4

  // ---------------------------------------------------------------------
  // Registry

  /** getBone(name, id): whether name is a bone, and the id (the given one when it is not). */
  function FindBone(bones: map<string, nat>, name: string, id: nat): (r: (bool, nat))
    ensures r.0 <==> name in bones
    ensures !r.0 ==> r.1 == id
    ensures r.0 ==> r.1 == bones[name]
  {
    if name in bones then (true, bones[name]) else (false, id)
  }

  /**
    A consistent registry: the map and the name list are inverse to each
    other, so ids are exactly 0 .. |names| - 1 and the map has one key per id.
   */
  predicate Registry(bones: map<string, nat>, names: seq<string>)
  {
    && |bones| == |names|
    && (forall id | 0 <= id < |names| :: names[id] in bones && bones[names[id]] == id)
    && (forall n | n in bones :: bones[n] < |names| && names[bones[n]] == n)
  }

  /** The id getOrAddBone hands out for name: the registered one, else the next free one. */
  function BoneId(bones: map<string, nat>, name: string): nat
  {
    if name in bones then bones[name] else |bones|
  }

  /** The registry after getOrAddBone has been called for each bone in turn. */
  function Registered(bones: map<string, nat>, bs: seq<ImportedBone>): map<string, nat>
    decreases |bs|
  {
    if bs == [] then bones
    else
      var r := Registered(bones, bs[..|bs| - 1]);
      var n := bs[|bs| - 1].name;
      if n in r then r else r[n := |r|]
  }

  /** The bones among bs that were new when met: these have their offset and name appended. */
  function Added(bones: map<string, nat>, bs: seq<ImportedBone>): seq<ImportedBone>
    decreases |bs|
  {
    if bs == [] then []
    else
      var init := bs[..|bs| - 1];
      Added(bones, init) + (if bs[|bs| - 1].name in Registered(bones, init) then [] else [bs[|bs| - 1]])
  }

  function Names(bs: seq<ImportedBone>): (r: seq<string>)
    ensures |r| == |bs| && forall i | 0 <= i < |bs| :: r[i] == bs[i].name
  {
    seq(|bs|, i requires 0 <= i < |bs| => bs[i].name)
  }

  function Offsets(bs: seq<ImportedBone>): (r: seq<Matrix>)
    ensures |r| == |bs| && forall i | 0 <= i < |bs| :: r[i] == bs[i].offset
  {
    seq(|bs|, i requires 0 <= i < |bs| => bs[i].offset)
  }

  /**
    Registering bones keeps the registry consistent when the new bones'
    names are appended: ids are handed out 0, 1, 2, ... in first-seen order.
   */
  lemma {:induction false} RegisteredConsistent(bones: map<string, nat>, names: seq<string>, bs: seq<ImportedBone>)
    requires Registry(bones, names)
    decreases |bs|
    ensures Registry(Registered(bones, bs), names + Names(Added(bones, bs)))
  {
    if bs != [] {
      var init := bs[..|bs| - 1];
      var b := bs[|bs| - 1];
      RegisteredConsistent(bones, names, init);
      var r := Registered(bones, init);
      var ns := names + Names(Added(bones, init));
      if b.name !in r {
        assert names + Names(Added(bones, bs)) == ns + [b.name] by {
          assert Added(bones, bs) == Added(bones, init) + [b];
        }
        RegistryAppend(r, ns, b.name);
      } else {
        assert Added(bones, bs) == Added(bones, init) + [];
        assert Added(bones, init) + [] == Added(bones, init);
        assert Registered(bones, bs) == r;
      }
    }
  }

  /** Adding an unknown name with the next id and appending it to the list keeps the registry consistent. */
  lemma RegistryAppend(bones: map<string, nat>, names: seq<string>, n: string)
    requires Registry(bones, names) && n !in bones
    ensures Registry(bones[n := |bones|], names + [n])
  {
    var b' := bones[n := |bones|];
    var ns := names + [n];
    forall id | 0 <= id < |ns| ensures ns[id] in b' && b'[ns[id]] == id {
      if id < |names| {
        assert ns[id] == names[id];
      }
    }
  }

  /** A registered name keeps its id: ids are never reassigned. */
  lemma {:induction false} RegisteredKeepsIds(bones: map<string, nat>, bs: seq<ImportedBone>, n: string)
    requires n in bones
    decreases |bs|
    ensures n in Registered(bones, bs) && Registered(bones, bs)[n] == bones[n]
  {
    if bs != [] {
      RegisteredKeepsIds(bones, bs[..|bs| - 1], n);
    }
  }

  /** After registration every bone met is a key. */
  lemma {:induction false} RegisteredHasAll(bones: map<string, nat>, bs: seq<ImportedBone>, k: nat)
    requires k < |bs|
    decreases |bs|
    ensures bs[k].name in Registered(bones, bs)
  {
    var init := bs[..|bs| - 1];
    if k < |bs| - 1 {
      assert init[k] == bs[k];
      RegisteredHasAll(bones, init, k);
      var r := Registered(bones, init);
      RegisteredKeepsIds(r, [bs[|bs| - 1]], bs[k].name);
      assert Registered(bones, bs) == Registered(r, [bs[|bs| - 1]]) by {
        assert [bs[|bs| - 1]][..0] == [];
      }
    }
  }

  /** Registering a + b is registering a, then b on the result. */
  lemma {:induction false} RegisteredAppend(bones: map<string, nat>, a: seq<ImportedBone>, b: seq<ImportedBone>)
    decreases |b|
    ensures Registered(bones, a + b) == Registered(Registered(bones, a), b)
  {
    if b == [] {
      assert a + b == a;
    } else {
      var init := b[..|b| - 1];
      RegisteredAppend(bones, a, init);
      assert (a + b)[..|a + b| - 1] == a + init;
      assert (a + b)[|a + b| - 1] == b[|b| - 1];
    }
  }

  /** The bones new in a + b are those new in a, then those of b new after a. */
  lemma {:induction false} AddedAppend(bones: map<string, nat>, a: seq<ImportedBone>, b: seq<ImportedBone>)
    decreases |b|
    ensures Added(bones, a + b) == Added(bones, a) + Added(Registered(bones, a), b)
  {
    if b == [] {
      assert a + b == a;
    } else {
      var init := b[..|b| - 1];
      AddedAppend(bones, a, init);
      RegisteredAppend(bones, a, init);
      assert (a + b)[..|a + b| - 1] == a + init;
      assert (a + b)[|a + b| - 1] == b[|b| - 1];
    }
  }

  lemma NamesAppend(a: seq<ImportedBone>, b: seq<ImportedBone>)
    ensures Names(a + b) == Names(a) + Names(b)
    ensures Offsets(a + b) == Offsets(a) + Offsets(b)
  {
  }

  // ---------------------------------------------------------------------
  // Per-vertex bone slots

  datatype VertexBones = VertexBones(ids: seq<nat>, weights: seq<real>)

  predicate SlotsShape(v: VertexBones)
  {
    |v.ids| == MaxBonesPerVertex && |v.weights| == MaxBonesPerVertex
  }

  predicate AllShaped(slots: seq<VertexBones>)
  {
    forall k | 0 <= k < |slots| :: SlotsShape(slots[k])
  }

  /** The cleared slots of one vertex: ids and weights all zero. */
  function ZeroSlots(): (v: VertexBones)
    ensures SlotsShape(v)
  {
    VertexBones([0, 0, 0, 0], [0.0, 0.0, 0.0, 0.0])
  }

  /** The first slot whose weight is zero, or the slot count when every weight is non-zero. */
  function FirstFreeSlot(weights: seq<real>): (i: nat)
    ensures i <= |weights|
    ensures i < |weights| ==> weights[i] == 0.0
    ensures forall j | 0 <= j < i :: weights[j] != 0.0
  {
    if weights == [] then 0
    else if weights[0] == 0.0 then 0
    else 1 + FirstFreeSlot(weights[1..])
  }

  /** One weight stored into a vertex's slots. */
  function PlaceWeight(v: VertexBones, id: nat, weight: real): (r: VertexBones)
    requires SlotsShape(v)
    ensures SlotsShape(r)
  {
    var i := FirstFreeSlot(v.weights);
    if i < MaxBonesPerVertex then VertexBones(v.ids[i := id], v.weights[i := weight]) else v
  }

  /**
    A weight goes into the first slot whose weight is zero, no other slot
    changes, and when every slot has a non-zero weight nothing is written.
   */
  lemma PlaceWeightSlot(v: VertexBones, id: nat, weight: real)
    requires SlotsShape(v)
    ensures (forall j | 0 <= j < MaxBonesPerVertex :: v.weights[j] != 0.0) ==> PlaceWeight(v, id, weight) == v
    ensures forall i | 0 <= i < MaxBonesPerVertex && v.weights[i] == 0.0 && (forall j | 0 <= j < i :: v.weights[j] != 0.0) ::
      PlaceWeight(v, id, weight) == VertexBones(v.ids[i := id], v.weights[i := weight])
  {
  }

  predicate VerticesInRange(n: nat, ws: seq<VertexWeight>)
  {
    forall k | 0 <= k < |ws| :: ws[k].vertex < n
  }

  /** The slots after the weights of one bone (with the given id) are stored in turn. */
  function PlaceWeights(slots: seq<VertexBones>, id: nat, ws: seq<VertexWeight>): (r: seq<VertexBones>)
    requires AllShaped(slots) && VerticesInRange(|slots|, ws)
    decreases |ws|
    ensures |r| == |slots| && AllShaped(r)
  {
    if ws == [] then slots
    else
      var s := PlaceWeights(slots, id, ws[..|ws| - 1]);
      var w := ws[|ws| - 1];
      s[w.vertex := PlaceWeight(s[w.vertex], id, w.weight)]
  }

  predicate BonesInRange(n: nat, bs: seq<ImportedBone>)
  {
    forall k | 0 <= k < |bs| :: VerticesInRange(n, bs[k].weights)
  }

  /** The slots after every bone of a mesh has stored its weights under the id the registry gives it. */
  function FillSlots(bones: map<string, nat>, slots: seq<VertexBones>, bs: seq<ImportedBone>): (r: seq<VertexBones>)
    requires AllShaped(slots) && BonesInRange(|slots|, bs)
    decreases |bs|
    ensures |r| == |slots| && AllShaped(r)
  {
    if bs == [] then slots
    else
      var init := bs[..|bs| - 1];
      var s := FillSlots(bones, slots, init);
      var b := bs[|bs| - 1];
      PlaceWeights(s, BoneId(Registered(bones, init), b.name), b.weights)
  }

  /** Filling for bs + [b] is filling for bs, then storing b's weights under the id b gets after bs. */
  lemma FillSlotsSnoc(bones: map<string, nat>, slots: seq<VertexBones>, bs: seq<ImportedBone>, b: ImportedBone)
    requires AllShaped(slots) && BonesInRange(|slots|, bs + [b])
    ensures BonesInRange(|slots|, bs) && VerticesInRange(|slots|, b.weights)
    ensures FillSlots(bones, slots, bs + [b])
         == PlaceWeights(FillSlots(bones, slots, bs), BoneId(Registered(bones, bs), b.name), b.weights)
  {
    assert (bs + [b])[..|bs|] == bs;
    assert (bs + [b])[|bs|] == b;
    forall k | 0 <= k < |bs| ensures VerticesInRange(|slots|, bs[k].weights) {
      assert (bs + [b])[k] == bs[k];
    }
  }

  /** A vertex that no weight names keeps its slots. */
  lemma {:induction false} PlaceWeightsOtherVertex(slots: seq<VertexBones>, id: nat, ws: seq<VertexWeight>, v: nat)
    requires AllShaped(slots) && VerticesInRange(|slots|, ws) && v < |slots|
    requires forall k | 0 <= k < |ws| :: ws[k].vertex != v
    decreases |ws|
    ensures PlaceWeights(slots, id, ws)[v] == slots[v]
  {
    if ws != [] {
      PlaceWeightsOtherVertex(slots, id, ws[..|ws| - 1], v);
    }
  }
}
