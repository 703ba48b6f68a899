/**
  The model object: the imported scene and the meshes made from it, the bone
  registry shared by all meshes, the loaded animations with their look-up
  tables, the model's name and the mask of buffers whose data is kept on the
  CPU side. Its methods update these fields in place.
 */
module Models {
  import opened Geometry
  import opened Keyframes
  import opened SceneGraph
  import opened Bones
  import opened Pose
  import opened Bounds
  import opened Naming
  import opened BufferMask

  datatype Option<T> = None | Some(value: T)

  /** What the model keeps of a created mesh: its box, its centre and the bone slots sent with it. */
  datatype MeshData = MeshData(box: Box, centre: Vec3, boneSlots: seq<VertexBones>)

  /** A mesh create() accepts: at least one vertex, and every weight naming one of its vertices. */
  predicate MeshReady(m: ImportedMesh)
  {
    |m.vertices| > 0 && BonesInRange(|m.vertices|, m.bones)
  }

  /**
    An imported scene as the import library hands it over: a node tree, mesh
    ids in range and meshes create() accepts. Its clips are not read until a
    pose is evaluated, so they are unconstrained here.
   */
  predicate SceneReady(s: Scene)
  {
    && WellFormedNodes(s.nodes)
    && MeshIdsBelow(s.nodes, |s.meshes|)
    && (forall k | 0 <= k < |s.meshes| :: MeshReady(s.meshes[k]))
  }

  /** n vertices' cleared bone slots. */
  function ZeroSlotsFor(n: nat): (r: seq<VertexBones>)
    ensures |r| == n && AllShaped(r)
  {
    seq(n, _ => ZeroSlots())
  }

  /** The data create() makes of mesh m when the registry is bones before it. */
  function MeshDataOf(bones: map<string, nat>, m: ImportedMesh, boneAttributes: bool): MeshData
    requires MeshReady(m)
  {
    var box := MeshBox(m.vertices);
    MeshData(box, Centre(box), if boneAttributes then FillSlots(bones, ZeroSlotsFor(|m.vertices|), m.bones) else [])
  }

  /** The bones of the meshes, mesh after mesh. */
  function BonesOf(ms: seq<ImportedMesh>): seq<ImportedBone>
    decreases |ms|
  {
    if ms == [] then [] else BonesOf(ms[..|ms| - 1]) + ms[|ms| - 1].bones
  }

  /** The registry after creating the meshes: their bones are registered only with bone attributes. */
  function RegistryAfter(bones: map<string, nat>, ms: seq<ImportedMesh>, boneAttributes: bool): map<string, nat>
  {
    if boneAttributes then Registered(bones, BonesOf(ms)) else bones
  }

  /** The meshes create() makes of a scene's meshes, each seeing the registry the earlier ones left. */
  function CreatedMeshes(bones: map<string, nat>, ms: seq<ImportedMesh>, boneAttributes: bool): (r: seq<MeshData>)
    requires forall k | 0 <= k < |ms| :: MeshReady(ms[k])
    decreases |ms|
    ensures |r| == |ms|
  {
    if ms == [] then []
    else
      var init := ms[..|ms| - 1];
      CreatedMeshes(bones, init, boneAttributes) + [MeshDataOf(RegistryAfter(bones, init, boneAttributes), ms[|ms| - 1], boneAttributes)]
  }

  /**
    Mesh k of the created meshes has the box and centre of its own vertices,
    and its bone slots are filled with the ids of the registry left by the
    meshes before it.
   */
  lemma {:induction false} CreatedMeshAt(bones: map<string, nat>, ms: seq<ImportedMesh>, boneAttributes: bool, k: nat)
    requires forall j | 0 <= j < |ms| :: MeshReady(ms[j])
    requires k < |ms|
    decreases |ms|
    ensures CreatedMeshes(bones, ms, boneAttributes)[k] == MeshDataOf(RegistryAfter(bones, ms[..k], boneAttributes), ms[k], boneAttributes)
  {
    var init := ms[..|ms| - 1];
    if k < |ms| - 1 {
      CreatedMeshAt(bones, init, boneAttributes, k);
      assert init[..k] == ms[..k] && init[k] == ms[k];
    }
  }

  /** One more mesh: its data is appended, and its bones are registered after those of the meshes before it. */
  lemma CreatedMeshesSnoc(bones: map<string, nat>, ms: seq<ImportedMesh>, k: nat, boneAttributes: bool, names0: seq<string>, offsets0: seq<Matrix>)
    requires forall j | 0 <= j < |ms| :: MeshReady(ms[j])
    requires k < |ms|
    ensures CreatedMeshes(bones, ms[..k + 1], boneAttributes)
         == CreatedMeshes(bones, ms[..k], boneAttributes) + [MeshDataOf(RegistryAfter(bones, ms[..k], boneAttributes), ms[k], boneAttributes)]
    ensures Registered(bones, BonesOf(ms[..k + 1])) == Registered(Registered(bones, BonesOf(ms[..k])), ms[k].bones)
    ensures names0 + Names(Added(bones, BonesOf(ms[..k + 1])))
         == names0 + Names(Added(bones, BonesOf(ms[..k]))) + Names(Added(Registered(bones, BonesOf(ms[..k])), ms[k].bones))
    ensures offsets0 + Offsets(Added(bones, BonesOf(ms[..k + 1])))
         == offsets0 + Offsets(Added(bones, BonesOf(ms[..k]))) + Offsets(Added(Registered(bones, BonesOf(ms[..k])), ms[k].bones))
  {
    var before := BonesOf(ms[..k]);
    assert ms[..k + 1][..k] == ms[..k] && ms[..k + 1][k] == ms[k];
    assert BonesOf(ms[..k + 1]) == before + ms[k].bones;
    RegisteredAppend(bones, before, ms[k].bones);
    AddedAppend(bones, before, ms[k].bones);
    NamesAppend(Added(bones, before), Added(Registered(bones, before), ms[k].bones));
    AppendAssoc(names0, Names(Added(bones, before)), Names(Added(Registered(bones, before), ms[k].bones)));
    AppendAssoc(offsets0, Offsets(Added(bones, before)), Offsets(Added(Registered(bones, before), ms[k].bones)));
  }

  /** Registering one more bone of a mesh extends the registry and the appended names and offsets by that bone's part. */
  lemma BoneSnoc(bm0: map<string, nat>, bs: seq<ImportedBone>, j: nat, names0: seq<string>, offsets0: seq<Matrix>)
    requires j < |bs|
    ensures Registered(bm0, bs[..j + 1]) == Registered(Registered(bm0, bs[..j]), [bs[j]])
    ensures Added(bm0, bs[..j + 1]) == Added(bm0, bs[..j]) + Added(Registered(bm0, bs[..j]), [bs[j]])
    ensures names0 + Names(Added(bm0, bs[..j])) + Names(Added(Registered(bm0, bs[..j]), [bs[j]]))
         == names0 + Names(Added(bm0, bs[..j + 1]))
    ensures offsets0 + Offsets(Added(bm0, bs[..j])) + Offsets(Added(Registered(bm0, bs[..j]), [bs[j]]))
         == offsets0 + Offsets(Added(bm0, bs[..j + 1]))
  {
    var prefix := bs[..j];
    var newBones := Added(Registered(bm0, prefix), [bs[j]]);
    assert bs[..j + 1] == prefix + [bs[j]];
    RegisteredAppend(bm0, prefix, [bs[j]]);
    AddedAppend(bm0, prefix, [bs[j]]);
    NamesAppend(Added(bm0, prefix), newBones);
    AppendAssoc(names0, Names(Added(bm0, prefix)), Names(newBones));
    AppendAssoc(offsets0, Offsets(Added(bm0, prefix)), Offsets(newBones));
  }

  function MeshBoxes(ms: seq<MeshData>): (r: seq<Box>)
    ensures |r| == |ms| && forall k | 0 <= k < |ms| :: r[k] == ms[k].box
  {
    seq(|ms|, k requires 0 <= k < |ms| => ms[k].box)
  }

  /** The look-up for a free bone slot: the first slot with weight zero, or MaxBonesPerVertex. */
  method FindFreeSlot(weights: seq<real>) returns (i: nat)
    requires |weights| == MaxBonesPerVertex
    ensures i == FirstFreeSlot(weights)
  {
    i := 0;
    while i < MaxBonesPerVertex && weights[i] != 0.0
      invariant i <= MaxBonesPerVertex
      invariant forall j | 0 <= j < i :: weights[j] != 0.0
    {
      i := i + 1;
    }
  }

  /** Scan of a mesh's vertices for its box, comparing candidate maxima against the minimum corner. */
  method ScanBoundingBox(vs: seq<Vec3>) returns (b: Box)
    requires |vs| > 0
    ensures b == MeshBox(vs)
  {
    var lo := vs[0];
    var hi := vs[0];
    ghost var points := PointBoxes(vs);
    for k := 0 to |vs|
      invariant Box(lo, hi) == MergeAll(PointBox(vs[0]), points[..k])
    {
      var v := vs[k];
      if v.x < lo.x { lo := lo.(x := v.x); }
      if v.y < lo.y { lo := lo.(y := v.y); }
      if v.z < lo.z { lo := lo.(z := v.z); }
      if v.x > lo.x { hi := hi.(x := v.x); }
      if v.y > lo.y { hi := hi.(y := v.y); }
      if v.z > lo.z { hi := hi.(z := v.z); }
      assert points[..k + 1][..k] == points[..k];
    }
    assert points[..|vs|] == points;
    b := Box(lo, hi);
  }

  /**
    One box merged into the box held in bb[0] (minimum) and bb[1] (maximum),
    with each candidate maximum compared against the updated minimum.
   */
  method MergeInto(bb: array<Vec3>, b: Box)
    requires bb.Length == 2
    modifies bb
    ensures Box(bb[0], bb[1]) == Merge(old(Box(bb[0], bb[1])), b)
  {
    var lo, hi := b.lo, b.hi;
    if lo.x < bb[0].x { bb[0] := bb[0].(x := lo.x); }
    if lo.y < bb[0].y { bb[0] := bb[0].(y := lo.y); }
    if lo.z < bb[0].z { bb[0] := bb[0].(z := lo.z); }
    if hi.x > bb[0].x { bb[1] := bb[1].(x := hi.x); }
    if hi.y > bb[0].y { bb[1] := bb[1].(y := hi.y); }
    if hi.z > bb[0].z { bb[1] := bb[1].(z := hi.z); }
  }

  /**
    Clip k of clips is loaded as a: a holds the clip and a complete look-up
    table over the node map m0 grown by the channel names of clips 0 .. k.
   */
  predicate ClipLoaded(bones: map<string, nat>, m0: map<string, NodeRef>, clips: seq<Clip>, k: nat, a: Animation)
    requires k < |clips|
  {
    a.clip == clips[k] && LookUpComplete(WithNames(m0, NamesUpTo(clips, k + 1)), bones, clips[k].channels, a.lookUp)
  }

  /** The table of the next clip, complete over the node map its predecessors left, loads that clip. */
  lemma NextClipLoaded(bones: map<string, nat>, m0: map<string, NodeRef>, clips: seq<Clip>, k: nat, next: Animation)
    requires k < |clips| && next.clip == clips[k]
    requires LookUpComplete(WithNames(WithNames(m0, NamesUpTo(clips, k)), ChannelNames(clips[k].channels)), bones, clips[k].channels, next.lookUp)
    ensures WithNames(WithNames(m0, NamesUpTo(clips, k)), ChannelNames(clips[k].channels)) == WithNames(m0, NamesUpTo(clips, k + 1))
    ensures ClipLoaded(bones, m0, clips, k, next)
  {
    WithNamesTwice(m0, NamesUpTo(clips, k), ChannelNames(clips[k].channels));
  }

  /** Appending a loaded clip to loaded clips keeps every clip loaded. */
  lemma LoadedSnoc(bones: map<string, nat>, m0: map<string, NodeRef>, clips: seq<Clip>, added: seq<Animation>, next: Animation)
    requires |added| < |clips|
    requires forall k | 0 <= k < |added| :: ClipLoaded(bones, m0, clips, k, added[k])
    requires ClipLoaded(bones, m0, clips, |added|, next)
    ensures forall k | 0 <= k < |added| + 1 :: ClipLoaded(bones, m0, clips, k, (added + [next])[k])
  {
    forall k | 0 <= k < |added| + 1 ensures ClipLoaded(bones, m0, clips, k, (added + [next])[k]) {
      if k < |added| {
        assert (added + [next])[k] == added[k];
      }
    }
  }


  /** Every 16-float slot of the buffer set to the identity matrix. */
  method FillIdentity(buf: array<real>, slots: nat)
    requires buf.Length == 16 * slots
    modifies buf
    ensures buf[..] == IdentitySlots(slots)
  {
    for b := 0 to slots
      invariant forall k | 0 <= k < 16 * b :: buf[k] == Identity()[k % 16]
    {
      forall j | 0 <= j < 16 {
        buf[16 * b + j] := Identity()[j];
      }
      forall k | 16 * b <= k < 16 * b + 16 ensures buf[k] == Identity()[k % 16] {
        SlotOffset(k, b);
      }
    }
  }

  /** Index k of slot b of a slot buffer is entry k - 16 * b of the slot. */
  lemma SlotOffset(k: nat, b: nat)
    requires 16 * b <= k < 16 * b + 16
    ensures k % 16 == k - 16 * b
  {
  }

  /** The recursive node-map builder: this node's name, then each child's subtree in order. */
  method BuildNodeMap(nodes: seq<SceneNode>, i: nat, m: map<string, NodeRef>) returns (r: map<string, NodeRef>)
    requires WellFormedNodes(nodes) && i < |nodes|
    decreases |nodes| - i
    ensures r == CreateMap(nodes, i, m)
  {
    r := m[nodes[i].name := NodeIndex(i)];
    var children := nodes[i].children;
    for k := 0 to |children|
      invariant CreateMapChildren(nodes, i, k, r) == CreateMap(nodes, i, m)
    {
      r := BuildNodeMap(nodes, children[k], r);
    }
  }

  /** Each weight of one bone stored, in order, in the first free slot of its vertex. */
  method StoreWeights(a: array<VertexBones>, id: nat, ws: seq<VertexWeight>)
    requires AllShaped(a[..]) && VerticesInRange(a.Length, ws)
    modifies a
    ensures a[..] == PlaceWeights(old(a[..]), id, ws)
  {
    ghost var s0 := a[..];
    for k := 0 to |ws|
      invariant a[..] == PlaceWeights(s0, id, ws[..k])
    {
      var w := ws[k];
      assert ws[..k + 1][..k] == ws[..k] && ws[..k + 1][k] == w;
      var i := FindFreeSlot(a[w.vertex].weights);
      if i < MaxBonesPerVertex {
        a[w.vertex] := VertexBones(a[w.vertex].ids[i := id], a[w.vertex].weights[i := w.weight]);
      }
    }
    assert ws[..|ws|] == ws;
  }

  /** The memcpy of a matrix into slot b of a bone-matrix buffer. */
  method CopySlot(buf: array<real>, b: nat, m: Matrix)
    requires 16 * b + 16 <= buf.Length
    modifies buf
    ensures buf[..] == WriteSlot(old(buf[..]), b, m)
  {
    forall j | 0 <= j < 16 {
      buf[16 * b + j] := m[j];
    }
  }

  class Model {
    var name: string
    var maskEnabledBufData: bv32
    var scene: Option<Scene>
    var meshes: seq<MeshData>
    var globInvT: Matrix
    var boneMap: map<string, nat>
    var boneOffsets: seq<Matrix>
    var boneNames: seq<string>
    var animations: seq<Animation>

    /** The bone map, offsets and names agree: ids 0 .. n-1, one offset and one name per id. */
    ghost predicate RegistryValid()
      reads this
    {
      Registry(boneMap, boneNames) && |boneOffsets| == |boneNames|
    }

    ghost predicate Valid()
      reads this
    {
      && RegistryValid()
      && (scene.None? ==> |boneNames| == 0 && |animations| == 0)
      && (scene.Some? ==> SceneReady(scene.value) && |meshes| == |scene.value.meshes|)
    }

    /** The fields other than the bone registry. */
    ghost function NonBoneState(): (string, bv32, Option<Scene>, seq<MeshData>, Matrix, seq<Animation>)
      reads this
    {
      (name, maskEnabledBufData, scene, meshes, globInvT, animations)
    }

    constructor()
      ensures Valid()
      ensures name == [] && maskEnabledBufData == 0 && scene.None? && meshes == []
      ensures boneMap == map[] && boneNames == [] && boneOffsets == [] && animations == []
    {
      name := [];
      maskEnabledBufData := 0;
      scene := None;
      meshes := [];
      globInvT := Identity();
      boneMap := map[];
      boneOffsets := [];
      boneNames := [];
      animations := [];
    }

    /**
      The id of a bone name: a known name keeps its id and the map is
      unchanged; a new name gets the map's size as id and is added.
     */
    method GetOrAddBone(boneName: string) returns (found: bool, id: nat)
      modifies this
      ensures found <==> boneName in old(boneMap)
      ensures id == BoneId(old(boneMap), boneName)
      ensures boneMap == if found then old(boneMap) else old(boneMap)[boneName := |old(boneMap)|]
      ensures |boneMap| == |old(boneMap)| + (if found then 0 else 1)
      ensures boneNames == old(boneNames) && boneOffsets == old(boneOffsets)
      ensures NonBoneState() == old(NonBoneState())
    {
      var r := FindBone(boneMap, boneName, 0);
      found, id := r.0, r.1;
      if found {
        return;
      }
      id := |boneMap|;
      boneMap := boneMap[boneName := id];
    }

    /**
      getOrAddBone followed by recording a new bone: a bone met for the first
      time has its offset and name appended under the new id.
     */
    method RegisterBone(b: ImportedBone) returns (id: nat)
      requires RegistryValid()
      modifies this
      ensures RegistryValid()
      ensures id == BoneId(old(boneMap), b.name)
      ensures boneMap == Registered(old(boneMap), [b])
      ensures boneNames == old(boneNames) + Names(Added(old(boneMap), [b]))
      ensures boneOffsets == old(boneOffsets) + Offsets(Added(old(boneMap), [b]))
      ensures NonBoneState() == old(NonBoneState())
    {
      assert [b][..0] == [];
      ghost var before, namesBefore := boneMap, boneNames;
      var found;
      found, id := GetOrAddBone(b.name);
      if !found {
        RegistryAppend(before, namesBefore, b.name);
        boneOffsets := boneOffsets + [b.offset];
        boneNames := boneNames + [b.name];
      }
    }

    /** One bone of a mesh: registered, then its weights stored under its id. */
    method AddBone(a: array<VertexBones>, b: ImportedBone)
      requires RegistryValid() && AllShaped(a[..]) && VerticesInRange(a.Length, b.weights)
      modifies this, a
      ensures RegistryValid()
      ensures boneMap == Registered(old(boneMap), [b])
      ensures boneNames == old(boneNames) + Names(Added(old(boneMap), [b]))
      ensures boneOffsets == old(boneOffsets) + Offsets(Added(old(boneMap), [b]))
      ensures a[..] == PlaceWeights(old(a[..]), BoneId(old(boneMap), b.name), b.weights)
      ensures NonBoneState() == old(NonBoneState())
    {
      var id := RegisterBone(b);
      StoreWeights(a, id, b.weights);
    }

    /**
      The bone part of mesh creation: every bone is registered (its offset
      and name appended when new) and each of its weights stored in the first
      free slot of its vertex under the bone's id.
     */
    method FillBoneSlots(bs: seq<ImportedBone>, n: nat) returns (slots: seq<VertexBones>)
      requires RegistryValid() && BonesInRange(n, bs)
      modifies this
      ensures RegistryValid()
      ensures boneMap == Registered(old(boneMap), bs)
      ensures boneNames == old(boneNames) + Names(Added(old(boneMap), bs))
      ensures boneOffsets == old(boneOffsets) + Offsets(Added(old(boneMap), bs))
      ensures slots == FillSlots(old(boneMap), ZeroSlotsFor(n), bs)
      ensures NonBoneState() == old(NonBoneState())
    {
      var a := new VertexBones[n](_ => ZeroSlots());
      ghost var bm0, names0, offsets0 := boneMap, boneNames, boneOffsets;
      ghost var added := [];
      assert a[..] == ZeroSlotsFor(n);
      for j := 0 to |bs|
        invariant RegistryValid()
        invariant boneMap == Registered(bm0, bs[..j])
        invariant added == Added(bm0, bs[..j])
        invariant boneNames == names0 + Names(added)
        invariant boneOffsets == offsets0 + Offsets(added)
        invariant a[..] == FillSlots(bm0, ZeroSlotsFor(n), bs[..j])
        invariant NonBoneState() == old(NonBoneState())
      {
        ghost var prefix := bs[..j];
        assert bs[..j + 1] == prefix + [bs[j]];
        FillSlotsSnoc(bm0, ZeroSlotsFor(n), prefix, bs[j]);
        ghost var newBones := Added(boneMap, [bs[j]]);
        AddBone(a, bs[j]);
        BoneSnoc(bm0, bs, j, names0, offsets0);
        added := added + newBones;
      }
      assert bs[..|bs|] == bs;
      slots := a[..];
    }

    /**
      Mesh creation: the box scan and centre, and, when the shader takes bone
      attributes, the bone registration and slot filling.
     */
    method CreateMesh(m: ImportedMesh, boneAttributes: bool) returns (md: MeshData)
      requires RegistryValid() && MeshReady(m)
      modifies this
      ensures RegistryValid()
      ensures md == MeshDataOf(old(boneMap), m, boneAttributes)
      ensures boneAttributes ==> && boneMap == Registered(old(boneMap), m.bones)
                                 && boneNames == old(boneNames) + Names(Added(old(boneMap), m.bones))
                                 && boneOffsets == old(boneOffsets) + Offsets(Added(old(boneMap), m.bones))
      ensures !boneAttributes ==> boneMap == old(boneMap) && boneNames == old(boneNames) && boneOffsets == old(boneOffsets)
      ensures NonBoneState() == old(NonBoneState())
    {
      var box := ScanBoundingBox(m.vertices);
      var centre := Vec3(0.5 * (box.lo.x + box.hi.x), 0.5 * (box.lo.y + box.hi.y), 0.5 * (box.lo.z + box.hi.z));
      var slots := [];
      if boneAttributes {
        slots := FillBoneSlots(m.bones, |m.vertices|);
      }
      md := MeshData(box, centre, slots);
    }

    /**
      Scene creation: every mesh is created in order (each seeing the
      registry the earlier ones left), and the global inverse transform is
      the inverse of the root's transformation, given here as rootInverse.
     */
    method Create(s: Scene, boneAttributes: bool, rootInverse: Matrix)
      requires Valid() && SceneReady(s)
      modifies this
      ensures Valid()
      ensures scene == Some(s) && globInvT == rootInverse
      ensures meshes == CreatedMeshes(old(boneMap), s.meshes, boneAttributes)
      ensures boneMap == RegistryAfter(old(boneMap), s.meshes, boneAttributes)
      ensures boneAttributes ==> && boneNames == old(boneNames) + Names(Added(old(boneMap), BonesOf(s.meshes)))
                                 && boneOffsets == old(boneOffsets) + Offsets(Added(old(boneMap), BonesOf(s.meshes)))
      ensures !boneAttributes ==> boneNames == old(boneNames) && boneOffsets == old(boneOffsets)
      ensures name == old(name) && maskEnabledBufData == old(maskEnabledBufData) && animations == old(animations)
    {
      var created := CreateMeshes(s.meshes, boneAttributes);
      scene := Some(s);
      meshes := created;
      globInvT := rootInverse;
    }

    /**
      The mesh loop of scene creation: each mesh is created in order, seeing
      the registry the meshes before it left.
     */
    method CreateMeshes(ms: seq<ImportedMesh>, boneAttributes: bool) returns (created: seq<MeshData>)
      requires RegistryValid() && forall k | 0 <= k < |ms| :: MeshReady(ms[k])
      modifies this
      ensures RegistryValid()
      ensures created == CreatedMeshes(old(boneMap), ms, boneAttributes)
      ensures boneMap == RegistryAfter(old(boneMap), ms, boneAttributes)
      ensures boneAttributes ==> && boneNames == old(boneNames) + Names(Added(old(boneMap), BonesOf(ms)))
                                 && boneOffsets == old(boneOffsets) + Offsets(Added(old(boneMap), BonesOf(ms)))
      ensures !boneAttributes ==> boneNames == old(boneNames) && boneOffsets == old(boneOffsets)
      ensures NonBoneState() == old(NonBoneState())
    {
      created := [];
      ghost var bm0, names0, offsets0 := boneMap, boneNames, boneOffsets;
      for k := 0 to |ms|
        invariant RegistryValid()
        invariant created == CreatedMeshes(bm0, ms[..k], boneAttributes)
        invariant boneMap == RegistryAfter(bm0, ms[..k], boneAttributes)
        invariant boneAttributes ==> && boneNames == names0 + Names(Added(bm0, BonesOf(ms[..k])))
                                     && boneOffsets == offsets0 + Offsets(Added(bm0, BonesOf(ms[..k])))
        invariant !boneAttributes ==> boneNames == names0 && boneOffsets == offsets0
        invariant NonBoneState() == old(NonBoneState())
      {
        var md := CreateMesh(ms[k], boneAttributes);
        CreatedMeshesSnoc(bm0, ms, k, boneAttributes, names0, offsets0);
        created := created + [md];
      }
      assert ms[..|ms|] == ms;
    }

    /**
      The channel loop for one clip: channel c enters (c, bone id or
      NotABone) for the node its name maps to, later channels overwriting,
      and each name looked up is added to the node map (as the null node
      when unknown).
     */
    method ChannelLookUp(m: map<string, NodeRef>, chans: seq<NodeAnim>) returns (l: map<NodeRef, LookUpEntry>, m': map<string, NodeRef>)
      ensures l == ChannelsLookUp(m, boneMap, chans)
      ensures m' == WithNames(m, ChannelNames(chans))
    {
      l := map[];
      m' := m;
      for c := 0 to |chans|
        invariant l == ChannelsLookUp(m, boneMap, chans[..c])
        invariant m' == WithNames(m, ChannelNames(chans[..c]))
      {
        var nodeName := chans[c].nodeName;
        ChannelNamesSnoc(chans, c);
        WithNamesAdd(m, ChannelNames(chans[..c]), nodeName);
        ChannelsLookUpSnoc(m, boneMap, chans, c);
        if nodeName !in m' {
          m' := m'[nodeName := NullNode];
        }
        var node := m'[nodeName];
        var id := FindBone(boneMap, nodeName, NotABone).1;
        l := l[node := LookUpEntry(c, id)];
      }
      assert chans[..|chans|] == chans;
    }

    /**
      The rest loop: every node of the node map without an entry gets
      (NotAnimated, the bone id of a name mapped to it, or NotABone); the
      entries already there are kept.
     */
    method CompleteLookUp(l: map<NodeRef, LookUpEntry>, m: map<string, NodeRef>) returns (r: map<NodeRef, LookUpEntry>)
      ensures r.Keys == l.Keys + m.Values
      ensures forall x | x in l :: r[x] == l[x]
      ensures forall x | x in r && x !in l ::
        r[x].channel == NotAnimated && exists n | n in m :: m[n] == x && r[x].bone == BoneIdOr(boneMap, n)
    {
      r := l;
      var rest := m.Keys;
      while rest != {}
        invariant rest <= m.Keys
        invariant forall n | n in m && n !in rest :: m[n] in r
        invariant forall x | x in r :: x in l || x in m.Values
        invariant forall x | x in l :: x in r && r[x] == l[x]
        invariant forall x | x in r && x !in l ::
          r[x].channel == NotAnimated && exists n | n in m :: m[n] == x && r[x].bone == BoneIdOr(boneMap, n)
        decreases rest
      {
        var n :| n in rest;
        if m[n] !in r {
          var id := FindBone(boneMap, n, NotABone).1;
          r := r[m[n] := LookUpEntry(NotAnimated, id)];
        }
        rest := rest - {n};
      }
      forall x | x in m.Values ensures x in r {
        var n :| n in m && m[n] == x;
      }
    }

    /** The clips of a model's scene: none without a scene. */
    ghost function ClipsOf(model: Model): seq<Clip>
      reads model
    {
      if model.scene.Some? then model.scene.value.animations else []
    }

    /**
      The look-up table of one clip: the channel loop, then the rest loop
      over the node map the channel loop left.
     */
    method BuildLookUp(m: map<string, NodeRef>, clip: Clip) returns (l: map<NodeRef, LookUpEntry>, m': map<string, NodeRef>)
      ensures m' == WithNames(m, ChannelNames(clip.channels))
      ensures LookUpComplete(m', boneMap, clip.channels, l)
    {
      var channelEntries;
      channelEntries, m' := ChannelLookUp(m, clip.channels);
      WithNamesResolve([], m, ChannelNames(clip.channels));
      ChannelsLookUpSameResolve(m, m', boneMap, clip.channels);
      l := CompleteLookUp(channelEntries, m');
    }

    /**
      Loading the clips of this model or of a compatible one: nothing
      happens and 0 is returned without a scene, without clips or without
      bones; otherwise each clip is appended with its look-up table, built
      over this model's node map as the earlier clips' channel names left it,
      and the clip count is returned.
     */
    method LoadAnimations(compatible: Model?) returns (count: nat)
      requires Valid()
      requires compatible != null ==> compatible.Valid()
      modifies this
      ensures Valid()
      ensures var clips := old(ClipsOf(if compatible == null then this else compatible));
        count == if |clips| == 0 || |boneOffsets| == 0 then 0 else |clips|
      ensures |animations| == |old(animations)| + count
      ensures animations[..|old(animations)|] == old(animations)
      ensures count > 0 ==> scene.Some?
      ensures count > 0 ==>
        var clips := old(ClipsOf(if compatible == null then this else compatible));
        forall j | |old(animations)| <= j < |animations| ::
          ClipLoaded(boneMap, CreateMap(scene.value.nodes, 0, map[]), clips, j - |old(animations)|, animations[j])
      ensures NonAnimationState() == old(NonAnimationState())
    {
      var src := if compatible == null then this else compatible;
      var clips := if src.scene.Some? then src.scene.value.animations else [];
      if |clips| == 0 || |boneOffsets| == 0 {
        return 0;
      }
      var added := LookUpTables(clips);
      animations := animations + added;
      count := |clips|;
    }

    /**
      The look-up tables of the clips, in order: the node map of this
      model's scene is built once, and each clip's table is built over it as
      the earlier clips' channel names left it.
     */
    method LookUpTables(clips: seq<Clip>) returns (added: seq<Animation>)
      requires scene.Some? && WellFormedNodes(scene.value.nodes)
      ensures |added| == |clips|
      ensures forall k | 0 <= k < |clips| :: ClipLoaded(boneMap, CreateMap(scene.value.nodes, 0, map[]), clips, k, added[k])
    {
      var m := BuildNodeMap(scene.value.nodes, 0, map[]);
      ghost var m0 := m;
      added := [];
      for a := 0 to |clips|
        invariant m == WithNames(m0, NamesUpTo(clips, a))
        invariant |added| == a
        invariant forall k | 0 <= k < a :: ClipLoaded(boneMap, m0, clips, k, added[k])
      {
        var l, m1 := BuildLookUp(m, clips[a]);
        NextClipLoaded(boneMap, m0, clips, a, Animation(clips[a], l));
        LoadedSnoc(boneMap, m0, clips, added, Animation(clips[a], l));
        added := added + [Animation(clips[a], l)];
        m := m1;
      }
    }

    /** The fields other than the animations. */
    ghost function NonAnimationState(): (string, bv32, Option<Scene>, seq<MeshData>, Matrix, map<string, nat>, seq<Matrix>, seq<string>)
      reads this
    {
      (name, maskEnabledBufData, scene, meshes, globInvT, boneMap, boneOffsets, boneNames)
    }

    /** What the pose walk of this model reads for a clip at a time. */
    ghost function PoseOf(anim: Animation, time: real, rot: Rotations): PoseInput
      reads this
      requires scene.Some?
    {
      PoseInput(scene.value.nodes, boneOffsets, globInvT, anim, time, rot)
    }

    /**
      The transform node i hands to its children under parent transform t:
      the interpolated keys of its channel, its own transformation when the
      channel index is out of range, or the identity when it has no entry.
     */
    method ComputeNodeTransform(anim: Animation, time: real, rot: Rotations, i: nat, t: Matrix) returns (transform: Matrix)
      requires scene.Some? && Ready(PoseOf(anim, time, rot)) && i < |scene.value.nodes|
      ensures transform == NodeTransform(PoseOf(anim, time, rot), i, t)
    {
      transform := Identity();
      if NodeIndex(i) in anim.lookUp {
        var entry := anim.lookUp[NodeIndex(i)];
        if entry.channel < |anim.clip.channels| {
          var ch := anim.clip.channels[entry.channel];
          assert ch in anim.clip.channels;
          var translate := InterpolateVec(ch.positionKeys, time);
          var rotate := InterpolateQuat(ch.rotationKeys, time, rot);
          var scale := InterpolateVec(ch.scalingKeys, time);
          transform := Mul(Mul(Mul(t, Translation(translate)), RotationMatrix(rotate)), Scaling(scale));
        } else {
          transform := Mul(t, scene.value.nodes[i].transformation);
        }
      }
    }

    /** The skinning matrix of node i, if it is a bone, copied into its bone's slot. */
    method StoreSkinningMatrix(anim: Animation, time: real, rot: Rotations, i: nat, transform: Matrix, transforms: array<real>)
      requires scene.Some? && transforms.Length == 16 * |boneOffsets|
      modifies transforms
      ensures transforms[..] == Visit(PoseOf(anim, time, rot), i, transform, old(transforms[..]))
    {
      if NodeIndex(i) in anim.lookUp {
        var b := anim.lookUp[NodeIndex(i)].bone;
        if b < |boneOffsets| {
          var m := Transpose(Mul(Mul(globInvT, transform), boneOffsets[b]));
          CopySlot(transforms, b, m);
        }
      }
    }

    /**
      The recursive pose walk: the node's transform (interpolated keys, its
      own transformation, or the identity when it has no entry), its
      skinning matrix copied into its bone's slot, then its children.
     */
    method ReadNodeHierarchy(anim: Animation, time: real, rot: Rotations, i: nat, t: Matrix, transforms: array<real>)
      requires scene.Some? && Ready(PoseOf(anim, time, rot)) && i < |scene.value.nodes|
      requires transforms.Length == 16 * |boneOffsets|
      modifies transforms
      decreases |scene.value.nodes| - i
      ensures transforms[..] == Walk(PoseOf(anim, time, rot), i, t, old(transforms[..]))
    {
      ghost var p := PoseOf(anim, time, rot);
      var transform := ComputeNodeTransform(anim, time, rot, i, t);
      StoreSkinningMatrix(anim, time, rot, i, transform, transforms);
      var children := scene.value.nodes[i].children;
      for k := 0 to |children|
        invariant WalkChildren(p, i, k, transform, transforms[..]) == Walk(p, i, t, old(transforms[..]))
      {
        ReadNodeHierarchy(anim, time, rot, children[k], transform, transforms);
      }
    }

    /**
      The bone matrices for clip iAnim at a time: the buffer is resized to
      16 floats per bone (keeping its old contents); without that clip every
      slot (at least one) becomes the identity; with it the time is reduced
      to the clip's ticks and the walk from the root fills the bone slots.
     */
    method GetAnimData(iAnim: nat, time: real, transforms: seq<real>, rot: Rotations) returns (r: seq<real>)
      requires Valid()
      requires iAnim < |animations| ==> var clip := animations[iAnim].clip;
        clip.duration != 0.0 && ClipReadyAt(clip, AnimTime(clip, time))
      ensures iAnim >= |animations| ==> r == IdentitySlots(if |boneOffsets| == 0 then 1 else |boneOffsets|)
      ensures iAnim < |animations| ==>
        && scene.Some? && Ready(PoseOf(animations[iAnim], AnimTime(animations[iAnim].clip, time), rot))
        && r == Walk(PoseOf(animations[iAnim], AnimTime(animations[iAnim].clip, time), rot), 0, Identity(),
                     Resize(transforms, 16 * |boneOffsets|))
    {
      var n := |boneOffsets|;
      var buf := new real[16 * n](k => if 0 <= k < |transforms| then transforms[k] else 0.0);
      assert buf[..] == Resize(transforms, 16 * n);
      if iAnim >= |animations| {
        if n == 0 {
          buf := new real[16](_ => 0.0);
        }
        FillIdentity(buf, buf.Length / 16);
        r := buf[..];
      } else {
        assert animations[iAnim] in animations;
        Animate(animations[iAnim], time, rot, buf);
        r := buf[..];
      }
    }

    /** The animated branch: the time reduced to the clip's ticks, then the walk from the root. */
    method Animate(anim: Animation, time: real, rot: Rotations, buf: array<real>)
      requires scene.Some? && WellFormedNodes(scene.value.nodes)
      requires anim.clip.duration != 0.0 && ClipReadyAt(anim.clip, AnimTime(anim.clip, time))
      requires buf.Length == 16 * |boneOffsets|
      modifies buf
      ensures buf[..] == Walk(PoseOf(anim, AnimTime(anim.clip, time), rot), 0, Identity(), old(buf[..]))
    {
      var ticks := anim.clip.ticksPerSecond;
      if ticks == 0.0 {
        ticks := 25.0;
      }
      var scaled := time * ticks;
      assert scaled == time * TicksPerSecond(anim.clip);
      var animTime := FMod(scaled, anim.clip.duration);
      ReadNodeHierarchy(anim, animTime, rot, 0, Identity(), buf);
    }

    /**
      The recursive box walk: the transform accumulated down to the node,
      each of its meshes' boxes transformed by it and merged into the box
      (as written), then its children with the same transform.
     */
    method GetBBNode(i: nat, bb: array<Vec3>, trafo: Matrix)
      requires Valid() && scene.Some? && i < |scene.value.nodes| && bb.Length == 2
      modifies bb
      decreases |scene.value.nodes| - i
      ensures Box(bb[0], bb[1]) == MergeAll(old(Box(bb[0], bb[1])), Visits(scene.value.nodes, MeshBoxes(meshes), i, trafo))
    {
      ghost var nodes, boxes := scene.value.nodes, MeshBoxes(meshes);
      ghost var start := Box(bb[0], bb[1]);
      var node := scene.value.nodes[i];
      var t := Mul(trafo, node.transformation);
      ghost var own := NodeBoxes(boxes, node.meshes, t);
      for k := 0 to |node.meshes|
        invariant Box(bb[0], bb[1]) == MergeAll(start, own[..k])
      {
        var box := meshes[node.meshes[k]].box;
        ghost var acc := own[..k];
        assert own[..k + 1] == acc + [own[k]];
        MergeInto(bb, Box(TransformPoint(t, box.lo), TransformPoint(t, box.hi)));
      }
      assert own[..|own|] == own;
      MergeAllAppend(start, own, VisitsChildren(nodes, boxes, i, 0, t));
      for c := 0 to |node.children|
        invariant MergeAll(Box(bb[0], bb[1]), VisitsChildren(nodes, boxes, i, c, t)) == MergeAll(start, Visits(nodes, boxes, i, trafo))
      {
        ghost var before := Box(bb[0], bb[1]);
        MergeAllAppend(before, Visits(nodes, boxes, node.children[c], t), VisitsChildren(nodes, boxes, i, c + 1, t));
        GetBBNode(node.children[c], bb, t);
      }
    }

    /** The model's box: from the empty box, the walk from the root with the identity transform. */
    method GetBB(bb: array<Vec3>)
      requires Valid() && scene.Some? && bb.Length == 2
      modifies bb
      ensures Box(bb[0], bb[1]) == MergeAll(EmptyBox(), Visits(scene.value.nodes, MeshBoxes(meshes), 0, Identity()))
    {
      bb[0] := Vec3(1e10, 1e10, 1e10);
      bb[1] := Vec3(-1e10, -1e10, -1e10);
      GetBBNode(0, bb, Identity());
    }

    /** Enabling or disabling the CPU-side copy of buffer bufId sets or clears its bit in the mask. */
    method EnableBufData(bufId: nat, enable: bool)
      requires bufId < 32
      modifies this
      ensures maskEnabledBufData == SetBit(old(maskEnabledBufData), bufId, enable)
      ensures name == old(name) && scene == old(scene) && meshes == old(meshes) && globInvT == old(globInvT)
      ensures boneMap == old(boneMap) && boneOffsets == old(boneOffsets) && boneNames == old(boneNames)
      ensures animations == old(animations)
    {
      if enable {
        maskEnabledBufData := maskEnabledBufData | (1 << bufId);
      } else {
        maskEnabledBufData := maskEnabledBufData & !(1 << bufId);
      }
    }

    /**
      Loading a file: when the import fails nothing changes and false is
      returned; otherwise the name becomes the file's base name without
      extension and the scene is created.
     */
    method Load(path: string, imported: Option<Scene>, boneAttributes: bool, rootInverse: Matrix) returns (ok: bool)
      requires Valid() && (imported.Some? ==> SceneReady(imported.value))
      modifies this
      ensures Valid()
      ensures ok <==> imported.Some?
      ensures !ok ==> && NonBoneState() == old(NonBoneState())
                      && boneMap == old(boneMap) && boneNames == old(boneNames) && boneOffsets == old(boneOffsets)
      ensures ok ==> name == ModelName(path) && scene == imported && globInvT == rootInverse
      ensures ok ==> maskEnabledBufData == old(maskEnabledBufData) && animations == old(animations)
      ensures ok ==> meshes == CreatedMeshes(old(boneMap), imported.value.meshes, boneAttributes)
      ensures ok ==> boneMap == RegistryAfter(old(boneMap), imported.value.meshes, boneAttributes)
      ensures ok && boneAttributes ==>
        && boneNames == old(boneNames) + Names(Added(old(boneMap), BonesOf(imported.value.meshes)))
        && boneOffsets == old(boneOffsets) + Offsets(Added(old(boneMap), BonesOf(imported.value.meshes)))
      ensures ok && !boneAttributes ==> boneNames == old(boneNames) && boneOffsets == old(boneOffsets)
    {
      if imported.None? {
        return false;
      }
      name := ModelName(path);
      Create(imported.value, boneAttributes, rootInverse);
      ok := true;
    }

    /** The display name: empty for an unnamed model, else "Model (" + name + ")". */
    method GetName() returns (r: string)
      ensures r == DisplayName(name)
    {
      if name == [] {
        r := "";
      } else {
        r := "Model (" + name + ")";
      }
    }
  }
}
