# 3dgl model, terrain and controls — a Dafny model

This project models the logic of the 3dgl helper library that does not need a GPU, and proves properties of it. It also covers the keyboard handling of the demo application built on the library. The parts covered are:

- **Skeletal-animation bookkeeping of `C3dglModel`.**
  - The bone registry: bone name to dense id, with one offset matrix and one name per id.
  - Filling the per-vertex bone slots.
  - The per-clip look-up tables from node to (channel index, bone id). The sentinels are `99999` for "not a bone" and `0xffff` for "not animated".
  - The key search of `Interpolate`.
  - The recursive pose walk that writes one 16-float skinning matrix per bone.
  - The bounding-box scans.
  - The model name, the display name and the mask of CPU-side buffers.
- **`C3dglTerrain`.**
  - Heights collected from the red bytes of an RGBA bitmap.
  - The centred height look-up.
  - The four vertex streams and the triangle index list built by `loadHeightmap`.
  - The triangle choice of `getInterpolatedHeight`.
- **The demo's key handlers.** They update the camera velocity, the orbiting step and two cycling mode counters. The day/night `transition` and the car's reflection power are clamped reals.

**How the source is represented.**
- Scene graph: the imported node tree is an arena of nodes whose root is index 0 and whose children have larger indices.
- Matrices: 4×4 real matrices stored row-major.
- Parameters: the import library's output (scene, meshes, clips) and the bitmap's bytes are parameters. So are the square root, the quaternion SLERP with normalisation, the barycentric blend, the inverse of the root transform, the shader's bone-attribute support, the Shift state and the clock's hour.
- Classes: objects whose fields the source updates in place (`C3dglModel`, `C3dglTerrain`, the demo's globals) are Dafny classes. Their methods are proved against specification functions. The pure look-ups are functions.

Files:

- geometry.dfy (`Geometry`): vectors, 4×4 matrices, product, transpose, TRS matrices
- keyframes.dfy (`Keyframes`): key search and blend of `Interpolate`
- scene.dfy (`SceneGraph`): scene arena, name-to-node map, channel look-up entries
- bones.dfy (`Bones`): bone registry and per-vertex bone slots, as functions
- pose.dfy (`Pose`): pose walk, buffer resize, `fmod` time reduction
- bounds.dfy (`Bounds`): box merges (as written and corrected) and the box walk
- naming.dfy (`Naming`, `BufferMask`): model name, display name, buffer mask
- model.dfy (`Models`): the `Model` class and its methods
- terrain.dfy (`Terrain`): the `Terrain` class, heights, streams, indices
- controls.dfy (`Controls`): the demo's key handlers and clamps

## Model

Paths are relative to the repository root. `3dglModel.cpp` and `3dglTerrain.cpp` live in `OpenGLLevel2New/3dgp/3dgl/`, and `main.cpp` lives in `OpenGLLevel2New/3dgp/`.

| member | source | states |
|---|---|---|
| Geometry.MulEntries | OpenGLLevel2New/3dgp/3dgl/3dglModel.cpp:671 | Entry (i, j) of a product is the sum over k of a(i,k)·b(k,j). This is the composition order of `t * T * R * S`. |
| Geometry.TransposeEntries | OpenGLLevel2New/3dgp/3dgl/3dglModel.cpp:680 | Entry (i, j) of the transpose is entry (j, i). |
| Geometry.TransposeInvolutive | OpenGLLevel2New/3dgp/3dgl/3dglModel.cpp:680 | Transposing twice gives the matrix back. |
| Keyframes.KeyIntervalFrom | OpenGLLevel2New/3dgp/3dgl/3dglModel.cpp:613-615 | A search started at i stops at some r in [i, n-1]. Every key after i up to r has a time ≤ `time`. Either r is the last key or `time` is before key r+1. |
| Keyframes.FindKeyInterval | OpenGLLevel2New/3dgp/3dgl/3dglModel.cpp:613-615 | The `while` loop advancing `i` returns exactly the index the search function defines. |
| Keyframes.InterpolateVec | OpenGLLevel2New/3dgp/3dgl/3dglModel.cpp:610-626 | For any track interpolable at `time` (key times need not be ordered), the vector `Interpolate` returns `Keyframes.InterpolateVector` of the track: the last key's value, or the linear blend of the selected pair. |
| Keyframes.InterpolateQuat | OpenGLLevel2New/3dgp/3dgl/3dglModel.cpp:628-645 | For any track interpolable at `time` (key times need not be ordered), the quaternion `Interpolate` returns `Keyframes.InterpolateRotation` of the track: the normalised SLERP of the selected pair, or the last key's value. |
| Keyframes.Interpolable | OpenGLLevel2New/3dgp/3dgl/3dglModel.cpp:613-624 | The condition under which `Interpolate` does not divide by zero: only the first pair can be selected with a zero span, so the first two keys must differ in time when `time` is before the second one. Repeated times elsewhere are allowed. `Keyframes.SelectedSpan` proves it is enough. |
| Keyframes.KeyInterval | OpenGLLevel2New/3dgp/3dgl/3dglModel.cpp:613-615 | The index the key search stops at, starting from key 0. `Keyframes.BracketSelectsKey`, `Keyframes.EqualTimeSelectsKey` and `Keyframes.LastKeyIff` characterise it. |
| Keyframes.BlendFactor | OpenGLLevel2New/3dgp/3dgl/3dglModel.cpp:624 | The factor (time − t_i)/(t_{i+1} − t_i), defined when the pair's times differ. `Keyframes.BlendFactorBounds` bounds it. |
| Keyframes.Lerp | OpenGLLevel2New/3dgp/3dgl/3dglModel.cpp:626 | start + f·(end − start). `Keyframes.InterpolateVectorValue` relates it to the keys. |
| Keyframes.InterpolateVector | OpenGLLevel2New/3dgp/3dgl/3dglModel.cpp:610-626 | The value of a position or scaling track: the last key's value, or the linear blend of the selected pair. The method `Keyframes.InterpolateVec` is proved equal to it. |
| Keyframes.InterpolateRotation | OpenGLLevel2New/3dgp/3dgl/3dglModel.cpp:628-645 | The value of a rotation track: the last key's value, or the normalised SLERP of the selected pair. The method `Keyframes.InterpolateQuat` is proved equal to it. |
| Keyframes.SelectedSpan | OpenGLLevel2New/3dgp/3dgl/3dglModel.cpp:613-624 | For an interpolable track, when the search selects a pair i, t_i ≤ time (for i > 0), time < t_{i+1}, and t_{i+1} ≠ t_i: the blend never divides by zero, with or without ordered times. |
| Keyframes.RepeatedTimeTrack | OpenGLLevel2New/3dgp/3dgl/3dglModel.cpp:613-626 | The track with times 0, 1, 1, 2 is accepted although its times are not increasing. At time 1 the search selects the third key, and the value is the blend of the third and fourth keys with factor 0. |
| Keyframes.BracketFrom | OpenGLLevel2New/3dgp/3dgl/3dglModel.cpp:614-615 | When t_i ≤ time < t_{i+1}, a search started at or before i stops at i. |
| Keyframes.BracketSelectsKey | OpenGLLevel2New/3dgp/3dgl/3dglModel.cpp:613-615 | When t_i ≤ time < t_{i+1}, the search selects i. |
| Keyframes.PastEndFrom | OpenGLLevel2New/3dgp/3dgl/3dglModel.cpp:614-619 | Once `time` has reached the last key's time, the search runs to the last key from any start. |
| Keyframes.EqualTimeSelectsKey | OpenGLLevel2New/3dgp/3dgl/3dglModel.cpp:614 | A time equal to key k's time selects key k as the lower bound, because the test is `>=`. |
| Keyframes.LastKeyIff | OpenGLLevel2New/3dgp/3dgl/3dglModel.cpp:614-619 | The search ends on the last key if and only if there is a single key or `time` ≥ the last key's time. |
| Keyframes.InterpolateVectorValue | OpenGLLevel2New/3dgp/3dgl/3dglModel.cpp:617-625 | From the last key's time on (or with one key) the value is the last key's value. Inside [t_i, t_{i+1}) it is `Start + f*(End-Start)` with f in [0, 1). Before the first key it extrapolates keys 0 and 1 with f < 0. |
| Keyframes.BlendFactorBounds | OpenGLLevel2New/3dgp/3dgl/3dglModel.cpp:624 | The blend factor is below 1, and it is negative exactly when `time` precedes the first key. |
| SceneGraph.PreOrder | OpenGLLevel2New/3dgp/3dgl/3dglModel.cpp:345-350 | The pre-order of a subtree starts at its root and lists only nodes of the arena at or after it. |
| SceneGraph.CreateMap | OpenGLLevel2New/3dgp/3dgl/3dglModel.cpp:345-350 | `__createMap`: each node's name mapped to the node, visiting the subtree in pre-order, children in order. `SceneGraph.CreateMapIsPreOrderFold` and `SceneGraph.NodeMapContents` state its contents. |
| SceneGraph.PreOrderChildren | OpenGLLevel2New/3dgp/3dgl/3dglModel.cpp:348-349 | The children's pre-order lists only nodes after the parent. |
| SceneGraph.NameFoldAppend | OpenGLLevel2New/3dgp/3dgl/3dglModel.cpp:347 | Storing names along a + b is storing along a, then along b. |
| SceneGraph.CreateMapIsPreOrderFold | OpenGLLevel2New/3dgp/3dgl/3dglModel.cpp:345-350 | The recursive `__createMap` equals storing each node under its name in pre-order. |
| SceneGraph.CreateMapChildrenIsFold | OpenGLLevel2New/3dgp/3dgl/3dglModel.cpp:348-349 | The loop over the children equals storing their subtrees in pre-order. |
| SceneGraph.NameFoldKeys | OpenGLLevel2New/3dgp/3dgl/3dglModel.cpp:347 | The map's keys become the old keys plus every visited node's name. |
| SceneGraph.NameFoldLastWins | OpenGLLevel2New/3dgp/3dgl/3dglModel.cpp:347 | A name maps to the last visited node carrying it, so duplicates overwrite. |
| SceneGraph.NameFoldUntouched | OpenGLLevel2New/3dgp/3dgl/3dglModel.cpp:347 | A key that no visited node is named after keeps its value. |
| SceneGraph.NodeMapContents | OpenGLLevel2New/3dgp/3dgl/3dglModel.cpp:395-396 | The scene's node map has exactly the names of all nodes as keys. Each name maps to the last node in pre-order that carries it. |
| SceneGraph.NameFoldMatches | OpenGLLevel2New/3dgp/3dgl/3dglModel.cpp:347 | Storing nodes under their names keeps every mapped node carrying its key's name. |
| SceneGraph.NodeMapMatchesNames | OpenGLLevel2New/3dgp/3dgl/3dglModel.cpp:395-396 | Every node in the scene's node map carries the name it is mapped from. |
| SceneGraph.ChannelsLookUpKeys | OpenGLLevel2New/3dgp/3dgl/3dglModel.cpp:409-416 | The channel loop creates entries for exactly the nodes the channels' names resolve to, the null node for unknown names included. |
| SceneGraph.ChannelsLookUp | OpenGLLevel2New/3dgp/3dgl/3dglModel.cpp:409-416 | The entries the channel loop leaves: channel index and bone id under each channel's resolved node, later channels overwriting. `SceneGraph.ChannelsLookUpKeys` and `SceneGraph.ChannelsLookUpEntries` state its keys and entries. |
| SceneGraph.ClipReadyAt | OpenGLLevel2New/3dgp/3dgl/3dglModel.cpp:610-645 | Every track of every channel of the clip is interpolable at the given time. `Models.Model.GetAnimData` and `Models.Model.Animate` require it of the clip they evaluate. |
| SceneGraph.ChannelsLookUpEntries | OpenGLLevel2New/3dgp/3dgl/3dglModel.cpp:409-416 | Channel c's node gets (c, its bone id or 99999) unless a later channel resolves to the same node. |
| SceneGraph.ChannelsLookUpSameResolve | OpenGLLevel2New/3dgp/3dgl/3dglModel.cpp:412 | The null nodes that `mymap[...]` inserts for unknown names do not change the channel entries. |
| SceneGraph.WithNames | OpenGLLevel2New/3dgp/3dgl/3dglModel.cpp:412 | After `operator[]` look-ups, the keys are the old keys plus the looked-up names. Each maps to its old node, or to null if it was unknown. |
| SceneGraph.WithNamesResolve | OpenGLLevel2New/3dgp/3dgl/3dglModel.cpp:412 | Look-ups change no name's resolution and keep mapped nodes carrying their names. |
| SceneGraph.WithNamesTwice | OpenGLLevel2New/3dgp/3dgl/3dglModel.cpp:412 | Looking up a, then b, equals looking up a ∪ b, as happens across successive clips. |
| SceneGraph.WithNamesAdd | OpenGLLevel2New/3dgp/3dgl/3dglModel.cpp:412 | One more look-up adds the name as the null node when it is unknown and changes nothing otherwise. |
| SceneGraph.ChannelNamesSnoc | OpenGLLevel2New/3dgp/3dgl/3dglModel.cpp:409-411 | One more channel adds its node name to the looked-up names. |
| SceneGraph.ChannelsLookUpSnoc | OpenGLLevel2New/3dgp/3dgl/3dglModel.cpp:415 | One more channel overwrites its node's entry with (c, bone id or 99999). |
| SceneGraph.NamesUpToCovers | OpenGLLevel2New/3dgp/3dgl/3dglModel.cpp:398-412 | The names looked up by the first k clips include each of those clips' channel names. |
| SceneGraph.RestEntryOfNode | OpenGLLevel2New/3dgp/3dgl/3dglModel.cpp:419-427 | In a complete table, a mapped node that no channel animates has the entry (0xffff, the bone id of its own name, or 99999). |
| SceneGraph.LookUpComplete | OpenGLLevel2New/3dgp/3dgl/3dglModel.cpp:409-428 | A complete table for one clip: the channel entries, plus (0xffff, the bone id of a name mapped to the node, or 99999) for every other node of the node map. `Models.Model.CompleteLookUp` and `Models.Model.BuildLookUp` establish it. |
| Bones.FindBone | OpenGLLevel2New/3dgp/3dgl/3dglModel.cpp:544-551 | `getBone` returns true exactly for a registered name, and then gives its id. Otherwise it leaves `id` as passed in. |
| Bones.BoneId | OpenGLLevel2New/3dgp/3dgl/3dglModel.cpp:553-559 | The id `getOrAddBone` gives a name: its registered id, or the registry's size when it is new. `Models.Model.GetOrAddBone` returns it. |
| Bones.Registered | OpenGLLevel2New/3dgp/3dgl/3dglModel.cpp:553-561 | The registry after `getOrAddBone` for each bone in turn. `Bones.RegisteredConsistent`, `Bones.RegisteredKeepsIds` and `Bones.RegisteredHasAll` state that ids stay dense and distinct, old ids are kept, and every bone gets one. |
| Bones.Names | OpenGLLevel2New/3dgp/3dgl/3dglModel.cpp:249 | The names appended are the bones' names, in order. |
| Bones.Offsets | OpenGLLevel2New/3dgp/3dgl/3dglModel.cpp:248 | The offsets appended are the bones' offset matrices, in order. |
| Bones.RegisteredConsistent | OpenGLLevel2New/3dgp/3dgl/3dglModel.cpp:244-250 | Registering bones and appending the new ones' names keeps the map and the name list inverse. Ids are 0, 1, 2, … in first-seen order, and there is one name per id. |
| Bones.RegistryAppend | OpenGLLevel2New/3dgp/3dgl/3dglModel.cpp:558-559 | Adding an unknown name under id = map size and appending it to the names keeps the registry consistent. |
| Bones.RegisteredKeepsIds | OpenGLLevel2New/3dgp/3dgl/3dglModel.cpp:555-556 | A registered name keeps its id through any further registrations. |
| Bones.RegisteredHasAll | OpenGLLevel2New/3dgp/3dgl/3dglModel.cpp:553-561 | After registration, every bone met is a key of the map. |
| Bones.RegisteredAppend | OpenGLLevel2New/3dgp/3dgl/3dglModel.cpp:241-245 | Registering a + b is registering a, then b. |
| Bones.AddedAppend | OpenGLLevel2New/3dgp/3dgl/3dglModel.cpp:245-250 | The bones new in a + b are those new in a, followed by those of b that are new after a. |
| Bones.NamesAppend | OpenGLLevel2New/3dgp/3dgl/3dglModel.cpp:248-249 | Names and offsets of a concatenation are the concatenations. |
| Bones.ZeroSlots | OpenGLLevel2New/3dgp/3dgl/3dglModel.cpp:232-233 | A cleared vertex has the 4-id, 4-weight slot shape. |
| Bones.FirstFreeSlot | OpenGLLevel2New/3dgp/3dgl/3dglModel.cpp:256-258 | The slot found has weight 0 and every slot before it has a non-zero weight. The result is the slot count when no slot is free. |
| Bones.PlaceWeight | OpenGLLevel2New/3dgp/3dgl/3dglModel.cpp:259-265 | Storing a weight keeps the 4-slot shape. |
| Bones.PlaceWeightSlot | OpenGLLevel2New/3dgp/3dgl/3dglModel.cpp:256-265 | (id, weight) goes into the first zero-weight slot and no other slot changes. When all 4 weights are non-zero nothing is written. |
| Bones.PlaceWeights | OpenGLLevel2New/3dgp/3dgl/3dglModel.cpp:253-266 | Storing a bone's weights keeps the vertex count and every vertex's 4-slot shape. |
| Bones.FillSlots | OpenGLLevel2New/3dgp/3dgl/3dglModel.cpp:241-267 | Filling for all bones of a mesh keeps the vertex count and the slot shape. |
| Bones.FillSlotsSnoc | OpenGLLevel2New/3dgp/3dgl/3dglModel.cpp:241-266 | One more bone stores its weights under the id the registry gives it after the earlier bones. |
| Bones.PlaceWeightsOtherVertex | OpenGLLevel2New/3dgp/3dgl/3dglModel.cpp:253-266 | A vertex that none of a bone's weights names keeps its slots. |
| Pose.WriteSlot | OpenGLLevel2New/3dgp/3dgl/3dglModel.cpp:681 | `memcpy` into slot b replaces entries 16b .. 16b+15 with the matrix and keeps every other entry. |
| Pose.NodeTransform | OpenGLLevel2New/3dgp/3dgl/3dglModel.cpp:649-674 | The transform a node hands its children: t·T·R·S from the interpolated keys for an animated node, t·its own transformation when its channel index is out of range, the identity when it has no look-up entry. `Pose.ChannelFallback` and `Pose.UnlookedNodeIgnoresParent` state the last two cases. |
| Pose.SkinningMatrix | OpenGLLevel2New/3dgp/3dgl/3dglModel.cpp:680 | The matrix stored for bone b: the transpose of globInvT · transform · offset_b. `Pose.WalkWritesBone` shows every bone node writes it. |
| Pose.Walk | OpenGLLevel2New/3dgp/3dgl/3dglModel.cpp:647-687 | The walk keeps the buffer's length. |
| Pose.Visit | OpenGLLevel2New/3dgp/3dgl/3dglModel.cpp:677-682 | Visiting one node keeps the buffer's length. |
| Pose.WalkChildren | OpenGLLevel2New/3dgp/3dgl/3dglModel.cpp:685-686 | Walking the children keeps the buffer's length. |
| Pose.BonesMet | OpenGLLevel2New/3dgp/3dgl/3dglModel.cpp:677-678 | Every bone id the walk writes is below the bone count, so 99999 is never written. |
| Pose.BonesMetChildren | OpenGLLevel2New/3dgp/3dgl/3dglModel.cpp:685-686 | Every bone id written below a node is below the bone count. |
| Pose.WalkFrame | OpenGLLevel2New/3dgp/3dgl/3dglModel.cpp:677-686 | Every buffer entry outside the slots of the bones the walk meets keeps its prior content. |
| Pose.WalkChildrenFrame | OpenGLLevel2New/3dgp/3dgl/3dglModel.cpp:685-686 | The same for the walk over a node's children. |
| Pose.WalkWritesBone | OpenGLLevel2New/3dgp/3dgl/3dglModel.cpp:677-682 | Suppose no descendant writes a bone node's bone again. Then its slot ends holding transpose(globInvT · transform · offset). |
| Pose.VisitedBoneKept | OpenGLLevel2New/3dgp/3dgl/3dglModel.cpp:680-686 | A bone slot written at a node survives the walk over its children when they do not write that bone. |
| Pose.UnlookedNodeIgnoresParent | OpenGLLevel2New/3dgp/3dgl/3dglModel.cpp:649-652 | A node absent from the look-up table hands the identity to its children, whatever transform it received. |
| Pose.ChannelFallback | OpenGLLevel2New/3dgp/3dgl/3dglModel.cpp:673-674 | A node whose channel index is ≥ the channel count, 0xffff included, uses `t * mTransformation`. |
| Pose.Resize | OpenGLLevel2New/3dgp/3dgl/3dglModel.cpp:691 | `resize` gives length n, keeps the old entries below n and zero-fills the rest. |
| Pose.IdentitySlots | OpenGLLevel2New/3dgp/3dgl/3dglModel.cpp:694-697 | n slots of 16 floats, each slot the identity matrix. |
| Pose.FModRange | OpenGLLevel2New/3dgp/3dgl/3dglModel.cpp:703 | `fmod` leaves a remainder smaller in magnitude than y, with the sign of x, differing from x by a whole multiple of y. |
| Pose.RemainderIsFraction | OpenGLLevel2New/3dgp/3dgl/3dglModel.cpp:703 | The `fmod` remainder is the fractional part of x / y times y. |
| Pose.TruncBounds | OpenGLLevel2New/3dgp/3dgl/3dglModel.cpp:703 | Truncation toward zero drops less than one. |
| Pose.QuotientSign | OpenGLLevel2New/3dgp/3dgl/3dglModel.cpp:703 | x / y ≥ 0 if and only if x is zero or has y's sign. |
| Pose.AnimTimeInClip | OpenGLLevel2New/3dgp/3dgl/3dglModel.cpp:701-703 | For a non-negative time, a positive duration and non-negative ticks per second (25 used when it is 0), the clip time lies in [0, duration). |
| Pose.TicksPerSecond | OpenGLLevel2New/3dgp/3dgl/3dglModel.cpp:701-702 | A clip's ticks per second, 25 when the file gives 0. `Pose.AnimTimeInClip` uses it. |
| Pose.AnimTime | OpenGLLevel2New/3dgp/3dgl/3dglModel.cpp:701-703 | The clip time: `fmod` of time · ticks per second by the duration. `Pose.AnimTimeInClip` bounds it. |
| Bounds.Merge | OpenGLLevel2New/3dgp/3dgl/3dglModel.cpp:574-579 | Each axis of a merge is the as-written per-axis update: the minimum first, then the maximum tested against the new minimum. |
| Bounds.MergeAxis | OpenGLLevel2New/3dgp/3dgl/3dglModel.cpp:574-579 | One axis of the merge as written: the minimum is lowered first, then the maximum is replaced when the new value exceeds the new minimum. `Bounds.MeshBoxMissesMaximum` shows the consequence. |
| Bounds.MergeFixed | OpenGLLevel2New/3dgp/3dgl/3dglModel.cpp:574-579 | Each axis is the corrected update, which tests the maximum against the maximum. |
| Bounds.MergeAllAppend | OpenGLLevel2New/3dgp/3dgl/3dglModel.cpp:568-583 | Merging a + b is merging a, then b. |
| Bounds.PointBoxes | OpenGLLevel2New/3dgp/3dgl/3dglModel.cpp:48-55 | Each vertex becomes the degenerate box at that vertex, in order. |
| Bounds.MeshBox | OpenGLLevel2New/3dgp/3dgl/3dglModel.cpp:47-56 | A mesh's box: both corners start at the first vertex and every vertex is merged in. `Bounds.MeshBoxLo` and `Bounds.MeshBoxFixedHi` state its corners. |
| Bounds.MergeAllLo | OpenGLLevel2New/3dgp/3dgl/3dglModel.cpp:50-52 | The minimum corner is the least of the start and all merged minima, attained by one of them. The as-written and corrected merges agree on it. |
| Bounds.MergeAllFixedHi | OpenGLLevel2New/3dgp/3dgl/3dglModel.cpp:577-579 | With the corrected test, the maximum corner is the greatest of the start and all merged maxima, attained by one of them. |
| Bounds.MergeAllHi | OpenGLLevel2New/3dgp/3dgl/3dglModel.cpp:577-579 | As written, the maximum corner only ever takes a merged maximum or keeps its start value. It stays ≥ the minimum corner when every box had lo ≤ hi. |
| Bounds.MeshBoxLo | OpenGLLevel2New/3dgp/3dgl/3dglModel.cpp:47-52 | A mesh box's minimum corner is the least vertex coordinate on each axis, and it is ≤ the maximum corner. |
| Bounds.MeshBoxFixedHi | OpenGLLevel2New/3dgp/3dgl/3dglModel.cpp:53-55 | With the corrected test, the maximum corner is the greatest vertex coordinate on each axis. |
| Bounds.MeshBoxMissesMaximum | OpenGLLevel2New/3dgp/3dgl/3dglModel.cpp:53-55 | With x coordinates 0, 5, 3 the as-written scan ends with max x = 3. The corrected scan gives 5. |
| Bounds.NodeBoxes | OpenGLLevel2New/3dgp/3dgl/3dglModel.cpp:568-573 | A node's mesh boxes, in order, with both corners transformed by the accumulated matrix. |
| Bounds.Visits | OpenGLLevel2New/3dgp/3dgl/3dglModel.cpp:563-587 | The boxes the tree walk merges, in order: each node's mesh boxes under the product of the transformations from the root, in pre-order. `Models.Model.GetBBNode` is proved against it. |
| Bounds.EmptyBox | OpenGLLevel2New/3dgp/3dgl/3dglModel.cpp:594-595 | The starting box: minimum corner 1e10 and maximum corner −1e10 on every axis. `Bounds.FlatMeshKeepsStartMaximum` uses it. |
| Bounds.FlatMeshKeepsStartMaximum | OpenGLLevel2New/3dgp/3dgl/3dglModel.cpp:577-579 | Take a single mesh flat along y, starting from the ±1e10 box. As written, the maximum y stays at -1e10; corrected, it is the mesh's y. |
| Naming.LastIndexIn | OpenGLLevel2New/3dgp/3dgl/3dglModel.cpp:33 | `find_last_of`: the result is -1 or a position holding one of the characters, and no later position holds one. |
| Naming.BaseName | OpenGLLevel2New/3dgp/3dgl/3dglModel.cpp:33-34 | Everything after the last '/' or '\\', or the whole path. `Naming.BaseNameSplit` states it. |
| Naming.StripExtension | OpenGLLevel2New/3dgp/3dgl/3dglModel.cpp:35-36 | Everything before the last '.', or the whole name. `Naming.StripExtensionSplit` states it. |
| Naming.ModelName | OpenGLLevel2New/3dgp/3dgl/3dglModel.cpp:32-36 | The model name: the base name with the extension removed. `Naming.ModelNameShape` and `Naming.ModelNameOfFile` state it. |
| Naming.DisplayName | OpenGLLevel2New/3dgp/3dgl/3dglModel.cpp:599-605 | Empty exactly for an empty name. Otherwise the name is wrapped in "Model (" … ")", 8 characters longer. |
| Naming.ModelNameShape | OpenGLLevel2New/3dgp/3dgl/3dglModel.cpp:32-36 | The model name holds no '/' or '\\'. The path is a directory part ending in a separator (or empty), then the name, then an extension starting with '.' (or empty). |
| Naming.BaseNameSplit | OpenGLLevel2New/3dgp/3dgl/3dglModel.cpp:33-34 | The path is a directory part ending in a separator, or nothing, followed by a base name that holds no separator. |
| Naming.StripExtensionSplit | OpenGLLevel2New/3dgp/3dgl/3dglModel.cpp:35-36 | The name is the stripped name followed by nothing or by a piece starting with '.'. |
| Naming.ModelNameOfFile | OpenGLLevel2New/3dgp/3dgl/3dglModel.cpp:32-36 | Round trip: `dir/stem.ext` (stem without separators, ext without '.' or separators) yields `stem`. |
| Naming.LastIndexAfter | OpenGLLevel2New/3dgp/3dgl/3dglModel.cpp:33 | A searched character ending s is the last one in s + t when t holds none. |
| BufferMask.SetBitBits | OpenGLLevel2New/3dgp/3dgl/3dglModel.cpp:456-462 | `enableBufData` makes bit b the requested value and keeps every other bit. |
| BufferMask.SetBit | OpenGLLevel2New/3dgp/3dgl/3dglModel.cpp:458-462 | `enableBufData`: the mask with bit b set or cleared. `BufferMask.SetBitBits` states its bits. |
| BufferMask.DistinctBits | OpenGLLevel2New/3dgp/3dgl/3dglModel.cpp:459-461 | The masks `1 << b` and `1 << k` of different buffers share no bit. |
| Models.ZeroSlotsFor | OpenGLLevel2New/3dgp/3dgl/3dglModel.cpp:231-233 | `resize` plus `memset` give one cleared 4-slot entry per vertex. |
| Models.CreatedMeshes | OpenGLLevel2New/3dgp/3dgl/3dglModel.cpp:356-359 | One mesh is created per imported mesh. |
| Models.CreatedMeshAt | OpenGLLevel2New/3dgp/3dgl/3dglModel.cpp:356-359 | Mesh k has the box and centre of its own vertices. Its slots are filled with the ids of the registry left by meshes 0 .. k-1. |
| Models.CreatedMeshesSnoc | OpenGLLevel2New/3dgp/3dgl/3dglModel.cpp:356-359 | One more mesh appends its data, made with the registry the earlier meshes left. Its bones are registered after theirs, and the names and offsets of its new bones follow theirs. |
| Models.FindFreeSlot | OpenGLLevel2New/3dgp/3dgl/3dglModel.cpp:256-258 | The `while` search returns the first zero-weight slot, or 4. |
| Models.ScanBoundingBox | OpenGLLevel2New/3dgp/3dgl/3dglModel.cpp:47-55 | The vertex loop produces the as-written mesh box, starting from the first vertex. |
| Models.MergeInto | OpenGLLevel2New/3dgp/3dgl/3dglModel.cpp:574-579 | The six updates of `BB[0]` and `BB[1]` leave the as-written merge of the old box with the mesh box. |
| Models.FillIdentity | OpenGLLevel2New/3dgp/3dgl/3dglModel.cpp:695-697 | The loop writes the identity into every 16-float slot. |
| Models.SlotOffset | OpenGLLevel2New/3dgp/3dgl/3dglModel.cpp:681 | Entry k of slot b is entry k - 16b of the matrix. |
| Models.CopySlot | OpenGLLevel2New/3dgp/3dgl/3dglModel.cpp:681 | The `memcpy` replaces slot b of the buffer with the matrix and keeps every other entry. |
| Models.BuildNodeMap | OpenGLLevel2New/3dgp/3dgl/3dglModel.cpp:345-350 | The recursive `__createMap` produces the node map the specification function defines. |
| Models.StoreWeights | OpenGLLevel2New/3dgp/3dgl/3dglModel.cpp:253-266 | The weight loop on the slot array leaves the slots the specification function defines. |
| Models.Model.GetOrAddBone | OpenGLLevel2New/3dgp/3dgl/3dglModel.cpp:553-561 | A known name returns true with the stored id and leaves the map unchanged. A new name returns false with id = old map size, and the map grows by exactly that entry. Nothing else changes. |
| Models.Model.RegisterBone | OpenGLLevel2New/3dgp/3dgl/3dglModel.cpp:244-250 | The registry stays consistent. The offset and name are appended only for a new bone. |
| Models.Model.AddBone | OpenGLLevel2New/3dgp/3dgl/3dglModel.cpp:241-266 | One bone is registered and its weights are stored under its id. |
| Models.Model.FillBoneSlots | OpenGLLevel2New/3dgp/3dgl/3dglModel.cpp:231-267 | All bones are registered (offsets and names appended for new ones) and the slots are those the specification function defines. The registry stays consistent. |
| Models.Model.CreateMesh | OpenGLLevel2New/3dgp/3dgl/3dglModel.cpp:41-267 | Creating a mesh yields its box, its centre and its bone slots. The registry grows only with bone attributes. |
| Models.Model.Create | OpenGLLevel2New/3dgp/3dgl/3dglModel.cpp:352-363 | Every mesh is created in order. `globInvT` is the root's inverse transform. The registry and names grow with the meshes' new bones. |
| Models.Model.CreateMeshes | OpenGLLevel2New/3dgp/3dgl/3dglModel.cpp:356-359 | The meshes are created in order, each seeing the bone registry the ones before it left. The result is the specification sequence `CreatedMeshes`. The registry, names and offsets end as `RegistryAfter` and the appended new bones say, and nothing else changes. |
| Models.Model.ChannelLookUp | OpenGLLevel2New/3dgp/3dgl/3dglModel.cpp:408-416 | The channel loop produces the channel entries and adds each looked-up name to the node map. |
| Models.Model.CompleteLookUp | OpenGLLevel2New/3dgp/3dgl/3dglModel.cpp:418-428 | Every mapped node without an entry gets (0xffff, the bone id of a name mapped to it, or 99999). Existing entries are kept. |
| Models.Model.BuildLookUp | OpenGLLevel2New/3dgp/3dgl/3dglModel.cpp:405-428 | One clip's table is complete over the node map the channel loop left. |
| Models.Model.LoadAnimations | OpenGLLevel2New/3dgp/3dgl/3dglModel.cpp:380-431 | Returns 0 and appends nothing without a scene, clips or bones. Otherwise it appends one complete table per clip and returns the clip count. Nothing else changes. |
| Models.Model.LookUpTables | OpenGLLevel2New/3dgp/3dgl/3dglModel.cpp:395-429 | Builds the node map once, and each clip's table over it as the earlier clips left it. |
| Models.Model.ComputeNodeTransform | OpenGLLevel2New/3dgp/3dgl/3dglModel.cpp:649-674 | The transform a node hands to its children is the specification's node transform. Animated nodes give t·T·R·S from the interpolated keys, out-of-range channels give t times the node's own transformation, and nodes without an entry give the identity. |
| Models.Model.StoreSkinningMatrix | OpenGLLevel2New/3dgp/3dgl/3dglModel.cpp:677-682 | A bone node's slot receives transpose(globInvT · transform · offset). Any other node leaves the buffer unchanged. |
| Models.Model.ReadNodeHierarchy | OpenGLLevel2New/3dgp/3dgl/3dglModel.cpp:647-687 | The recursive walk leaves the buffer equal to the specification walk. |
| Models.Model.GetAnimData | OpenGLLevel2New/3dgp/3dgl/3dglModel.cpp:689-708 | Without the clip, the result is identity slots, one per bone or one for no bones. With it, the old buffer is resized to 16 floats per bone and walked at the reduced time. |
| Models.Model.Animate | OpenGLLevel2New/3dgp/3dgl/3dglModel.cpp:701-706 | The time is reduced to the clip, then the buffer is walked from the root with the identity. |
| Models.Model.GetBBNode | OpenGLLevel2New/3dgp/3dgl/3dglModel.cpp:563-587 | The box becomes the as-written merge of every mesh box in pre-order, transformed by the accumulated transform. Every child is walked with this node's accumulated transform. |
| Models.Model.GetBB | OpenGLLevel2New/3dgp/3dgl/3dglModel.cpp:589-597 | Starting from the ±1e10 box and the identity, the box is the merge over the whole tree. |
| Models.Model.EnableBufData | OpenGLLevel2New/3dgp/3dgl/3dglModel.cpp:456-462 | The mask's bit is set or cleared as requested. Nothing else changes. |
| Models.Model.Load | OpenGLLevel2New/3dgp/3dgl/3dglModel.cpp:23-39 | A failed import returns false, and every field is unchanged, the bone registry, names and offsets included. A successful import names the model after the file's base name without extension. It then creates the scene with everything `Create` promises: the meshes, the registry after them, the appended bone names and offsets (only with bone attributes), and `globInvT`. The mask and the clips are unchanged. |
| Models.Model.GetName | OpenGLLevel2New/3dgp/3dgl/3dglModel.cpp:599-605 | Returns the display name of the model's name. |
| Terrain.CellIndexBelow | OpenGLLevel2New/3dgp/3dgl/3dglTerrain.cpp:25 | For i < sx and k < sz, the entry i·sz + k lies below sx·sz. |
| Terrain.ColumnStartIs | OpenGLLevel2New/3dgp/3dgl/3dglTerrain.cpp:25 | Column i starts at entry i·sz. |
| Terrain.ColumnEntryBelow | OpenGLLevel2New/3dgp/3dgl/3dglTerrain.cpp:23-25 | An in-range (x, z) reads an entry inside the height array. |
| Terrain.ColumnMajor | OpenGLLevel2New/3dgp/3dgl/3dglTerrain.cpp:113-121 | Entry i·sz + k (k < sz) is column i, row k. |
| Terrain.PixelIndexBelow | OpenGLLevel2New/3dgp/3dgl/3dglTerrain.cpp:116-118 | The byte index (i + j·sizeX)·4 of an in-range pixel, and its three following bytes, lie inside the RGBA bitmap. |
| Terrain.MinCoord | OpenGLLevel2New/3dgp/3dgl/3dglTerrain.cpp:152-153 | The lowest grid coordinate, −(size/2) with C's division toward zero. `Terrain.Terrain.GridPointAt` places grid points from it. |
| Terrain.PixelHeight | OpenGLLevel2New/3dgp/3dgl/3dglTerrain.cpp:116-120 | The height read from pixel (i, j): its red byte over 256, times the scale. |
| Terrain.HeightAt | OpenGLLevel2New/3dgp/3dgl/3dglTerrain.cpp:113-121 | Entry n of the collected heights: column n/sz, read from bitmap row sz − 1 − n mod sz. `Terrain.EntryOfPixel` locates the entry of every pixel. |
| Terrain.EntryOfPixel | OpenGLLevel2New/3dgp/3dgl/3dglTerrain.cpp:113-120 | Pixel (i, j) is pushed as entry i·sizeZ + (sizeZ-1-j), and that entry's specified height is the pixel's. |
| Terrain.CollectedHeights | OpenGLLevel2New/3dgp/3dgl/3dglTerrain.cpp:111-121 | Height collection yields exactly sizeX·sizeZ heights. |
| Terrain.SquareRootPositive | OpenGLLevel2New/3dgp/3dgl/3dglTerrain.cpp:168 | A true square root is positive on every argument ≥ 4, which is all the normal length needs. |
| Terrain.NormalLength | OpenGLLevel2New/3dgp/3dgl/3dglTerrain.cpp:168 | `m = sqrt(dy_x² + 4 + dy_z²)` is never zero. |
| Terrain.NormalVector | OpenGLLevel2New/3dgp/3dgl/3dglTerrain.cpp:169-171 | The normal has three components. |
| Terrain.UnitNormal | OpenGLLevel2New/3dgp/3dgl/3dglTerrain.cpp:166-171 | With a true square root, `(-dy_x/m, 2/m, -dy_z/m)` has unit length and points up. |
| Terrain.PointStreams | OpenGLLevel2New/3dgp/3dgl/3dglTerrain.cpp:157-181 | A grid point emits 3 vertex, 3 normal, 2 texture and 6 line floats. |
| Terrain.PointNormalLine | OpenGLLevel2New/3dgp/3dgl/3dglTerrain.cpp:157-181 | The vertex is (x, height, z), the normal is the unit normal, and the line runs from the vertex to vertex + normal. |
| Terrain.Lower | OpenGLLevel2New/3dgp/3dgl/3dglTerrain.cpp:161-163 | The lower neighbour stays in [min, c] and equals c exactly on the grid's first line. |
| Terrain.Upper | OpenGLLevel2New/3dgp/3dgl/3dglTerrain.cpp:162-164 | The upper neighbour stays in [c, min+size-1] and equals c exactly on the grid's last line. |
| Terrain.Column | OpenGLLevel2New/3dgp/3dgl/3dglTerrain.cpp:155 | The inner loop visits (x, minz + k) for k = 0 .. sizeZ-1. |
| Terrain.CellIndices | OpenGLLevel2New/3dgp/3dgl/3dglTerrain.cpp:221-227 | Six indices per cell. The two triangles share the diagonal x·sz+z+1 and (x+1)·sz+z. |
| Terrain.RowIndices | OpenGLLevel2New/3dgp/3dgl/3dglTerrain.cpp:219-227 | The indices of the cells of one row. `Terrain.RowIndicesLength` and `Terrain.RowIndicesBelow` state their count and bound. |
| Terrain.GridIndices | OpenGLLevel2New/3dgp/3dgl/3dglTerrain.cpp:218-228 | The indices of all rows, each of w cells. `Terrain.GridIndicesLength`, `Terrain.GridIndicesBelow` and `Terrain.GridIndexBuffer` state their count and bound. |
| Terrain.RowIndicesLength | OpenGLLevel2New/3dgp/3dgl/3dglTerrain.cpp:219-228 | A row of w cells gives 6w indices. |
| Terrain.GridIndicesLength | OpenGLLevel2New/3dgp/3dgl/3dglTerrain.cpp:218-228 | h rows of w cells give 6wh indices. |
| Terrain.RowIndicesBelow | OpenGLLevel2New/3dgp/3dgl/3dglTerrain.cpp:219-227 | Every index of a row of w cells names one of the first (w+1)·sz points. |
| Terrain.GridIndicesBelow | OpenGLLevel2New/3dgp/3dgl/3dglTerrain.cpp:218-227 | The same bound holds for all rows. |
| Terrain.GridIndexBuffer | OpenGLLevel2New/3dgp/3dgl/3dglTerrain.cpp:217-228 | There are exactly (sizeX-1)·(sizeZ-1)·6 indices, the draw call's count, and every one is below sizeX·sizeZ. |
| Terrain.TriangleContainsPoint | OpenGLLevel2New/3dgp/3dgl/3dglTerrain.cpp:87-94 | The fractional parts lie in [0, 1). The lower-left triangle is chosen if and only if fx + fz < 1. The point lies in the chosen triangle. |
| Terrain.TriangleAt | OpenGLLevel2New/3dgp/3dgl/3dglTerrain.cpp:87-94 | The three grid corners interpolated at (fx, fz): the lower-left triangle when the fractional parts sum below 1, the upper-right one otherwise. `Terrain.TriangleContainsPoint` states this. |
| Terrain.Terrain.constructor | OpenGLLevel2New/3dgp/3dgl/3dglTerrain.cpp:13-17 | A new terrain has sizes 0, scale 1 and no heights. |
| Terrain.Terrain.Height | OpenGLLevel2New/3dgp/3dgl/3dglTerrain.cpp:19-26 | The result is 0 whenever x + sizeX/2 or z + sizeZ/2 falls outside the grid. Which entry an in-grid point reads is stated by `HeightOfPixel` and `VertexOrderMatchesHeights`. |
| Terrain.Terrain.InterpolatedHeight | OpenGLLevel2New/3dgp/3dgl/3dglTerrain.cpp:85-95 | The blend is fed the fractional parts and, for each corner of the chosen triangle, its offset in the cell and its height. |
| Terrain.Terrain.LoadHeights | OpenGLLevel2New/3dgp/3dgl/3dglTerrain.cpp:105-121 | The sizes become width and the absolute value of the bitmap height, and the heights are those the bitmap defines. |
| Terrain.Terrain.CollectColumns | OpenGLLevel2New/3dgp/3dgl/3dglTerrain.cpp:111-121 | The nested loops, with j descending, collect exactly the defined heights, using byte index (i + j·sizeX)·4. |
| Terrain.Terrain.HeightOfPixel | OpenGLLevel2New/3dgp/3dgl/3dglTerrain.cpp:113-121 | After loading, the height at (minx + i, minz + k) is the red byte of pixel (i, sizeZ-1-k) over 256, times the scale. |
| Terrain.Terrain.GridPointsSnoc | OpenGLLevel2New/3dgp/3dgl/3dglTerrain.cpp:154-155 | One more outer iteration appends column x's points. |
| Terrain.Terrain.EmittedLength | OpenGLLevel2New/3dgp/3dgl/3dglTerrain.cpp:157-181 | The streams hold 3, 3, 2 and 6 floats per point. |
| Terrain.Terrain.GridPointsLength | OpenGLLevel2New/3dgp/3dgl/3dglTerrain.cpp:154-155 | The loops visit sizeX·sizeZ points. |
| Terrain.Terrain.GridPointAt | OpenGLLevel2New/3dgp/3dgl/3dglTerrain.cpp:152-155 | Visited point i·sizeZ + k is (minx + i, minz + k). |
| Terrain.Terrain.VertexOrderMatchesHeights | OpenGLLevel2New/3dgp/3dgl/3dglTerrain.cpp:154-158 | Vertex number i·sizeZ + k, which the indices name, has the height stored at entry i·sizeZ + k. |
| Terrain.Terrain.EmittedSnoc | OpenGLLevel2New/3dgp/3dgl/3dglTerrain.cpp:156-182 | One more point appends its floats to each stream. |
| Terrain.Terrain.Slopes | OpenGLLevel2New/3dgp/3dgl/3dglTerrain.cpp:161-167 | The ternary neighbours give the clamped height differences. |
| Terrain.Terrain.PointData | OpenGLLevel2New/3dgp/3dgl/3dglTerrain.cpp:157-181 | The loop body pushes exactly the point's stream floats. |
| Terrain.Terrain.EmittedAppend | OpenGLLevel2New/3dgp/3dgl/3dglTerrain.cpp:154-182 | Emitting a + b is emitting a, then b. |
| Terrain.Terrain.ColumnSnoc | OpenGLLevel2New/3dgp/3dgl/3dglTerrain.cpp:155 | One more inner iteration appends point (x, z). |
| Terrain.Terrain.ColumnData | OpenGLLevel2New/3dgp/3dgl/3dglTerrain.cpp:155-182 | The inner loop emits the streams of column x's points. |
| Terrain.Terrain.BuildVertexData | OpenGLLevel2New/3dgp/3dgl/3dglTerrain.cpp:148-182 | The vertex loops emit the streams of all grid points, column by column. |
| Terrain.Terrain.VertexDataLength | OpenGLLevel2New/3dgp/3dgl/3dglTerrain.cpp:148-182 | The streams hold 3, 3, 2 and 6 floats per grid point, sizeX·sizeZ points in all. |
| Terrain.Terrain.BuildIndices | OpenGLLevel2New/3dgp/3dgl/3dglTerrain.cpp:217-228 | The index loops, z outer and x inner, produce the defined index list. |
| Terrain.Terrain.LoadHeightmap | OpenGLLevel2New/3dgp/3dgl/3dglTerrain.cpp:100-236 | The terrain gets the bitmap's sizes and heights. It returns the four streams over the grid and the index list. |
| Controls.Clamp | OpenGLLevel2New/3dgp/main.cpp:1358-1360 | `max(lo, min(hi, v))` lies in [lo, hi]. It is v when v is inside the range and the nearer bound otherwise. |
| Controls.ToLower | OpenGLLevel2New/3dgp/main.cpp:1348 | Upper-case ASCII letters map to their lower-case letter, and every other character is kept. |
| Controls.SpeedLimited | OpenGLLevel2New/3dgp/main.cpp:1358-1360 | Every velocity component ends in [-0.5, 0.5]. |
| Controls.Accelerated | OpenGLLevel2New/3dgp/main.cpp:1350-1355 | The key-down switch: a movement key pushes its axis past 1.01 in magnitude, in its direction. `Controls.KeyDownFullSpeed` and `Controls.KeyDownOtherKey` state the result after the clamp. |
| Controls.Orbit | OpenGLLevel2New/3dgp/main.cpp:1352-1362 | The orbit step after a key-down. `Controls.OrbitOnlyWithShift` states it. |
| Controls.Released | OpenGLLevel2New/3dgp/main.cpp:1370-1375 | The key-up switch: releasing a movement key stops its axis. `Controls.KeyUpStopsOneAxis` states it. |
| Controls.Cycle | OpenGLLevel2New/3dgp/main.cpp:1376-1383 | A mode counter advanced by one and wrapped to 0 past `last`. `Controls.CycleInRange`, `Controls.CycleTimesIs` and `Controls.CycleReturns` state its behaviour. |
| Controls.LetterOf | OpenGLLevel2New/3dgp/main.cpp:1393-1398 | The letter a special key is forwarded to: arrows to 'w', 's', 'a', 'd', Page Up to 'q', Page Down to 'e'. `Controls.InputState.SpecDown` and `Controls.InputState.SpecUp` use it. |
| Controls.DayLight | OpenGLLevel2New/3dgp/main.cpp:685-691 | The day/night blend as a piecewise-linear function of the hour. `Controls.DayLightRange` bounds it. |
| Controls.KeyDownSpeedLimit | OpenGLLevel2New/3dgp/main.cpp:1346-1360 | After any key-down, each of cam.x, cam.y and cam.z is in [-0.5, 0.5]. |
| Controls.KeyDownFullSpeed | OpenGLLevel2New/3dgp/main.cpp:1350-1360 | 'w', 'a' and 'e' set z, x and y to exactly 0.5, and 's', 'd' and 'q' set them to exactly -0.5. The other axes are only clamped. |
| Controls.KeyDownOtherKey | OpenGLLevel2New/3dgp/main.cpp:1348-1360 | A non-movement key changes the velocity only by the clamp. |
| Controls.OrbitOnlyWithShift | OpenGLLevel2New/3dgp/main.cpp:1352-1362 | Without Shift the orbit step ends at 0. With Shift, 'a' gives 0.1, 'd' gives -0.1 and other keys keep it. |
| Controls.KeyUpStopsOneAxis | OpenGLLevel2New/3dgp/main.cpp:1370-1375 | Key-up 'w'/'s', 'a'/'d' and 'q'/'e' zero only z, x and y respectively. Other keys leave the velocity alone. |
| Controls.CycleInRange | OpenGLLevel2New/3dgp/main.cpp:1376-1383 | A mode counter in [0, last] stays in [0, last] after a press. |
| Controls.CycleTimesIs | OpenGLLevel2New/3dgp/main.cpp:1376-1383 | Up to last+1 presses count up from the mode and wrap once to 0 past `last`. |
| Controls.CycleReturns | OpenGLLevel2New/3dgp/main.cpp:1376-1383 | last+1 presses bring a mode back: 7 for the post-processing effect, 3 for the character. |
| Controls.DayLightRange | OpenGLLevel2New/3dgp/main.cpp:685-691 | The day/night blend is in [0, 1] at every hour and is symmetric about hour 8. |
| Controls.InputState.constructor | OpenGLLevel2New/3dgp/main.cpp:86-102 | The globals start at no motion, orbit step 0.1, mode 0, character 0 and transition 0. |
| Controls.InputState.KeyDown | OpenGLLevel2New/3dgp/main.cpp:1346-1363 | The velocity becomes the clamped result of the key's push, and the orbit step is set as `Orbit` defines. Nothing else changes. |
| Controls.InputState.KeyUp | OpenGLLevel2New/3dgp/main.cpp:1366-1385 | Releasing a movement key stops its axis. '1' and '2' cycle the effect (0..6) and the character (0..2). Nothing else changes. |
| Controls.InputState.SpecDown | OpenGLLevel2New/3dgp/main.cpp:1388-1401 | The arrow and page keys act as key-down of 'w', 's', 'a', 'd', 'q' and 'e'. Other special keys change nothing modelled. |
| Controls.InputState.SpecUp | OpenGLLevel2New/3dgp/main.cpp:1404-1415 | The arrow and page keys act as key-up of their letters. Other keys change nothing. |
| Controls.InputState.UpdateTransition | OpenGLLevel2New/3dgp/main.cpp:685-691 | The step-by-step clamps give the day/night curve (0, rising to 1 by hour 4, 1 until hour 12, falling to 0 at hour 16), which lies in [0, 1]. Nothing else changes. |
| Controls.InputState.ReflectionPower | OpenGLLevel2New/3dgp/main.cpp:1229-1231 | The power is 0.4 while the transition is ≤ 0.6, and 1 - transition above that. It lies in [0, 0.4] for a transition in [0, 1]. |

## Left out

- **OpenGL and GLUT calls.** Buffer and VAO creation, attribute pointers, uniforms, textures, drawing and fullscreen toggling have no result the model could state. The terrain's buffers are returned as sequences instead of being uploaded.
- **The assimp import and `C3dglBitmap` loading.** Their output is a parameter: the node tree, meshes, clips, and the bitmap's size and bytes.
  - `MESH::create`'s odd face/vertex guard is taken as a precondition: at least one vertex, weights naming existing vertices.
  - The shader's support for bone attributes is a boolean parameter.
- **Matrix and quaternion numerics.**
  - The inverse of the root transform is a parameter of `Create`.
  - SLERP with normalisation is a parameter of the rotation interpolation.
  - Products, transposes and translation/scaling matrices are computed on exact reals.
- **Single-precision rounding.** All floats are exact reals: key times, weights, heights, the `1.05f`, `1.01f`, `0.6f` and `0.4f` constants, and `fmod`.
- **Terrain normals.** The square root is a parameter. `Terrain.UnitNormal` proves unit length only for a true square root.
- **`barycent`, `triarea`, `dist` and the unused `barycentric`.** These are floating-point geometry. The blend is a parameter of `InterpolatedHeight`, and only the choice of triangle and corners is modelled.
- **`getInterpolatedHeight`'s final `return m_heights[z * m_nSizeX + x]`.** It is unreachable after the `if`/`else` and is not modelled.
- **`storeAsOBJ` and `storeAsRAW`.** These are file output.
  - OBJ faces are written 0-based, although Wavefront OBJ is 1-based.
  - `storeAsRAW` indexes `j + i*sizeX`, which matches the `x*sizeZ + z` layout only for square grids.
- **The bone-weight sum check (weights within 0.001 of 1).** It only logs a warning, so it is not modelled.
- **Logging.** Every `logInfo`, `logWarning` and `logError` call is I/O.
- **Materials, mesh index buffers, `destroy`, the `render*` functions and `getNodeTransform`.** These are rendering and resource management. The rendering bounds check in `render(iNode, ...)` uses `<=`, an off-by-one that is rendering-only and not modelled.
- **`loadAnimations(const char*)`.** It loads an auxiliary model from a file. `LoadAnimations` takes the compatible model as an argument instead.
- **The order of the "rest of the nodes" loop.** It runs in `std::map` key order. The model states the result for every order, because an entry is only added when it is absent.
- **`C3dglModel`'s member initialisation.** It is in the class header, which is not part of this model. The `Model` constructor starts from an empty model: no name, mask 0, no scene, meshes, bones or animations.
- **`hasAnim(i)` and `getBoneCount()`.** Their definitions are not part of this model. They are taken as `i < animations.size()` and the number of bone offsets.
- **A clip duration of 0, and a zero span between the first two keys.**
  - With a zero duration, `fmod` gives NaN.
  - When the time precedes the second key and the first two keys share their time, `Interpolate` divides by zero and yields infinite or NaN components.
  - Exact reals have neither, so `Models.Model.GetAnimData` and `Models.Model.Animate` require a non-zero duration and tracks that are `Keyframes.Interpolable` at the reduced time.
  - Repeated key times anywhere else, and key times in any order, are accepted, as `Keyframes.RepeatedTimeTrack` shows. Loading a file and creating a scene put no condition on its clips.
- **Clock and input sources.** The clock reading (`GetTickCount`), `glutGetModifiers`, Alt+F4 exiting the program and the mouse handlers are left out. The hour and the Shift state are parameters.
- Terrain.Terrain.LoadHeightmap: the width is a natural number, so a negative bitmap width is not modelled. A zero width with two or more rows would make the draw count negative; `Terrain.GridIndexBuffer` states the count only for sizes of at least 1.
- Terrain.Terrain.Height: its own contract states only the zero returned outside the grid. The entry read inside the grid is stated by `Terrain.Terrain.HeightOfPixel` and `Terrain.Terrain.VertexOrderMatchesHeights`.
- Models.Model.GetBBNode: `trafo` is passed by value. The source's save and restore of `*trafo` through the pointer (3dglModel.cpp lines 565 and 585) is not modelled as such, so what the model captures is only that every child sees its parent's accumulated transform.
- Pose.Walk: its own contract states only that the buffer length is kept. What the walk writes is stated by `Pose.WalkFrame`, `Pose.WalkWritesBone` and `Pose.UnlookedNodeIgnoresParent`.

## Findings

| source | as written | input that shows it | evidently intended | confidence | as-written member | corrected member |
|---|---|---|---|---|---|---|
| OpenGLLevel2New/3dgp/3dgl/3dglModel.cpp:53-55 | the mesh scan updates `bb[1]` when a coordinate exceeds `bb[0]`, the minimum | vertices with x = 0, 5, 3: the maximum x ends at 3 | compare against `bb[1]`, so the maximum is the greatest coordinate | not executed | Bounds.MeshBoxMissesMaximum | Bounds.MeshBoxFixedHi |
| OpenGLLevel2New/3dgp/3dgl/3dglModel.cpp:577-579 | `getBBNode` updates `BB[1]` when a mesh maximum exceeds `BB[0]`, the minimum | a single mesh flat along y: `BB[1].y` stays at -1e10 | compare against `BB[1]` | not executed | Bounds.FlatMeshKeepsStartMaximum | Bounds.MergeAllFixedHi |
