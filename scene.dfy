/**
  The imported scene as the model sees it: an arena of nodes (root at index
  0, children listed by index), the meshes, and the animation clips. The
  name-to-node map built over the node tree, and the channel part of the
  per-clip look-up table, are defined here.
 */
module SceneGraph {
  import opened Geometry
  import opened Keyframes

  datatype SceneNode = SceneNode(name: string, transformation: Matrix, children: seq<nat>, meshes: seq<nat>)

  /** One weight of one vertex contributed by a bone. */
  datatype VertexWeight = VertexWeight(vertex: nat, weight: real)

  datatype ImportedBone = ImportedBone(name: string, offset: Matrix, weights: seq<VertexWeight>)

  datatype ImportedMesh = ImportedMesh(vertices: seq<Vec3>, bones: seq<ImportedBone>)

  /** The key tracks of one animated node. */
  datatype NodeAnim = NodeAnim(
    nodeName: string,
    positionKeys: seq<Key<Vec3>>,
    rotationKeys: seq<Key<Quat>>,
    scalingKeys: seq<Key<Vec3>>)

  datatype Clip = Clip(duration: real, ticksPerSecond: real, channels: seq<NodeAnim>)

  datatype Scene = Scene(nodes: seq<SceneNode>, meshes: seq<ImportedMesh>, animations: seq<Clip>)

  /** A node handle as the look-up tables hold it; NullNode is the null pointer. */
  datatype NodeRef = NullNode | NodeIndex(index: nat)

  /** A look-up table entry: channel index (or NotAnimated) and bone id (or NotABone). */
  datatype LookUpEntry = LookUpEntry(channel: nat, bone: nat)

  /** Bone id left in place when a name is not a bone. */
  const NotABone: nat := 99999

  /** Channel index of a node that no channel animates. */
  const NotAnimated: nat := 0xffff

  /**
    A well-formed node arena: a root exists and every child index points to a
    later node, so every walk from a node terminates.
   */
  predicate WellFormedNodes(nodes: seq<SceneNode>)
  {
    |nodes| > 0 &&
    forall i, k | 0 <= i < |nodes| && 0 <= k < |nodes[i].children| ::
      i < nodes[i].children[k] < |nodes|
  }

  /**
    Every key track of every channel can be interpolated at time: it has a
    key, and the key search selects no pair of equal times.
   */
  predicate ClipReadyAt(c: Clip, time: real)
  {
    forall ch | ch in c.channels ::
      && Interpolable(ch.positionKeys, time)
      && Interpolable(ch.rotationKeys, time)
      && Interpolable(ch.scalingKeys, time)
  }

  // ---------------------------------------------------------------------
  // The name-to-node map

  /** The nodes of the subtree at i in pre-order. */
  function PreOrder(nodes: seq<SceneNode>, i: nat): (r: seq<nat>)
    requires WellFormedNodes(nodes) && i < |nodes|
    decreases |nodes| - i, 1, 0
    ensures |r| > 0 && r[0] == i
    ensures forall k | 0 <= k < |r| :: i <= r[k] < |nodes|
  {
    [i] + PreOrderChildren(nodes, i, 0)
  }

  function PreOrderChildren(nodes: seq<SceneNode>, i: nat, k: nat): (r: seq<nat>)
    requires WellFormedNodes(nodes) && i < |nodes| && k <= |nodes[i].children|
    decreases |nodes| - i, 0, |nodes[i].children| - k
    ensures forall k | 0 <= k < |r| :: i < r[k] < |nodes|
  {
    if k == |nodes[i].children| then []
    else PreOrder(nodes, nodes[i].children[k]) + PreOrderChildren(nodes, i, k + 1)
  }

  /** The node map: each node's name mapped to the node, visited in pre-order, children in order. */
  function CreateMap(nodes: seq<SceneNode>, i: nat, m: map<string, NodeRef>): map<string, NodeRef>
    requires WellFormedNodes(nodes) && i < |nodes|
    decreases |nodes| - i, 1, 0
  {
    CreateMapChildren(nodes, i, 0, m[nodes[i].name := NodeIndex(i)])
  }

  function CreateMapChildren(nodes: seq<SceneNode>, i: nat, k: nat, m: map<string, NodeRef>): map<string, NodeRef>
    requires WellFormedNodes(nodes) && i < |nodes| && k <= |nodes[i].children|
    decreases |nodes| - i, 0, |nodes[i].children| - k
  {
    if k == |nodes[i].children| then m
    else CreateMapChildren(nodes, i, k + 1, CreateMap(nodes, nodes[i].children[k], m))
  }

  /** Every index of order names a node. */
  predicate Indices(nodes: seq<SceneNode>, order: seq<nat>)
  {
    forall k | 0 <= k < |order| :: order[k] < |nodes|
  }

  /** Reference definition: store each node of order under its name, later ones overwriting. */
  function NameFold(nodes: seq<SceneNode>, m: map<string, NodeRef>, order: seq<nat>): map<string, NodeRef>
    requires Indices(nodes, order)
    decreases |order|
  {
    if order == [] then m
    else NameFold(nodes, m[nodes[order[0]].name := NodeIndex(order[0])], order[1..])
  }

  lemma {:induction false} NameFoldAppend(nodes: seq<SceneNode>, m: map<string, NodeRef>, a: seq<nat>, b: seq<nat>)
    requires Indices(nodes, a) && Indices(nodes, b)
    ensures Indices(nodes, a + b)
    ensures NameFold(nodes, m, a + b) == NameFold(nodes, NameFold(nodes, m, a), b)
    decreases |a|
  {
    if a == [] {
      assert a + b == b;
    } else {
      assert (a + b)[0] == a[0];
      assert (a + b)[1..] == a[1..] + b;
      NameFoldAppend(nodes, m[nodes[a[0]].name := NodeIndex(a[0])], a[1..], b);
    }
  }

  /** The recursive map builder stores the subtree's nodes in pre-order. */
  lemma {:induction false} CreateMapIsPreOrderFold(nodes: seq<SceneNode>, i: nat, m: map<string, NodeRef>)
    requires WellFormedNodes(nodes) && i < |nodes|
    decreases |nodes| - i, 1, 0
    ensures CreateMap(nodes, i, m) == NameFold(nodes, m, PreOrder(nodes, i))
  {
    var p := PreOrder(nodes, i);
    assert p[1..] == PreOrderChildren(nodes, i, 0);
    CreateMapChildrenIsFold(nodes, i, 0, m[nodes[i].name := NodeIndex(i)]);
  }

  lemma {:induction false} CreateMapChildrenIsFold(nodes: seq<SceneNode>, i: nat, k: nat, m: map<string, NodeRef>)
    requires WellFormedNodes(nodes) && i < |nodes| && k <= |nodes[i].children|
    decreases |nodes| - i, 0, |nodes[i].children| - k
    ensures CreateMapChildren(nodes, i, k, m) == NameFold(nodes, m, PreOrderChildren(nodes, i, k))
  {
    if k < |nodes[i].children| {
      var c := nodes[i].children[k];
      CreateMapIsPreOrderFold(nodes, c, m);
      CreateMapChildrenIsFold(nodes, i, k + 1, CreateMap(nodes, c, m));
      NameFoldAppend(nodes, m, PreOrder(nodes, c), PreOrderChildren(nodes, i, k + 1));
    }
  }

  /** The names order contributes. */
  function OrderNames(nodes: seq<SceneNode>, order: seq<nat>): set<string>
    requires Indices(nodes, order)
  {
    set k | 0 <= k < |order| :: nodes[order[k]].name
  }

  /** The fold's keys are the old keys plus every name of order. */
  lemma {:induction false} NameFoldKeys(nodes: seq<SceneNode>, m: map<string, NodeRef>, order: seq<nat>)
    requires Indices(nodes, order)
    decreases |order|
    ensures NameFold(nodes, m, order).Keys == m.Keys + OrderNames(nodes, order)
  {
    if order != [] {
      NameFoldKeys(nodes, m[nodes[order[0]].name := NodeIndex(order[0])], order[1..]);
      assert OrderNames(nodes, order) == {nodes[order[0]].name} + OrderNames(nodes, order[1..]) by {
        forall k | 0 < k < |order| ensures order[k] == order[1..][k - 1] { }
        forall k | 0 <= k < |order[1..]| ensures order[1..][k] == order[k + 1] { }
      }
    }
  }

  /**
    A name of order maps to the LAST node of order carrying it: later nodes
    with the same name overwrite earlier ones.
   */
  lemma {:induction false} NameFoldLastWins(nodes: seq<SceneNode>, m: map<string, NodeRef>, order: seq<nat>, p: nat)
    requires Indices(nodes, order) && p < |order|
    requires forall q | p < q < |order| :: nodes[order[q]].name != nodes[order[p]].name
    decreases |order|
    ensures nodes[order[p]].name in NameFold(nodes, m, order)
    ensures NameFold(nodes, m, order)[nodes[order[p]].name] == NodeIndex(order[p])
  {
    var m' := m[nodes[order[0]].name := NodeIndex(order[0])];
    if p > 0 {
      forall q | p - 1 < q < |order[1..]| ensures nodes[order[1..][q]].name != nodes[order[1..][p - 1]].name {
        assert order[1..][q] == order[q + 1];
      }
      NameFoldLastWins(nodes, m', order[1..], p - 1);
    } else {
      NameFoldUntouched(nodes, m', order[1..], nodes[order[0]].name);
    }
  }

  /** A key that no node of order is named after keeps its value. */
  lemma {:induction false} NameFoldUntouched(nodes: seq<SceneNode>, m: map<string, NodeRef>, order: seq<nat>, n: string)
    requires Indices(nodes, order) && n in m
    requires forall q | 0 <= q < |order| :: nodes[order[q]].name != n
    decreases |order|
    ensures n in NameFold(nodes, m, order) && NameFold(nodes, m, order)[n] == m[n]
  {
    if order != [] {
      forall q | 0 <= q < |order[1..]| ensures nodes[order[1..][q]].name != n {
        assert order[1..][q] == order[q + 1];
      }
      NameFoldUntouched(nodes, m[nodes[order[0]].name := NodeIndex(order[0])], order[1..], n);
    }
  }

  /**
    The node map of the whole scene holds every node's name, and maps it to
    the node carrying it that comes last in pre-order (later duplicates win).
   */
  lemma NodeMapContents(nodes: seq<SceneNode>)
    requires WellFormedNodes(nodes)
    ensures var m := CreateMap(nodes, 0, map[]); var order := PreOrder(nodes, 0);
      && m.Keys == OrderNames(nodes, order)
      && forall p | 0 <= p < |order| && (forall q | p < q < |order| :: nodes[order[q]].name != nodes[order[p]].name) ::
           m[nodes[order[p]].name] == NodeIndex(order[p])
  {
    var order := PreOrder(nodes, 0);
    CreateMapIsPreOrderFold(nodes, 0, map[]);
    NameFoldKeys(nodes, map[], order);
    forall p | 0 <= p < |order| && (forall q | p < q < |order| :: nodes[order[q]].name != nodes[order[p]].name)
      ensures CreateMap(nodes, 0, map[])[nodes[order[p]].name] == NodeIndex(order[p])
    {
      NameFoldLastWins(nodes, map[], order, p);
    }
  }

  /** Every value of a node map is a node carrying that name (or the null node). */
  predicate NamesMatch(nodes: seq<SceneNode>, m: map<string, NodeRef>)
  {
    forall n | n in m :: m[n].NodeIndex? ==> m[n].index < |nodes| && nodes[m[n].index].name == n
  }

  lemma {:induction false} NameFoldMatches(nodes: seq<SceneNode>, m: map<string, NodeRef>, order: seq<nat>)
    requires Indices(nodes, order)
    requires NamesMatch(nodes, m)
    decreases |order|
    ensures NamesMatch(nodes, NameFold(nodes, m, order))
  {
    if order != [] {
      NameFoldMatches(nodes, m[nodes[order[0]].name := NodeIndex(order[0])], order[1..]);
    }
  }

  /** The scene's node map sends each name to a node that carries that name. */
  lemma NodeMapMatchesNames(nodes: seq<SceneNode>)
    requires WellFormedNodes(nodes)
    ensures NamesMatch(nodes, CreateMap(nodes, 0, map[]))
  {
    CreateMapIsPreOrderFold(nodes, 0, map[]);
    NameFoldMatches(nodes, map[], PreOrder(nodes, 0));
  }

  // ---------------------------------------------------------------------
  // The channel part of a clip's look-up table

  /** The node a channel name resolves to: the mapped node, or null for an unknown name. */
  function Resolve(m: map<string, NodeRef>, name: string): NodeRef
  {
    if name in m then m[name] else NullNode
  }

  /** The bone id of name, or NotABone. */
  function BoneIdOr(bones: map<string, nat>, name: string): nat
  {
    if name in bones then bones[name] else NotABone
  }

  /** The look-up entries the channel loop leaves after the given channels, later channels overwriting. */
  function ChannelsLookUp(m: map<string, NodeRef>, bones: map<string, nat>, chans: seq<NodeAnim>): map<NodeRef, LookUpEntry>
  {
    if chans == [] then map[]
    else
      var last := chans[|chans| - 1];
      ChannelsLookUp(m, bones, chans[..|chans| - 1])[Resolve(m, last.nodeName) := LookUpEntry(|chans| - 1, BoneIdOr(bones, last.nodeName))]
  }

  /** The channel loop gives entries to exactly the nodes the channels resolve to. */
  lemma {:induction false} ChannelsLookUpKeys(m: map<string, NodeRef>, bones: map<string, nat>, chans: seq<NodeAnim>)
    ensures ChannelsLookUp(m, bones, chans).Keys == set c | 0 <= c < |chans| :: Resolve(m, chans[c].nodeName)
  {
    if chans != [] {
      var init := chans[..|chans| - 1];
      ChannelsLookUpKeys(m, bones, init);
      assert (set c | 0 <= c < |chans| :: Resolve(m, chans[c].nodeName))
          == (set c | 0 <= c < |init| :: Resolve(m, init[c].nodeName)) + {Resolve(m, chans[|chans| - 1].nodeName)} by {
        forall c | 0 <= c < |init| ensures init[c] == chans[c] { }
      }
    }
  }

  /**
    Each node a channel resolves to gets the entry of the last channel
    resolving to it: that channel's index and its bone id (or NotABone).
   */
  lemma {:induction false} ChannelsLookUpEntries(m: map<string, NodeRef>, bones: map<string, nat>, chans: seq<NodeAnim>, c: nat)
    requires c < |chans|
    requires forall d | c < d < |chans| :: Resolve(m, chans[d].nodeName) != Resolve(m, chans[c].nodeName)
    ensures var l := ChannelsLookUp(m, bones, chans);
      Resolve(m, chans[c].nodeName) in l && l[Resolve(m, chans[c].nodeName)] == LookUpEntry(c, BoneIdOr(bones, chans[c].nodeName))
  {
    if c < |chans| - 1 {
      var init := chans[..|chans| - 1];
      assert init[c] == chans[c];
      forall d | c < d < |init| ensures Resolve(m, init[d].nodeName) != Resolve(m, init[c].nodeName) {
        assert init[d] == chans[d];
      }
      ChannelsLookUpEntries(m, bones, init, c);
    }
  }

  /**
    Two node maps that resolve every name alike give the same channel
    entries: inserting null nodes for unknown names changes nothing here.
   */
  lemma {:induction false} ChannelsLookUpSameResolve(m: map<string, NodeRef>, m': map<string, NodeRef>, bones: map<string, nat>, chans: seq<NodeAnim>)
    requires forall n :: Resolve(m, n) == Resolve(m', n)
    decreases |chans|
    ensures ChannelsLookUp(m, bones, chans) == ChannelsLookUp(m', bones, chans)
  {
    if chans != [] {
      ChannelsLookUpSameResolve(m, m', bones, chans[..|chans| - 1]);
      assert Resolve(m, chans[|chans| - 1].nodeName) == Resolve(m', chans[|chans| - 1].nodeName);
    }
  }

  // ---------------------------------------------------------------------
  // Node map growth and the rest of the look-up table

  /** The node names the channels refer to. */
  function ChannelNames(chans: seq<NodeAnim>): set<string>
  {
    set c | 0 <= c < |chans| :: chans[c].nodeName
  }

  /** The node map after looking up the given names with operator[]: unknown names now map to the null node. */
  function WithNames(m: map<string, NodeRef>, names: set<string>): (r: map<string, NodeRef>)
    ensures r.Keys == m.Keys + names
    ensures forall n | n in r :: r[n] == Resolve(m, n)
  {
    map n | n in m.Keys + names :: Resolve(m, n)
  }

  /** Looking names up never changes what a name resolves to, nor which node carries a mapped name. */
  lemma WithNamesResolve(nodes: seq<SceneNode>, m: map<string, NodeRef>, names: set<string>)
    ensures forall n :: Resolve(WithNames(m, names), n) == Resolve(m, n)
    ensures NamesMatch(nodes, m) ==> NamesMatch(nodes, WithNames(m, names))
  {
  }

  /** Looking up a, then b, is looking up a + b. */
  lemma WithNamesTwice(m: map<string, NodeRef>, a: set<string>, b: set<string>)
    ensures WithNames(WithNames(m, a), b) == WithNames(m, a + b)
  {
    var l, r := WithNames(WithNames(m, a), b), WithNames(m, a + b);
    assert l.Keys == r.Keys;
    forall n | n in l ensures l[n] == r[n] {
      assert Resolve(WithNames(m, a), n) == Resolve(m, n);
    }
  }

  /** Looking up one more name adds it as the null node when it is unknown, and changes nothing otherwise. */
  lemma WithNamesAdd(m: map<string, NodeRef>, names: set<string>, n: string)
    ensures var w := WithNames(m, names);
      WithNames(m, names + {n}) == if n in w then w else w[n := NullNode]
  {
  }

  /** The channel names of a prefix one longer. */
  lemma ChannelNamesSnoc(chans: seq<NodeAnim>, c: nat)
    requires c < |chans|
    ensures ChannelNames(chans[..c + 1]) == ChannelNames(chans[..c]) + {chans[c].nodeName}
  {
    assert chans[..c + 1][c] == chans[c];
    forall d | 0 <= d < c ensures chans[..c + 1][d] == chans[..c][d] { }
  }

  /** The channel entries of a prefix one longer: the new channel's entry overwrites its node's. */
  lemma ChannelsLookUpSnoc(m: map<string, NodeRef>, bones: map<string, nat>, chans: seq<NodeAnim>, c: nat)
    requires c < |chans|
    ensures ChannelsLookUp(m, bones, chans[..c + 1])
         == ChannelsLookUp(m, bones, chans[..c])[Resolve(m, chans[c].nodeName) := LookUpEntry(c, BoneIdOr(bones, chans[c].nodeName))]
  {
    assert chans[..c + 1][..c] == chans[..c];
  }

  /** The channel names of the first k clips. */
  function NamesUpTo(clips: seq<Clip>, k: nat): set<string>
    requires k <= |clips|
  {
    if k == 0 then {} else NamesUpTo(clips, k - 1) + ChannelNames(clips[k - 1].channels)
  }

  /** The names looked up by the first k clips include every one of those clips' channel names. */
  lemma {:induction false} NamesUpToCovers(clips: seq<Clip>, k: nat)
    requires k <= |clips|
    ensures forall j | 0 <= j < k :: ChannelNames(clips[j].channels) <= NamesUpTo(clips, k)
  {
    if k > 0 {
      NamesUpToCovers(clips, k - 1);
    }
  }

  /**
    A complete look-up table for one clip: the channel entries, plus an entry
    (NotAnimated, bone id or NotABone) for every other node of the node map
    m, whose bone id is that of a name mapped to the node.
   */
  predicate LookUpComplete(m: map<string, NodeRef>, bones: map<string, nat>, chans: seq<NodeAnim>, l: map<NodeRef, LookUpEntry>)
  {
    var c := ChannelsLookUp(m, bones, chans);
    && l.Keys == c.Keys + m.Values
    && (forall x | x in c :: l[x] == c[x])
    && (forall x | x in l && x !in c ::
          l[x].channel == NotAnimated && exists n | n in m :: m[n] == x && l[x].bone == BoneIdOr(bones, n))
  }

  /**
    In a complete table over a node map that sends names to nodes carrying
    them, a node that no channel animates gets (NotAnimated, the bone id of
    its own name, or NotABone).
   */
  lemma RestEntryOfNode(nodes: seq<SceneNode>, m: map<string, NodeRef>, bones: map<string, nat>, chans: seq<NodeAnim>, l: map<NodeRef, LookUpEntry>, i: nat)
    requires NamesMatch(nodes, m) && LookUpComplete(m, bones, chans, l)
    requires NodeIndex(i) in m.Values && NodeIndex(i) !in ChannelsLookUp(m, bones, chans)
    ensures i < |nodes| && NodeIndex(i) in l
    ensures l[NodeIndex(i)] == LookUpEntry(NotAnimated, BoneIdOr(bones, nodes[i].name))
  {
    var n :| n in m && m[n] == NodeIndex(i) && l[NodeIndex(i)].bone == BoneIdOr(bones, n);
  }
}
