/** `ObjectSorter` (src/renderer/ObjectSorter.hpp, .cpp): buckets the
    level's objects into (z-layer, blending, sheet) layers in the host's
    batch-node draw order, sorts each layer by object z-order, and walks the
    result with a cursor. */
module ObjectSorters {
  import opened Wrappers
  import opened Sorting

  /** Numeric values of the host's `ZLayer` tiers. */
  const B5: int := -5
  const B4: int := -3
  const B3: int := -1
  const B2: int := 1
  const B1: int := 3
  const T1: int := 5
  const T2: int := 7
  const T3: int := 9
  const T4: int := 11

  /** The tiers in the order `initForGameLayer` scans them. */
  const Z_LAYERS: seq<int> := [B5, B4, B3, B2, B1, T1, T2, T3, T4]

  /** `SpriteSheet::COUNT`: sheets are numbered `0 .. SHEET_COUNT - 1`. */
  const SHEET_COUNT: int := 9

  /** Slots scanned: every tier, every sheet, blending off then on. */
  const SLOT_COUNT: int := 9 * 9 * 2

  type NodeId = nat

  /** What the sorter reads of a `GameObject`: its z-layer tier, blending
      flag, parent mode (cast to a sheet) and intra-layer z-order. */
  datatype GameObject = GameObject(id: nat, zLayer: int, blending: bool, parentMode: int, zOrder: int)

  /** `ObjectBatchLayer`. */
  datatype Layer = Layer(zLayer: int, blending: bool, sheet: int, node: NodeId, objects: seq<GameObject>)

  /** The host queries `initForGameLayer` makes: `parentForZLayer`, the
      membership test on the layer's batch-node list, and a node's z-order. */
  datatype Host = Host(
    parentForZLayer: (int, bool, int) -> Option<NodeId>,
    batchNodes: set<NodeId>,
    nodeZOrder: NodeId -> int)

  datatype Slot = Slot(zLayer: int, blending: bool, sheet: int)

  /** The `k`-th `tryAddLayer` call of `initForGameLayer`. */
  function SlotAt(k: int): Slot
    requires 0 <= k < SLOT_COUNT
  {
    Slot(Z_LAYERS[k / 18], k % 2 == 1, (k % 18) / 2)
  }

  /** Every slot names a known tier and an existing sheet. */
  lemma SlotAtInRange(k: int)
    requires 0 <= k < SLOT_COUNT
    ensures SlotAt(k).zLayer in Z_LAYERS && 0 <= SlotAt(k).sheet < SHEET_COUNT
  {
  }

  /** The scan visits tier by tier, sheet by sheet, non-blended first: the
      triple (tier `a`, sheet `s`, blending `b`) is call number
      `18a + 2s + b`. */
  lemma SlotAtEnumerates(a: int, s: int, b: bool)
    requires 0 <= a < |Z_LAYERS| && 0 <= s < SHEET_COUNT
    ensures var k := 18 * a + 2 * s + (if b then 1 else 0);
      0 <= k < SLOT_COUNT && SlotAt(k) == Slot(Z_LAYERS[a], b, s)
  {
    var k := 18 * a + 2 * s + (if b then 1 else 0);
    assert k / 18 == a;
    assert k % 18 == 2 * s + (if b then 1 else 0);
  }

  /** The host allocated a batch node for the slot. */
  predicate HasBatchNode(host: Host, s: Slot) {
    var node := host.parentForZLayer(s.zLayer, s.blending, s.sheet);
    node.Some? && node.value in host.batchNodes
  }

  /** The empty layer `tryAddLayer` pushes for a slot with a batch node. */
  function LayerFor(host: Host, s: Slot): Layer
    requires HasBatchNode(host, s)
  {
    Layer(s.zLayer, s.blending, s.sheet, host.parentForZLayer(s.zLayer, s.blending, s.sheet).value, [])
  }

  /** `tryAddLayer`: zero or one layer. */
  function TryAddLayer(host: Host, s: Slot): (r: seq<Layer>)
    ensures |r| == (if HasBatchNode(host, s) then 1 else 0)
    ensures |r| == 1 ==> r[0].zLayer == s.zLayer && r[0].blending == s.blending && r[0].sheet == s.sheet
    ensures |r| == 1 ==> r[0].node in host.batchNodes && r[0].objects == []
  {
    if HasBatchNode(host, s) then [LayerFor(host, s)] else []
  }

  /** The layers pushed by the first `n` `tryAddLayer` calls. */
  function AddedLayers(host: Host, n: int): (r: seq<Layer>)
    requires 0 <= n <= SLOT_COUNT
    ensures |r| <= n
    decreases n
  {
    if n == 0 then [] else AddedLayers(host, n - 1) + TryAddLayer(host, SlotAt(n - 1))
  }

  /** A layer is pushed exactly for the slots with a batch node, each with
      no objects yet. */
  lemma AddedLayersExactly(host: Host, n: int)
    requires 0 <= n <= SLOT_COUNT
    ensures forall l :: l in AddedLayers(host, n) ==>
      exists k :: 0 <= k < n && HasBatchNode(host, SlotAt(k)) && l == LayerFor(host, SlotAt(k))
    ensures forall k :: 0 <= k < n && HasBatchNode(host, SlotAt(k)) ==>
      LayerFor(host, SlotAt(k)) in AddedLayers(host, n)
  {
    forall l | l in AddedLayers(host, n)
      ensures exists k :: 0 <= k < n && HasBatchNode(host, SlotAt(k)) && l == LayerFor(host, SlotAt(k))
    {
      var k := AddedLayerSlot(host, n, l);
    }
    forall k | 0 <= k < n && HasBatchNode(host, SlotAt(k))
      ensures LayerFor(host, SlotAt(k)) in AddedLayers(host, n)
    {
      SlotLayerAdded(host, n, k);
    }
  }

  /** Every pushed layer comes from a slot with a batch node. */
  lemma {:induction false} AddedLayerSlot(host: Host, n: int, l: Layer) returns (k: int)
    requires 0 <= n <= SLOT_COUNT && l in AddedLayers(host, n)
    ensures 0 <= k < n && HasBatchNode(host, SlotAt(k)) && l == LayerFor(host, SlotAt(k))
    decreases n
  {
    var prev, t := AddedLayers(host, n - 1), TryAddLayer(host, SlotAt(n - 1));
    assert AddedLayers(host, n) == prev + t;
    if l in prev {
      k := AddedLayerSlot(host, n - 1, l);
    } else {
      assert l in t;
      k := n - 1;
    }
  }

  /** The layer of every slot with a batch node is pushed. */
  lemma {:induction false} SlotLayerAdded(host: Host, n: int, k: int)
    requires 0 <= k < n <= SLOT_COUNT && HasBatchNode(host, SlotAt(k))
    ensures LayerFor(host, SlotAt(k)) in AddedLayers(host, n)
    decreases n
  {
    var l := LayerFor(host, SlotAt(k));
    var prev, t := AddedLayers(host, n - 1), TryAddLayer(host, SlotAt(n - 1));
    assert AddedLayers(host, n) == prev + t;
    if k < n - 1 {
      SlotLayerAdded(host, n - 1, k);
      InAppend(l, prev, t);
    } else {
      assert t == [l];
      InAppend(l, prev, t);
    }
  }

  lemma InAppend<T>(x: T, a: seq<T>, b: seq<T>)
    ensures x in a + b <==> x in a || x in b
  {
  }

  /** The key `initForGameLayer` sorts by. */
  function NodeZOrder(host: Host): Layer -> int {
    (l: Layer) => host.nodeZOrder(l.node)
  }

  /** `initForGameLayer`: the layers pushed by the scan, sorted by node
      z-order (`std::sort`, so only a permutation that is sorted). */
  function InitForGameLayer(host: Host): (r: seq<Layer>)
    ensures multiset(r) == multiset(AddedLayers(host, SLOT_COUNT))
    ensures SortedBy(r, NodeZOrder(host))
  {
    SortBy(AddedLayers(host, SLOT_COUNT), NodeZOrder(host))
  }

  /** Two sequences with the same multiset hold the same elements. */
  lemma SameElements(a: seq<Layer>, b: seq<Layer>)
    requires multiset(a) == multiset(b)
    ensures forall l :: l in a <==> l in b
  {
    forall l ensures l in a <==> l in b {
      assert l in a <==> l in multiset(a);
      assert l in b <==> l in multiset(b);
    }
  }

  /** After `initForGameLayer` the layers are exactly those of the slots with
      a batch node. */
  lemma InitForGameLayerLayers(host: Host)
    ensures forall l :: l in InitForGameLayer(host) <==>
      exists k :: 0 <= k < SLOT_COUNT && HasBatchNode(host, SlotAt(k)) && l == LayerFor(host, SlotAt(k))
  {
    AddedLayersExactly(host, SLOT_COUNT);
    SameElements(InitForGameLayer(host), AddedLayers(host, SLOT_COUNT));
  }

  /** The layers start empty and run in non-decreasing node z-order. */
  lemma InitForGameLayerOrder(host: Host)
    ensures forall i :: 0 <= i < |InitForGameLayer(host)| ==> InitForGameLayer(host)[i].objects == []
    ensures forall i, j :: 0 <= i < j < |InitForGameLayer(host)| ==>
      host.nodeZOrder(InitForGameLayer(host)[i].node) <= host.nodeZOrder(InitForGameLayer(host)[j].node)
  {
    var added, r := AddedLayers(host, SLOT_COUNT), InitForGameLayer(host);
    AddedLayersExactly(host, SLOT_COUNT);
    SameElements(r, added);
    forall i | 0 <= i < |r| ensures r[i].objects == [] {
      assert r[i] in added;
      var k :| 0 <= k < SLOT_COUNT && HasBatchNode(host, SlotAt(k)) && r[i] == LayerFor(host, SlotAt(k));
    }
    forall i, j | 0 <= i < j < |r|
      ensures host.nodeZOrder(r[i].node) <= host.nodeZOrder(r[j].node)
    {
      assert NodeZOrder(host)(r[i]) <= NodeZOrder(host)(r[j]);
    }
  }

  // ---------------------------------------------------------------------
  // getLayer

  /** The tier an object's z-layer is looked up under: even values move one
      down, but never below `B5`. */
  function NormalizeZLayer(z: int): (r: int)
    ensures r % 2 != 0
    ensures z % 2 != 0 ==> r == z
    ensures z % 2 == 0 ==> B5 <= r && (r == z - 1 || (r == B5 && z - 1 < B5))
  {
    if z % 2 == 0 then (if z - 1 < B5 then B5 else z - 1) else z
  }

  /** Normalising a tier twice is normalising it once. */
  lemma NormalizeZLayerIdempotent(z: int)
    ensures NormalizeZLayer(NormalizeZLayer(z)) == NormalizeZLayer(z)
  {
  }

  /** Every tier the scan knows is its own normal form. */
  lemma NormalizeKeepsTiers(z: int)
    requires z in Z_LAYERS
    ensures NormalizeZLayer(z) == z
  {
  }

  predicate Matches(l: Layer, z: int, blending: bool, sheet: int) {
    l.zLayer == z && l.blending == blending && l.sheet == sheet
  }

  /** The search loop of `getLayer`, from index `i` on. */
  function FindLayer(layers: seq<Layer>, z: int, blending: bool, sheet: int, i: nat): (r: Option<nat>)
    requires i <= |layers|
    ensures r.None? <==> forall j :: i <= j < |layers| ==> !Matches(layers[j], z, blending, sheet)
    ensures r.Some? ==> i <= r.value < |layers| && Matches(layers[r.value], z, blending, sheet)
    ensures r.Some? ==> forall j :: i <= j < r.value ==> !Matches(layers[j], z, blending, sheet)
    decreases |layers| - i
  {
    if i == |layers| then None
    else if Matches(layers[i], z, blending, sheet) then Some(i)
    else FindLayer(layers, z, blending, sheet, i + 1)
  }

  /** `getLayer`: the index of the first layer matching the normalised tier,
      the blending flag and the sheet, or `None`. */
  function GetLayer(layers: seq<Layer>, z: int, blending: bool, sheet: int): (r: Option<nat>)
    ensures r.None? <==> forall j :: 0 <= j < |layers| ==> !Matches(layers[j], NormalizeZLayer(z), blending, sheet)
    ensures r.Some? ==> r.value < |layers| && Matches(layers[r.value], NormalizeZLayer(z), blending, sheet)
    ensures r.Some? ==> forall j :: 0 <= j < r.value ==> !Matches(layers[j], NormalizeZLayer(z), blending, sheet)
  {
    FindLayer(layers, NormalizeZLayer(z), blending, sheet, 0)
  }

  // ---------------------------------------------------------------------
  // addGameObject, finalizeSorting

  /** `addGameObject`: appends the object to the layer `getLayer` finds, or
      drops it. */
  function AddGameObject(layers: seq<Layer>, o: GameObject): (r: seq<Layer>)
    ensures |r| == |layers|
    ensures GetLayer(layers, o.zLayer, o.blending, o.parentMode).None? ==> r == layers
    ensures GetLayer(layers, o.zLayer, o.blending, o.parentMode).Some? ==>
      var i := GetLayer(layers, o.zLayer, o.blending, o.parentMode).value;
      r[i] == layers[i].(objects := layers[i].objects + [o]) &&
      forall j :: 0 <= j < |layers| && j != i ==> r[j] == layers[j]
  {
    match GetLayer(layers, o.zLayer, o.blending, o.parentMode)
    case None => layers
    case Some(i) => layers[i := layers[i].(objects := layers[i].objects + [o])]
  }

  /** The objects held by layers `i ..`. */
  function ObjectsFrom(layers: seq<Layer>, i: nat): multiset<GameObject>
    requires i <= |layers|
    decreases |layers| - i
  {
    if i == |layers| then multiset{} else multiset(layers[i].objects) + ObjectsFrom(layers, i + 1)
  }

  /** Appending `o` to layer `k` adds `o` to the objects of layers `i ..`
      when `k` is among them, and changes nothing otherwise. */
  lemma {:induction false} ObjectsFromAppend(layers: seq<Layer>, i: nat, k: nat, o: GameObject)
    requires i <= |layers| && k < |layers|
    ensures var u := layers[k := layers[k].(objects := layers[k].objects + [o])];
      ObjectsFrom(u, i) == ObjectsFrom(layers, i) + (if k >= i then multiset{o} else multiset{})
    decreases |layers| - i
  {
    if i < |layers| {
      ObjectsFromAppend(layers, i + 1, k, o);
      var u := layers[k := layers[k].(objects := layers[k].objects + [o])];
      assert ObjectsFrom(u, i) == multiset(u[i].objects) + ObjectsFrom(u, i + 1);
      if k == i {
        assert multiset(u[i].objects) == multiset(layers[i].objects) + multiset{o};
      } else {
        assert u[i] == layers[i];
      }
    }
  }

  /** Every object offered to `addGameObject` is held afterwards exactly when
      a matching layer exists; nothing else is added or lost. */
  lemma AddGameObjectCollects(layers: seq<Layer>, o: GameObject)
    ensures GetLayer(layers, o.zLayer, o.blending, o.parentMode).Some? ==>
      ObjectsFrom(AddGameObject(layers, o), 0) == ObjectsFrom(layers, 0) + multiset{o}
    ensures GetLayer(layers, o.zLayer, o.blending, o.parentMode).None? ==>
      ObjectsFrom(AddGameObject(layers, o), 0) == ObjectsFrom(layers, 0)
  {
    match GetLayer(layers, o.zLayer, o.blending, o.parentMode)
    case None =>
    case Some(i) =>
      ObjectsFromAppend(layers, 0, i, o);
  }

  /** The per-layer key of `finalizeSorting`. */
  function ObjectZOrder(o: GameObject): int {
    o.zOrder
  }

  /** `finalizeSorting`: every layer's objects sorted by z-order
      (`std::sort`, so only a permutation that is sorted). */
  function FinalizeSorting(layers: seq<Layer>): (r: seq<Layer>)
    ensures |r| == |layers|
    ensures forall i :: 0 <= i < |r| ==>
      r[i].zLayer == layers[i].zLayer && r[i].blending == layers[i].blending &&
      r[i].sheet == layers[i].sheet && r[i].node == layers[i].node
    ensures forall i :: 0 <= i < |r| ==> multiset(r[i].objects) == multiset(layers[i].objects)
    ensures forall i :: 0 <= i < |r| ==> SortedBy(r[i].objects, ObjectZOrder)
  {
    seq(|layers|, i requires 0 <= i < |layers| => layers[i].(objects := SortBy(layers[i].objects, ObjectZOrder)))
  }

  /** Within a finalised layer, an object with a lower z-order never comes
      after one with a higher z-order. */
  lemma FinalizedLayerOrder(layers: seq<Layer>, i: int, a: int, b: int)
    requires 0 <= i < |layers|
    requires 0 <= a < |FinalizeSorting(layers)[i].objects| && 0 <= b < |FinalizeSorting(layers)[i].objects|
    requires FinalizeSorting(layers)[i].objects[a].zOrder < FinalizeSorting(layers)[i].objects[b].zOrder
    ensures a < b
  {
    var s := FinalizeSorting(layers)[i].objects;
    assert forall x, y :: 0 <= x <= y < |s| ==> ObjectZOrder(s[x]) <= ObjectZOrder(s[y]);
  }

  // ---------------------------------------------------------------------
  // Iterator

  datatype Cursor = Cursor(layerIndex: nat, objectIndex: nat)

  /** The skip loop of the iterator: the first non-empty layer at or after
      `i`, or `|layers|`. */
  function SkipEmpty(layers: seq<Layer>, i: nat): (r: nat)
    requires i <= |layers|
    ensures i <= r <= |layers|
    ensures forall j :: i <= j < r ==> |layers[j].objects| == 0
    ensures r < |layers| ==> |layers[r].objects| > 0
    decreases |layers| - i
  {
    if i < |layers| && |layers[i].objects| == 0 then SkipEmpty(layers, i + 1) else i
  }

  /** `isEnd`. */
  predicate IsEnd(layers: seq<Layer>, c: Cursor) {
    c.layerIndex >= |layers|
  }

  /** A cursor that is either at the end or on an existing object. */
  predicate OnObject(layers: seq<Layer>, c: Cursor) {
    IsEnd(layers, c) || c.objectIndex < |layers[c.layerIndex].objects|
  }

  /** The iterator's constructor. */
  function Start(layers: seq<Layer>): (c: Cursor)
    ensures OnObject(layers, c)
    ensures c.objectIndex == 0
    ensures IsEnd(layers, c) <==> forall j :: 0 <= j < |layers| ==> |layers[j].objects| == 0
    ensures !IsEnd(layers, c) ==> forall j :: 0 <= j < c.layerIndex ==> |layers[j].objects| == 0
  {
    Cursor(SkipEmpty(layers, 0), 0)
  }

  /** `get`. */
  function Get(layers: seq<Layer>, c: Cursor): GameObject
    requires OnObject(layers, c) && !IsEnd(layers, c)
  {
    layers[c.layerIndex].objects[c.objectIndex]
  }

  /** `next`: the following object of the same layer, or the first object of
      the next non-empty layer. */
  function Next(layers: seq<Layer>, c: Cursor): (r: Cursor)
    requires OnObject(layers, c) && !IsEnd(layers, c)
    ensures OnObject(layers, r)
    ensures (r.layerIndex == c.layerIndex && r.objectIndex == c.objectIndex + 1)
      || (r.layerIndex > c.layerIndex && r.objectIndex == 0)
  {
    if c.objectIndex + 1 >= |layers[c.layerIndex].objects| then
      Cursor(SkipEmpty(layers, c.layerIndex + 1), 0)
    else
      Cursor(c.layerIndex, c.objectIndex + 1)
  }

  /** The (layer index, object) pairs a cursor yields until `isEnd`. */
  function Walk(layers: seq<Layer>, c: Cursor): seq<(nat, GameObject)>
    requires OnObject(layers, c)
    decreases |layers| - c.layerIndex,
      if c.layerIndex < |layers| then |layers[c.layerIndex].objects| - c.objectIndex else 0
  {
    if IsEnd(layers, c) then [] else [(c.layerIndex, Get(layers, c))] + Walk(layers, Next(layers, c))
  }

  /** The pairs of layer `i`, from object `k` on. */
  function PairsOfLayer(layers: seq<Layer>, i: nat, k: nat): (r: seq<(nat, GameObject)>)
    requires i < |layers| && k <= |layers[i].objects|
    ensures |r| == |layers[i].objects| - k
    ensures forall j :: 0 <= j < |r| ==> r[j] == (i, layers[i].objects[k + j])
  {
    seq(|layers[i].objects| - k, j requires 0 <= j < |layers[i].objects| - k => (i, layers[i].objects[k + j]))
  }

  /** Every (layer, object) pair of layers `i ..`, layer by layer, each layer
      in object order. */
  function PairsFrom(layers: seq<Layer>, i: nat): seq<(nat, GameObject)>
    requires i <= |layers|
    decreases |layers| - i
  {
    if i == |layers| then [] else PairsOfLayer(layers, i, 0) + PairsFrom(layers, i + 1)
  }

  /** The number of objects in layers `i ..`. */
  function CountFrom(layers: seq<Layer>, i: nat): nat
    requires i <= |layers|
    decreases |layers| - i
  {
    if i == |layers| then 0 else |layers[i].objects| + CountFrom(layers, i + 1)
  }

  lemma {:induction false} PairsFromCount(layers: seq<Layer>, i: nat)
    requires i <= |layers|
    ensures |PairsFrom(layers, i)| == CountFrom(layers, i)
    decreases |layers| - i
  {
    if i < |layers| {
      PairsFromCount(layers, i + 1);
    }
  }

  /** Empty layers contribute no pairs. */
  lemma {:induction false} SkipEmptyKeepsPairs(layers: seq<Layer>, i: nat)
    requires i <= |layers|
    ensures PairsFrom(layers, SkipEmpty(layers, i)) == PairsFrom(layers, i)
    decreases |layers| - i
  {
    if i < |layers| && |layers[i].objects| == 0 {
      SkipEmptyKeepsPairs(layers, i + 1);
      assert PairsOfLayer(layers, i, 0) == [];
    }
  }

  /** From any cursor on an object, the walk yields the rest of that layer
      and then every pair of the later layers. */
  lemma {:induction false} WalkFrom(layers: seq<Layer>, c: Cursor)
    requires OnObject(layers, c) && !IsEnd(layers, c)
    ensures Walk(layers, c) == PairsOfLayer(layers, c.layerIndex, c.objectIndex) + PairsFrom(layers, c.layerIndex + 1)
    decreases |layers| - c.layerIndex, |layers[c.layerIndex].objects| - c.objectIndex
  {
    var i, k := c.layerIndex, c.objectIndex;
    var n := Next(layers, c);
    var head := [(i, Get(layers, c))];
    if k + 1 >= |layers[i].objects| {
      assert PairsOfLayer(layers, i, k) == head;
      SkipEmptyKeepsPairs(layers, i + 1);
      if !IsEnd(layers, n) {
        WalkFrom(layers, n);
        assert PairsOfLayer(layers, n.layerIndex, 0) + PairsFrom(layers, n.layerIndex + 1)
          == PairsFrom(layers, n.layerIndex);
      } else {
        assert PairsFrom(layers, n.layerIndex) == [];
      }
    } else {
      WalkFrom(layers, n);
      assert PairsOfLayer(layers, i, k) == head + PairsOfLayer(layers, i, k + 1);
    }
  }

  /** The iterator yields every (layer, object) pair exactly once, in layer
      order and then object order, in as many steps as there are objects. */
  lemma IteratorVisitsAll(layers: seq<Layer>)
    ensures Walk(layers, Start(layers)) == PairsFrom(layers, 0)
    ensures |Walk(layers, Start(layers))| == CountFrom(layers, 0)
  {
    var c := Start(layers);
    SkipEmptyKeepsPairs(layers, 0);
    if !IsEnd(layers, c) {
      WalkFrom(layers, c);
    } else {
      assert PairsFrom(layers, c.layerIndex) == [];
    }
    PairsFromCount(layers, 0);
  }

  /** The number of objects in the layers before `i`. */
  function CountBefore(layers: seq<Layer>, i: nat): nat
    requires i <= |layers|
  {
    if i == 0 then 0 else CountBefore(layers, i - 1) + |layers[i - 1].objects|
  }

  /** Object `k` of layer `i` is visited at step `CountBefore(i) + k`. */
  lemma {:induction false} PairPosition(layers: seq<Layer>, i: nat, k: nat)
    requires i < |layers| && k < |layers[i].objects|
    ensures CountBefore(layers, i) + k < |PairsFrom(layers, 0)|
    ensures PairsFrom(layers, 0)[CountBefore(layers, i) + k] == (i, layers[i].objects[k])
  {
    PairsFromSplit(layers, 0, i);
    PairsFromCount(layers, i);
  }

  /** `PairsFrom(j)` is `PairsFrom(i)` preceded by the pairs of layers
      `j .. i - 1`, which number `CountBefore(i) - CountBefore(j)`. */
  lemma {:induction false} PairsFromSplit(layers: seq<Layer>, j: nat, i: nat)
    requires j <= i <= |layers|
    ensures CountBefore(layers, j) <= CountBefore(layers, i)
    ensures |PairsFrom(layers, j)| == CountBefore(layers, i) - CountBefore(layers, j) + |PairsFrom(layers, i)|
    ensures PairsFrom(layers, j)[CountBefore(layers, i) - CountBefore(layers, j)..] == PairsFrom(layers, i)
    decreases i - j
  {
    if j < i {
      PairsFromSplit(layers, j + 1, i);
      var rest := PairsFrom(layers, j + 1);
      var d := CountBefore(layers, i) - CountBefore(layers, j + 1);
      assert PairsFrom(layers, j) == PairsOfLayer(layers, j, 0) + rest;
      assert PairsFrom(layers, j)[|layers[j].objects| + d..] == rest[d..];
    }
  }
}
