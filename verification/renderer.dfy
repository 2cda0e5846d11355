/** `Renderer` (src/renderer/Renderer.hpp, .cpp): the load-time passes that
    feed the sorter and group the sorted layers into batch nodes, and the
    per-frame colour bitmap of the dynamic rendering buffer.

    Host engine state becomes input: which objects are triggers or hidden,
    whether a channel blends and whether a batch node can be created for a
    sheet. */
module Renderers {
  import opened Wrappers
  import opened Geometry
  import opened ObjectSorters
  import opened GroupCombinations
  import opened GroupManagers
  import opened ObjectBatches
  import opened Words

  /** Player colour channels of the game. */
  const COLOR_CHANNEL_P1: int := 1005
  const COLOR_CHANNEL_P2: int := 1006

  // ---------------------------------------------------------------------
  // The object filter of `init`

  /** An object of the level with the host facts the filter reads. */
  datatype LevelObject = LevelObject(obj: GameObject, isAntiCheatSpike: bool, isTrigger: bool, isHide: bool)

  /** Neither the anti-cheat spike, nor a trigger, nor hidden. */
  predicate Rendered(o: LevelObject) {
    !o.isAntiCheatSpike && !o.isTrigger && !o.isHide
  }

  /** The objects the filter lets through, in level order. */
  function RenderedObjects(objs: seq<LevelObject>): (r: seq<GameObject>)
    ensures |r| <= |objs|
    ensures forall x :: x in r <==> exists i :: 0 <= i < |objs| && Rendered(objs[i]) && objs[i].obj == x
  {
    if |objs| == 0 then []
    else
      var prev := RenderedObjects(objs[..|objs| - 1]);
      var last := objs[|objs| - 1];
      assert forall i :: 0 <= i < |objs| - 1 ==> objs[..|objs| - 1][i] == objs[i];
      if Rendered(last) then prev + [last.obj] else prev
  }

  /** The layer keys: everything but the objects. */
  predicate SameKeys(a: seq<Layer>, b: seq<Layer>) {
    |a| == |b| && forall j :: 0 <= j < |a| ==> a[j].(objects := []) == b[j].(objects := [])
  }

  /** `getLayer` reads only the keys. */
  lemma {:induction false} FindLayerKeys(a: seq<Layer>, b: seq<Layer>, z: int, blending: bool, sheet: int, i: nat)
    requires SameKeys(a, b) && i <= |a|
    ensures FindLayer(a, z, blending, sheet, i) == FindLayer(b, z, blending, sheet, i)
    decreases |a| - i
  {
    if i < |a| {
      assert a[i].(objects := []) == b[i].(objects := []);
      assert Matches(a[i], z, blending, sheet) == Matches(b[i], z, blending, sheet);
      FindLayerKeys(a, b, z, blending, sheet, i + 1);
    }
  }

  lemma AddGameObjectKeepsKeys(layers: seq<Layer>, o: GameObject)
    ensures SameKeys(layers, AddGameObject(layers, o))
  {
  }

  /** The objects of `objs` that pass the filter and find a layer among
      `layers`. */
  function Placed(layers: seq<Layer>, objs: seq<LevelObject>): (r: seq<GameObject>)
    ensures forall x :: x in r ==> exists i :: 0 <= i < |objs| && Rendered(objs[i]) && objs[i].obj == x
  {
    if |objs| == 0 then []
    else
      var prev := Placed(layers, objs[..|objs| - 1]);
      var last := objs[|objs| - 1];
      assert forall i :: 0 <= i < |objs| - 1 ==> objs[..|objs| - 1][i] == objs[i];
      var o := last.obj;
      if Rendered(last) && GetLayer(layers, o.zLayer, o.blending, o.parentMode).Some? then prev + [o] else prev
  }

  /** The sorting loop of `init`: every object that passes the filter goes
      to `addGameObject`. */
  function FeedSorter(layers: seq<Layer>, objs: seq<LevelObject>): (r: seq<Layer>)
    ensures SameKeys(layers, r)
    ensures ObjectsFrom(r, 0) == ObjectsFrom(layers, 0) + multiset(Placed(layers, objs))
  {
    if |objs| == 0 then layers
    else
      var prev := FeedSorter(layers, objs[..|objs| - 1]);
      var last := objs[|objs| - 1];
      if Rendered(last) then
        var o := last.obj;
        AddGameObjectKeepsKeys(prev, o);
        AddGameObjectCollects(prev, o);
        FindLayerKeys(layers, prev, NormalizeZLayer(o.zLayer), o.blending, o.parentMode, 0);
        AddGameObject(prev, o)
      else prev
  }

  /** The sorter receives no anti-cheat spike, trigger or hidden object:
      every object it holds afterwards was there before or passed the
      filter. */
  lemma FilteredObjectsNeverSorted(layers: seq<Layer>, objs: seq<LevelObject>, x: GameObject)
    requires x in ObjectsFrom(FeedSorter(layers, objs), 0) && x !in ObjectsFrom(layers, 0)
    ensures exists i :: 0 <= i < |objs| && Rendered(objs[i]) && objs[i].obj == x
  {
    var placed := Placed(layers, objs);
    assert ObjectsFrom(FeedSorter(layers, objs), 0) == ObjectsFrom(layers, 0) + multiset(placed);
    assert x in multiset(placed);
    assert x in placed;
  }

  /** `renderedGameObjectCount`: the number of iterator steps, which is the
      number of objects held by the layers. */
  function RenderedGameObjectCount(layers: seq<Layer>): (r: nat)
    ensures r == CountFrom(layers, 0)
  {
    IteratorVisitsAll(layers);
    |Walk(layers, Start(layers))|
  }

  // ---------------------------------------------------------------------
  // generateBatchNodes

  /** What `generateBatchNodes` reads at one iterator step: the layer's
      z-layer, sheet and node z-order, and the object. */
  datatype Entry = Entry(zLayer: int, sheet: int, nodeZOrder: int, obj: GameObject)

  /** The iterator's steps as entries. */
  function Entries(layers: seq<Layer>, host: Host): (r: seq<Entry>)
    ensures |r| == CountFrom(layers, 0)
  {
    IteratorVisitsAll(layers);
    var w := Walk(layers, Start(layers));
    seq(|w|, k requires 0 <= k < |w| =>
      var l := if w[k].0 < |layers| then layers[w[k].0] else Layer(0, false, 0, 0, []);
      Entry(l.zLayer, l.sheet, host.nodeZOrder(l.node), w[k].1))
  }

  /** An `ObjectBatchNode`: its sheet, its z-order in the object layer and
      the objects added to it. */
  datatype BatchNode = BatchNode(sheet: int, zOrder: int, objects: seq<GameObject>)

  /** The loop state: the previous z-layer and sheet, whether
      `currentBatchNode` is non-null, and the nodes created so far. */
  datatype Grouping = Grouping(prevZLayer: int, prevSheet: int, current: bool, nodes: seq<BatchNode>)

  predicate GroupingValid(g: Grouping) {
    g.current ==> |g.nodes| > 0 && g.nodes[|g.nodes| - 1].sheet == g.prevSheet
  }

  /** A fresh node is needed. */
  predicate StartsNode(g: Grouping, e: Entry) {
    !g.current || g.prevZLayer != e.zLayer || g.prevSheet != e.sheet
  }

  /** One step of the loop: create a node when needed (it may come back
      null), then add the object to the current node, if any. */
  function GroupStep(g: Grouping, e: Entry, canCreate: int -> bool): (r: Grouping)
    requires GroupingValid(g)
    ensures GroupingValid(r)
    ensures r.prevZLayer == (if StartsNode(g, e) then e.zLayer else g.prevZLayer)
    ensures r.prevSheet == (if StartsNode(g, e) then e.sheet else g.prevSheet)
  {
    var g1 :=
      if StartsNode(g, e) then
        Grouping(e.zLayer, e.sheet, canCreate(e.sheet),
          if canCreate(e.sheet) then g.nodes + [BatchNode(e.sheet, e.nodeZOrder, [])] else g.nodes)
      else g;
    if g1.current then
      var n := |g1.nodes| - 1;
      g1.(nodes := g1.nodes[n := g1.nodes[n].(objects := g1.nodes[n].objects + [e.obj])])
    else g1
  }

  /** With a node current and creatable sheets, a step adds a node exactly
      when the (z-layer, sheet) pair changes; blending plays no part. */
  lemma GroupStepStartsNodeOnKeyChange(g: Grouping, e: Entry, canCreate: int -> bool)
    requires GroupingValid(g) && g.current && canCreate(e.sheet)
    ensures var r := GroupStep(g, e, canCreate);
      |r.nodes| == |g.nodes| + (if (g.prevZLayer, g.prevSheet) != (e.zLayer, e.sheet) then 1 else 0)
    ensures var r := GroupStep(g, e, canCreate);
      r.current && r.nodes[|r.nodes| - 1].objects[|r.nodes[|r.nodes| - 1].objects| - 1] == e.obj
  {
  }

  /** After a failed creation the next object tries again, even with the
      same z-layer and sheet. */
  lemma FailedCreationRetries(g: Grouping, e: Entry, canCreate: int -> bool)
    requires GroupingValid(g) && StartsNode(g, e) && !canCreate(e.sheet)
    ensures var r := GroupStep(g, e, canCreate);
      !r.current && r.nodes == g.nodes && StartsNode(r, e)
  {
  }

  /** The whole loop over the entries. */
  function GroupEntries(es: seq<Entry>, canCreate: int -> bool): (r: Grouping)
    ensures GroupingValid(r)
    ensures |es| > 0 ==> r.prevZLayer == es[|es| - 1].zLayer && r.prevSheet == es[|es| - 1].sheet
  {
    if |es| == 0 then Grouping(0, 0, false, [])
    else GroupStep(GroupEntries(es[..|es| - 1], canCreate), es[|es| - 1], canCreate)
  }

  /** `generateBatchNodes`. */
  function GenerateBatchNodes(layers: seq<Layer>, host: Host, canCreate: int -> bool): seq<BatchNode> {
    GroupEntries(Entries(layers, host), canCreate).nodes
  }

  /** The objects of the nodes, node by node. */
  function Flatten(nodes: seq<BatchNode>): seq<GameObject> {
    if |nodes| == 0 then [] else Flatten(nodes[..|nodes| - 1]) + nodes[|nodes| - 1].objects
  }

  function ObjectsOf(es: seq<Entry>): (r: seq<GameObject>)
    ensures |r| == |es| && forall k :: 0 <= k < |es| ==> r[k] == es[k].obj
  {
    seq(|es|, k requires 0 <= k < |es| => es[k].obj)
  }

  /** The number of maximal runs of entries with the same (z-layer, sheet)
      pair. */
  function Runs(es: seq<Entry>): nat {
    if |es| == 0 then 0
    else
      var n := |es|;
      Runs(es[..n - 1]) + (if n == 1 || (es[n - 2].zLayer, es[n - 2].sheet) != (es[n - 1].zLayer, es[n - 1].sheet) then 1 else 0)
  }

  predicate AllCreatable(es: seq<Entry>, canCreate: int -> bool) {
    forall k :: 0 <= k < |es| ==> canCreate(es[k].sheet)
  }

  lemma FlattenAppendLast(nodes: seq<BatchNode>, o: GameObject)
    requires |nodes| > 0
    ensures var n := |nodes| - 1;
      Flatten(nodes[n := nodes[n].(objects := nodes[n].objects + [o])]) == Flatten(nodes) + [o]
  {
    var n := |nodes| - 1;
    var u := nodes[n := nodes[n].(objects := nodes[n].objects + [o])];
    assert u[..n] == nodes[..n];
  }

  lemma FlattenAppendEmpty(nodes: seq<BatchNode>, b: BatchNode)
    requires b.objects == []
    ensures Flatten(nodes + [b]) == Flatten(nodes)
  {
    assert (nodes + [b])[..|nodes|] == nodes;
  }

  /** A step whose sheet can get a node adds the object at the end of the
      flattened nodes, and adds a node exactly when one is needed. */
  lemma GroupStepCreatable(g: Grouping, e: Entry, canCreate: int -> bool)
    requires GroupingValid(g) && canCreate(e.sheet)
    ensures var r := GroupStep(g, e, canCreate);
      r.current && Flatten(r.nodes) == Flatten(g.nodes) + [e.obj] &&
      |r.nodes| == |g.nodes| + (if StartsNode(g, e) then 1 else 0)
  {
    var g1 :=
      if StartsNode(g, e) then Grouping(e.zLayer, e.sheet, true, g.nodes + [BatchNode(e.sheet, e.nodeZOrder, [])])
      else g;
    if StartsNode(g, e) {
      FlattenAppendEmpty(g.nodes, BatchNode(e.sheet, e.nodeZOrder, []));
    }
    FlattenAppendLast(g1.nodes, e.obj);
  }

  lemma PrefixCreatable(es: seq<Entry>, canCreate: int -> bool)
    requires |es| > 0 && AllCreatable(es, canCreate)
    ensures AllCreatable(es[..|es| - 1], canCreate)
  {
    var p := es[..|es| - 1];
    forall k | 0 <= k < |p| ensures canCreate(p[k].sheet) {
      assert p[k] == es[k];
    }
  }

  lemma ObjectsOfSnoc(es: seq<Entry>)
    requires |es| > 0
    ensures ObjectsOf(es) == ObjectsOf(es[..|es| - 1]) + [es[|es| - 1].obj]
  {
  }

  /** Once a node is current, the loop starts a node for the last entry
      exactly when a new run begins there. */
  lemma StartsNodeOnNewRun(es: seq<Entry>, canCreate: int -> bool)
    requires |es| > 0
    requires GroupEntries(es[..|es| - 1], canCreate).current == (|es| > 1)
    ensures Runs(es) == Runs(es[..|es| - 1])
      + (if StartsNode(GroupEntries(es[..|es| - 1], canCreate), es[|es| - 1]) then 1 else 0)
  {
    var n := |es|;
    var p := es[..n - 1];
    var g := GroupEntries(p, canCreate);
    var change := n == 1 || (es[n - 2].zLayer, es[n - 2].sheet) != (es[n - 1].zLayer, es[n - 1].sheet);
    assert Runs(es) == Runs(p) + (if change then 1 else 0);
    if n > 1 {
      assert es[n - 2] == p[|p| - 1];
      assert g.prevZLayer == es[n - 2].zLayer && g.prevSheet == es[n - 2].sheet;
    }
  }

  /** When every sheet met can get a node, the nodes hold every object in
      iterator order, one node per run of equal (z-layer, sheet) pairs. */
  lemma {:induction false} GroupEntriesPartitions(es: seq<Entry>, canCreate: int -> bool)
    requires AllCreatable(es, canCreate)
    ensures var r := GroupEntries(es, canCreate);
      Flatten(r.nodes) == ObjectsOf(es) && |r.nodes| == Runs(es) && r.current == (|es| > 0)
  {
    if |es| > 0 {
      var p := es[..|es| - 1];
      PrefixCreatable(es, canCreate);
      GroupEntriesPartitions(p, canCreate);
      GroupStepCreatable(GroupEntries(p, canCreate), es[|es| - 1], canCreate);
      ObjectsOfSnoc(es);
      StartsNodeOnNewRun(es, canCreate);
    }
  }

  // ---------------------------------------------------------------------
  // prepareDynamicRenderingBuffer

  datatype Rgba = Rgba(r: int, g: int, b: int, a: int)

  /** A colour action sprite: its channel and its colour, the opacity
      already converted to the alpha byte. */
  datatype ColorAction = ColorAction(colorId: nat, color: Rgba)

  /** The part of the dynamic rendering buffer this pass writes: the colour
      of each channel and the blending bitmap, 32 channels per word. */
  datatype Drb = Drb(channelColors: map<nat, Rgba>, bitmap: seq<Word>)

  /** Bit `b` of a word. */
  predicate BitOf(w: Word, b: nat)
    requires b < WORD_BITS
  {
    w[b]
  }

  /** `c & 0x1f`, the bit of channel `c` within its word. */
  function BitIndex(c: nat): (r: nat)
    ensures r < WORD_BITS
  {
    c % 32
  }

  /** The blending bit of channel `c`: bit `c & 31` of word `c >> 5`. */
  predicate Bit(bitmap: seq<Word>, c: nat)
    requires c < 32 * |bitmap|
  {
    BitOf(bitmap[c / 32], BitIndex(c))
  }

  /** Whether channel `c` blends: the host says so, or it is one of the
      player channels or the light-background channel. */
  predicate Blends(c: int, shouldBlend: int -> bool) {
    shouldBlend(c) || c == COLOR_CHANNEL_P1 || c == COLOR_CHANNEL_P2 || c == COLOR_CHANNEL_LBG
  }

  /** `|= 1 << b` or `&= ~(1 << b)`: bit `b` becomes `on`, every other bit
      keeps its value. */
  function SetBit(w: Word, b: nat, on: bool): (r: Word)
    requires b < WORD_BITS
    ensures BitOf(r, b) == on
    ensures forall b2 :: 0 <= b2 < WORD_BITS && b2 != b ==> BitOf(r, b2) == BitOf(w, b2)
  {
    if on then Or(w, Shl(One(), b)) else And(w, Not(Shl(One(), b)))
  }

  /** Two channels of one word have different bit indices. */
  lemma BitIndexInjective(c: nat, d: nat)
    requires c / 32 == d / 32 && c != d
    ensures BitIndex(c) != BitIndex(d)
  {
  }

  /** The channels of the non-null actions. */
  function ActionIds(actions: seq<Option<ColorAction>>): (r: set<nat>)
    ensures forall c :: c in r <==> exists i :: 0 <= i < |actions| && actions[i].Some? && actions[i].value.colorId == c
  {
    if |actions| == 0 then {}
    else
      var n := |actions| - 1;
      assert forall i :: 0 <= i < n ==> actions[..n][i] == actions[i];
      ActionIds(actions[..n]) + (if actions[n].Some? then {actions[n].value.colorId} else {})
  }

  /** No later non-null action is for the same channel as action `i`. */
  predicate LastFor(actions: seq<Option<ColorAction>>, i: int)
    requires 0 <= i < |actions| && actions[i].Some?
  {
    forall j :: i < j < |actions| && actions[j].Some? ==> actions[j].value.colorId != actions[i].value.colorId
  }

  /** The colour each channel ends with: that of its last action. */
  function ActionColors(actions: seq<Option<ColorAction>>): (r: map<nat, Rgba>)
    ensures r.Keys == ActionIds(actions)
    ensures forall i :: 0 <= i < |actions| && actions[i].Some? && LastFor(actions, i) ==>
      r[actions[i].value.colorId] == actions[i].value.color
  {
    if |actions| == 0 then map[]
    else
      var n := |actions| - 1;
      var prev := ActionColors(actions[..n]);
      var r := if actions[n].Some? then prev[actions[n].value.colorId := actions[n].value.color] else prev;
      forall i | 0 <= i < |actions| && actions[i].Some? && LastFor(actions, i)
        ensures r[actions[i].value.colorId] == actions[i].value.color
      {
        if i < n {
          assert actions[..n][i] == actions[i];
          assert LastFor(actions[..n], i);
          assert actions[n].Some? ==> actions[n].value.colorId != actions[i].value.colorId;
        }
      }
      r
  }

  predicate AllInBitmap(bitmap: seq<Word>, actions: seq<Option<ColorAction>>) {
    forall i :: 0 <= i < |actions| && actions[i].Some? ==> actions[i].value.colorId < 32 * |bitmap|
  }

  /** One pass of the loop over the colour actions. */
  function ApplyAction(d: Drb, a: ColorAction, shouldBlend: int -> bool): (r: Drb)
    requires a.colorId < 32 * |d.bitmap|
    ensures |r.bitmap| == |d.bitmap| && r.channelColors == d.channelColors[a.colorId := a.color]
    ensures Bit(r.bitmap, a.colorId) == Blends(a.colorId, shouldBlend)
    ensures forall c :: 0 <= c < 32 * |d.bitmap| && c != a.colorId ==> Bit(r.bitmap, c) == Bit(d.bitmap, c)
  {
    var w := a.colorId / 32;
    var r := d.(channelColors := d.channelColors[a.colorId := a.color],
                bitmap := d.bitmap[w := SetBit(d.bitmap[w], BitIndex(a.colorId), Blends(a.colorId, shouldBlend))]);
    forall c | 0 <= c < 32 * |d.bitmap| && c != a.colorId ensures Bit(r.bitmap, c) == Bit(d.bitmap, c) {
      if c / 32 == w {
        BitIndexInjective(c, a.colorId);
      }
    }
    r
  }

  lemma PrefixInBitmap(bitmap: seq<Word>, actions: seq<Option<ColorAction>>)
    requires |actions| > 0 && AllInBitmap(bitmap, actions)
    ensures AllInBitmap(bitmap, actions[..|actions| - 1])
  {
    var n := |actions| - 1;
    forall i | 0 <= i < n && actions[..n][i].Some? ensures actions[..n][i].value.colorId < 32 * |bitmap| {
      assert actions[..n][i] == actions[i];
    }
  }

  lemma ActionIdsSnoc(actions: seq<Option<ColorAction>>)
    requires |actions| > 0
    ensures var n := |actions| - 1;
      ActionIds(actions) == ActionIds(actions[..n]) + (if actions[n].Some? then {actions[n].value.colorId} else {})
  {
  }

  /** The loop of `prepareDynamicRenderingBuffer`, null entries skipped. */
  function ApplyActions(d: Drb, actions: seq<Option<ColorAction>>, shouldBlend: int -> bool): (r: Drb)
    requires AllInBitmap(d.bitmap, actions)
    ensures |r.bitmap| == |d.bitmap|
    ensures r.channelColors == d.channelColors + ActionColors(actions)
  {
    if |actions| == 0 then d
    else
      var n := |actions| - 1;
      PrefixInBitmap(d.bitmap, actions);
      var prev := ApplyActions(d, actions[..n], shouldBlend);
      match actions[n]
      case None => prev
      case Some(a) =>
        UnionUpdate(d.channelColors, ActionColors(actions[..n]), a.colorId, a.color);
        ApplyAction(prev, a, shouldBlend)
  }

  /** Updating a union updates its right operand. */
  lemma UnionUpdate<K, V>(m: map<K, V>, n: map<K, V>, k: K, v: V)
    ensures (m + n)[k := v] == m + n[k := v]
  {
  }

  /** After the loop, a channel's bit says whether it blends when it had
      an action, and is left as it was otherwise. */
  lemma {:induction false} ApplyActionsBits(d: Drb, actions: seq<Option<ColorAction>>, shouldBlend: int -> bool, c: int)
    requires AllInBitmap(d.bitmap, actions) && 0 <= c < 32 * |d.bitmap|
    ensures Bit(ApplyActions(d, actions, shouldBlend).bitmap, c)
      == (if c in ActionIds(actions) then Blends(c, shouldBlend) else Bit(d.bitmap, c))
  {
    if |actions| > 0 {
      var n := |actions| - 1;
      PrefixInBitmap(d.bitmap, actions);
      ApplyActionsBits(d, actions[..n], shouldBlend, c);
      ActionIdsSnoc(actions);
    }
  }

  /** `prepareDynamicRenderingBuffer`'s colour part: the actions, then the
      black channel forced to opaque black. */
  function PrepareDynamicRenderingBuffer(d: Drb, actions: seq<Option<ColorAction>>, shouldBlend: int -> bool): (r: Drb)
    requires AllInBitmap(d.bitmap, actions)
    ensures |r.bitmap| == |d.bitmap|
    ensures COLOR_CHANNEL_BLACK in r.channelColors && r.channelColors[COLOR_CHANNEL_BLACK] == Rgba(0, 0, 0, 255)
    ensures forall c :: c != COLOR_CHANNEL_BLACK ==>
      (c in r.channelColors <==> c in d.channelColors || c in ActionIds(actions))
    ensures forall i :: 0 <= i < |actions| && actions[i].Some? && LastFor(actions, i) ==>
      actions[i].value.colorId in r.channelColors &&
      (actions[i].value.colorId != COLOR_CHANNEL_BLACK ==> r.channelColors[actions[i].value.colorId] == actions[i].value.color)
    ensures forall c :: c != COLOR_CHANNEL_BLACK && c in d.channelColors && c !in ActionIds(actions) ==>
      r.channelColors[c] == d.channelColors[c]
  {
    var r := ApplyActions(d, actions, shouldBlend);
    r.(channelColors := r.channelColors[COLOR_CHANNEL_BLACK := Rgba(0, 0, 0, 255)])
  }

  /** The player and light-background channels end up blending whenever
      they have an action, whatever the host says. */
  lemma SpecialChannelsAlwaysBlend(d: Drb, actions: seq<Option<ColorAction>>, shouldBlend: int -> bool, c: nat)
    requires AllInBitmap(d.bitmap, actions)
    requires c in {COLOR_CHANNEL_P1, COLOR_CHANNEL_P2, COLOR_CHANNEL_LBG} && c in ActionIds(actions)
    requires c < 32 * |d.bitmap|
    ensures Bit(PrepareDynamicRenderingBuffer(d, actions, shouldBlend).bitmap, c)
  {
    ApplyActionsBits(d, actions, shouldBlend, c);
  }
}
