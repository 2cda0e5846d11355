/** The game-layer passes the renderer takes over or feeds: `moveObjects`
    and `processMoveActions` (src/decomp/GJBaseGameLayer.cpp), and the
    hooks `removeDecoObjects`, `processMoveActions`,
    `processRotationActions` and `processFollowActions`
    (src/renderer/hooks.cpp).

    Game objects are pointers in the game; here they are the entries of a
    `world` sequence, and a `CCArray` of objects is a sequence of indices
    into it, so an object listed twice is the same object met twice.
    Lookups into the game (`getStaticGroup`, `getOptimizedGroup`,
    `tryGetMainObject`, the effect manager's linked-rotation map) are
    parameters. */
module GameLayers {
  import opened Wrappers
  import opened Geometry
  import opened GroupCombinations
  import opened GroupManagers

  /** `GameObjectType`, as far as these passes tell types apart. */
  datatype ObjectType = Decoration | Solid | OtherType

  /** The fields of a `GameObject` the move and follow passes read and
      write. */
  datatype ObjectState = ObjectState(
    position: Vec2,        // m_positionX, m_positionY
    lastPosition: Vec2,    // m_lastPosition
    stamp: int,            // m_unk4C4: the tick of the object's last snapshot
    isDecoration2: bool,   // m_isDecoration2
    tempOffsetX: bool,     // m_tempOffsetXRelated
    objectType: ObjectType)

  // ---------------------------------------------------------------------
  // moveObjects

  /** What a move by `(moveX, moveY)` adds to the object's position: the
      x part is dropped while the temporary x offset is in effect. */
  function Effective(o: ObjectState, moveX: real, moveY: real): Vec2 {
    Vec2(if o.tempOffsetX then 0.0 else moveX, moveY)
  }

  /** The loop body of `moveObjects` for one object at tick `tick`. */
  function MoveObject(o: ObjectState, moveX: real, moveY: real, tick: int): (r: ObjectState)
    ensures r.isDecoration2 == o.isDecoration2 && r.tempOffsetX == o.tempOffsetX && r.objectType == o.objectType
    ensures r.position == Add(o.position, Effective(o, moveX, moveY))
    ensures o.isDecoration2 ==> r.stamp == o.stamp && r.lastPosition == o.lastPosition
    ensures !o.isDecoration2 ==> r.stamp == tick
    ensures !o.isDecoration2 && o.stamp != tick ==> r.lastPosition == o.position
    ensures o.stamp == tick ==> r.lastPosition == o.lastPosition
  {
    var snap := if !o.isDecoration2 && o.stamp != tick then o.(stamp := tick, lastPosition := o.position) else o;
    var x := if moveX != 0.0 && !o.tempOffsetX then snap.position.x + moveX else snap.position.x;
    var y := if moveY != 0.0 then snap.position.y + moveY else snap.position.y;
    snap.(position := Vec2(x, y))
  }

  /** The object after `k` moves in tick `tick`: the position has moved
      `k` times, and the last position is the one snapshotted by the
      first of them, or the earlier one if the object was already
      snapshotted this tick or is a decoration. */
  function MovedTimes(o: ObjectState, k: nat, moveX: real, moveY: real, tick: int): ObjectState {
    if k == 0 then o
    else
      o.(position := Add(o.position, Scale(Effective(o, moveX, moveY), k as real)),
         stamp := if o.isDecoration2 then o.stamp else tick,
         lastPosition := if !o.isDecoration2 && o.stamp != tick then o.position else o.lastPosition)
  }

  lemma MovedTimesStep(o: ObjectState, k: nat, moveX: real, moveY: real, tick: int)
    ensures MoveObject(MovedTimes(o, k, moveX, moveY, tick), moveX, moveY, tick) == MovedTimes(o, k + 1, moveX, moveY, tick)
  {
    var e := Effective(o, moveX, moveY);
    if k > 0 {
      AddScaleStep(o.position, e, k);
    }
  }

  /** A second move in the same tick keeps the snapshot of the first and
      adds its own displacement. */
  lemma MoveTwiceSameTick(o: ObjectState, x1: real, y1: real, x2: real, y2: real, tick: int)
    ensures var once := MoveObject(o, x1, y1, tick);
      var twice := MoveObject(once, x2, y2, tick);
      && twice.lastPosition == once.lastPosition && twice.stamp == once.stamp
      && twice.position == Add(Add(o.position, Effective(o, x1, y1)), Effective(o, x2, y2))
  {
  }

  /** Every index of `list` names an object of `world`. */
  predicate IndicesIn(list: seq<nat>, world: seq<ObjectState>) {
    forall k :: 0 <= k < |list| ==> list[k] < |world|
  }

  /** The objects of `list` moved one after the other. */
  function MoveEach(world: seq<ObjectState>, list: seq<nat>, moveX: real, moveY: real, tick: int): (r: seq<ObjectState>)
    requires IndicesIn(list, world)
    ensures |r| == |world|
    decreases |list|
  {
    if |list| == 0 then world
    else
      var n := |list| - 1;
      var prev := MoveEach(world, list[..n], moveX, moveY, tick);
      prev[list[n] := MoveObject(prev[list[n]], moveX, moveY, tick)]
  }

  /** Moving the objects of a list moves each object once per time the
      list holds it, and leaves every other object as it was. */
  lemma {:induction false} MoveEachClosedForm(world: seq<ObjectState>, list: seq<nat>, moveX: real, moveY: real, tick: int)
    requires IndicesIn(list, world)
    ensures forall j :: 0 <= j < |world| ==>
      MoveEach(world, list, moveX, moveY, tick)[j] == MovedTimes(world[j], multiset(list)[j], moveX, moveY, tick)
    decreases |list|
  {
    if |list| > 0 {
      var n := |list| - 1;
      MoveEachClosedForm(world, list[..n], moveX, moveY, tick);
      assert list == list[..n] + [list[n]];
      forall j | 0 <= j < |world|
        ensures MoveEach(world, list, moveX, moveY, tick)[j] == MovedTimes(world[j], multiset(list)[j], moveX, moveY, tick)
      {
        if j == list[n] {
          MovedTimesStep(world[j], multiset(list[..n])[j], moveX, moveY, tick);
        }
      }
    }
  }

  /** `moveObjects` with a possibly null array, as a function. */
  function MoveAll(world: seq<ObjectState>, objects: Option<seq<nat>>, moveX: real, moveY: real, tick: int): (r: seq<ObjectState>)
    requires objects.Some? ==> IndicesIn(objects.value, world)
    ensures |r| == |world|
  {
    if objects.None? then world else MoveEach(world, objects.value, moveX, moveY, tick)
  }

  /** `moveObjects`. A null array moves nothing; otherwise each object of
      the array is moved once per time it is listed, snapshotting its
      position at most once per tick. The section, rect and
      disabled-object bookkeeping calls into the game are not modelled. */
  method MoveObjects(world: seq<ObjectState>, objects: Option<seq<nat>>, moveX: real, moveY: real, tick: int)
    returns (r: seq<ObjectState>)
    requires objects.Some? ==> IndicesIn(objects.value, world)
    ensures r == MoveAll(world, objects, moveX, moveY, tick)
    ensures objects.None? ==> r == world
    ensures objects.Some? ==> forall j :: 0 <= j < |world| ==>
      r[j] == MovedTimes(world[j], multiset(objects.value)[j], moveX, moveY, tick)
  {
    if objects.None? {
      return world;
    }
    var list := objects.value;
    r := world;
    var i := 0;
    while i < |list|
      invariant 0 <= i <= |list|
      invariant r == MoveEach(world, list[..i], moveX, moveY, tick)
    {
      assert list[..i + 1][..i] == list[..i];
      var j := list[i];
      r := r[j := MoveObject(r[j], moveX, moveY, tick)];
      i := i + 1;
    }
    assert list[..i] == list;
    MoveEachClosedForm(world, list, moveX, moveY, tick);
  }

  // ---------------------------------------------------------------------
  // processMoveActions

  /** A move node of the effect manager (`m_unkVector6c0`). */
  datatype MoveNode = MoveNode(
    groupId: GroupId,      // getTag()
    skipped: bool,         // m_unk0d0
    staticMove: Vec2,      // m_unk038, m_unk040
    optimizedMove: Vec2)   // m_unk090, m_unk098

  /** The game's static and optimized object arrays per group id; a
      missing key is a null array. */
  datatype Groups = Groups(staticArrays: map<GroupId, seq<nat>>, optimizedArrays: map<GroupId, seq<nat>>)

  predicate GroupsIn(groups: Groups, world: seq<ObjectState>) {
    && (forall g :: g in groups.staticArrays ==> IndicesIn(groups.staticArrays[g], world))
    && (forall g :: g in groups.optimizedArrays ==> IndicesIn(groups.optimizedArrays[g], world))
  }

  function Lookup(arrays: map<GroupId, seq<nat>>, g: GroupId): Option<seq<nat>> {
    if g in arrays then Some(arrays[g]) else None
  }

  /** The loop body of `processMoveActions` for one node. */
  function NodeMove(world: seq<ObjectState>, node: MoveNode, groups: Groups, tick: int): (r: seq<ObjectState>)
    requires GroupsIn(groups, world)
    ensures |r| == |world| && GroupsIn(groups, r)
    ensures node.skipped ==> r == world
  {
    if node.skipped then world
    else
      var afterStatic := MoveAll(world, Lookup(groups.staticArrays, node.groupId), node.staticMove.x, node.staticMove.y, tick);
      MoveAll(afterStatic, Lookup(groups.optimizedArrays, node.groupId), node.optimizedMove.x, node.optimizedMove.y, tick)
  }

  /** The nodes applied in order. */
  function ProcessMoves(world: seq<ObjectState>, nodes: seq<MoveNode>, groups: Groups, tick: int): (r: seq<ObjectState>)
    requires GroupsIn(groups, world)
    ensures |r| == |world| && GroupsIn(groups, r)
    decreases |nodes|
  {
    if |nodes| == 0 then world
    else NodeMove(ProcessMoves(world, nodes[..|nodes| - 1], groups, tick), nodes[|nodes| - 1], groups, tick)
  }

  /** The nodes that are not skipped, in order. */
  function Unskipped(nodes: seq<MoveNode>): (r: seq<MoveNode>)
    ensures forall k :: 0 <= k < |r| ==> !r[k].skipped
    ensures forall x :: x in r <==> x in nodes && !x.skipped
    decreases |nodes|
  {
    if |nodes| == 0 then []
    else
      var n := |nodes| - 1;
      Unskipped(nodes[..n]) + (if nodes[n].skipped then [] else [nodes[n]])
  }

  /** Skipped nodes have no effect: the pass over all nodes is the pass
      over the nodes that are not skipped. */
  lemma {:induction false} SkippedNodesHaveNoEffect(world: seq<ObjectState>, nodes: seq<MoveNode>, groups: Groups, tick: int)
    requires GroupsIn(groups, world)
    ensures ProcessMoves(world, nodes, groups, tick) == ProcessMoves(world, Unskipped(nodes), groups, tick)
    decreases |nodes|
  {
    if |nodes| > 0 {
      var n := |nodes| - 1;
      SkippedNodesHaveNoEffect(world, nodes[..n], groups, tick);
      var u := Unskipped(nodes[..n]);
      var before := ProcessMoves(world, nodes[..n], groups, tick);
      assert ProcessMoves(world, nodes, groups, tick) == NodeMove(before, nodes[n], groups, tick);
      if nodes[n].skipped {
        assert Unskipped(nodes) == u;
      } else {
        assert Unskipped(nodes) == u + [nodes[n]];
        assert (u + [nodes[n]])[..|u|] == u;
        assert ProcessMoves(world, u + [nodes[n]], groups, tick) == NodeMove(ProcessMoves(world, u, groups, tick), nodes[n], groups, tick);
      }
    }
  }

  /** How often the array of group `g` lists object `j`; a null array
      lists none. */
  function Listings(arrays: map<GroupId, seq<nat>>, g: GroupId, j: nat): nat {
    if g in arrays then multiset(arrays[g])[j] else 0
  }

  /** Moving a possibly null array moves each object by its effective move
      once per listing, and keeps its flags. */
  lemma MoveAllPosition(world: seq<ObjectState>, arrays: map<GroupId, seq<nat>>, g: GroupId,
                        moveX: real, moveY: real, tick: int, j: nat)
    requires g in arrays ==> IndicesIn(arrays[g], world)
    requires j < |world|
    ensures var o := MoveAll(world, Lookup(arrays, g), moveX, moveY, tick)[j];
      && o.position == Add(world[j].position, Scale(Effective(world[j], moveX, moveY), Listings(arrays, g, j) as real))
      && o.tempOffsetX == world[j].tempOffsetX && o.isDecoration2 == world[j].isDecoration2
      && o.objectType == world[j].objectType
  {
    var k := Listings(arrays, g, j);
    var e := Effective(world[j], moveX, moveY);
    if g in arrays {
      MoveEachClosedForm(world, arrays[g], moveX, moveY, tick);
      assert MoveAll(world, Lookup(arrays, g), moveX, moveY, tick)[j] == MovedTimes(world[j], k, moveX, moveY, tick);
    } else {
      assert MoveAll(world, Lookup(arrays, g), moveX, moveY, tick) == world;
    }
    if k == 0 {
      assert Scale(e, k as real) == Vec2(0.0, 0.0);
      assert Add(world[j].position, Vec2(0.0, 0.0)) == world[j].position;
    }
  }

  /** What the nodes that are not skipped add to the position of object
      `o`, the object at index `j`: each node's static move once per
      listing of `j` in its group's static array, and its optimized move
      once per listing in the optimized array, the x part dropped under
      the temporary x offset. */
  function PassMove(o: ObjectState, j: nat, nodes: seq<MoveNode>, groups: Groups): Vec2
    decreases |nodes|
  {
    if |nodes| == 0 then Vec2(0.0, 0.0)
    else
      var n := |nodes| - 1;
      var node := nodes[n];
      var prev := PassMove(o, j, nodes[..n], groups);
      if node.skipped then prev
      else
        Add(Add(prev, Scale(Effective(o, node.staticMove.x, node.staticMove.y), Listings(groups.staticArrays, node.groupId, j) as real)),
            Scale(Effective(o, node.optimizedMove.x, node.optimizedMove.y), Listings(groups.optimizedArrays, node.groupId, j) as real))
  }

  /** After the pass every object has moved by its `PassMove`, whatever
      the order of the nodes' moves, and kept its flags. */
  lemma {:induction false} ProcessMovesClosedForm(world: seq<ObjectState>, nodes: seq<MoveNode>, groups: Groups, tick: int, j: nat)
    requires GroupsIn(groups, world) && j < |world|
    ensures var o := ProcessMoves(world, nodes, groups, tick)[j];
      && o.position == Add(world[j].position, PassMove(world[j], j, nodes, groups))
      && o.tempOffsetX == world[j].tempOffsetX && o.isDecoration2 == world[j].isDecoration2
      && o.objectType == world[j].objectType
    decreases |nodes|
  {
    if |nodes| == 0 {
      assert Add(world[j].position, Vec2(0.0, 0.0)) == world[j].position;
    } else {
      var n := |nodes| - 1;
      var node := nodes[n];
      ProcessMovesClosedForm(world, nodes[..n], groups, tick, j);
      var prev := ProcessMoves(world, nodes[..n], groups, tick);
      if !node.skipped {
        MoveAllPosition(prev, groups.staticArrays, node.groupId, node.staticMove.x, node.staticMove.y, tick, j);
        var afterStatic := MoveAll(prev, Lookup(groups.staticArrays, node.groupId), node.staticMove.x, node.staticMove.y, tick);
        MoveAllPosition(afterStatic, groups.optimizedArrays, node.groupId, node.optimizedMove.x, node.optimizedMove.y, tick, j);
      }
    }
  }

  /** Skipped nodes add nothing to an object's move. */
  lemma {:induction false} PassMoveUnskipped(o: ObjectState, j: nat, nodes: seq<MoveNode>, groups: Groups)
    ensures PassMove(o, j, Unskipped(nodes), groups) == PassMove(o, j, nodes, groups)
    decreases |nodes|
  {
    if |nodes| > 0 {
      var n := |nodes| - 1;
      PassMoveUnskipped(o, j, nodes[..n], groups);
      var u := Unskipped(nodes[..n]);
      if nodes[n].skipped {
        assert Unskipped(nodes) == u;
      } else {
        var v := u + [nodes[n]];
        assert Unskipped(nodes) == v;
        assert v[..|u|] == u && v[|u|] == nodes[n];
        assert PassMove(o, j, v, groups) == Add(Add(PassMove(o, j, u, groups),
          Scale(Effective(o, nodes[n].staticMove.x, nodes[n].staticMove.y), Listings(groups.staticArrays, nodes[n].groupId, j) as real)),
          Scale(Effective(o, nodes[n].optimizedMove.x, nodes[n].optimizedMove.y), Listings(groups.optimizedArrays, nodes[n].groupId, j) as real));
      }
    }
  }

  /** `processMoveActions` (the game's own, src/decomp/GJBaseGameLayer.cpp):
      each node that is not skipped moves its group's static objects by
      its static move and its optimized objects by its optimized move, so
      every object ends moved by its `PassMove`. */
  method ProcessMoveActions(world: seq<ObjectState>, nodes: seq<MoveNode>, groups: Groups, tick: int)
    returns (r: seq<ObjectState>)
    requires GroupsIn(groups, world)
    ensures r == ProcessMoves(world, Unskipped(nodes), groups, tick)
    ensures |r| == |world|
    ensures forall j :: 0 <= j < |world| ==>
      r[j].position == Add(world[j].position, PassMove(world[j], j, nodes, groups))
  {
    r := world;
    var i := 0;
    while i < |nodes|
      invariant 0 <= i <= |nodes| && GroupsIn(groups, r)
      invariant r == ProcessMoves(world, nodes[..i], groups, tick)
    {
      assert nodes[..i + 1][..i] == nodes[..i];
      var node := nodes[i];
      if !node.skipped {
        r := MoveObjects(r, Lookup(groups.staticArrays, node.groupId), node.staticMove.x, node.staticMove.y, tick);
        r := MoveObjects(r, Lookup(groups.optimizedArrays, node.groupId), node.optimizedMove.x, node.optimizedMove.y, tick);
      }
      i := i + 1;
    }
    assert nodes[..i] == nodes;
    SkippedNodesHaveNoEffect(world, nodes, groups, tick);
    forall j | 0 <= j < |world|
      ensures r[j].position == Add(world[j].position, PassMove(world[j], j, nodes, groups))
    {
      ProcessMovesClosedForm(world, nodes, groups, tick, j);
    }
  }

  /** The renderer's share of the hooked `processMoveActions`: the group
      manager moves each node's group by the node's static move. */
  function MoveGroups(states: seq<GroupState>, m: Manager, nodes: seq<MoveNode>): (r: seq<GroupState>)
    requires Valid(m) && |states| >= m.next
    ensures |r| == |states|
    decreases |nodes|
  {
    if |nodes| == 0 then states
    else
      var n := |nodes| - 1;
      var prev := MoveGroups(states, m, nodes[..n]);
      ListedInRange(m, prev, nodes[n].groupId);
      if nodes[n].skipped then prev
      else MoveGroup(prev, m, nodes[n].groupId, nodes[n].staticMove.x, nodes[n].staticMove.y)
  }

  /** The sum of the static moves of the nodes that are not skipped, each
      counted once per occurrence of its group id among the ids of `c`. */
  function TotalMove(nodes: seq<MoveNode>, c: Combination): Vec2
    requires Wellformed(c)
    decreases |nodes|
  {
    if |nodes| == 0 then Vec2(0.0, 0.0)
    else
      var n := |nodes| - 1;
      var node := nodes[n];
      if node.skipped then TotalMove(nodes[..n], c)
      else Add(TotalMove(nodes[..n], c), Scale(node.staticMove, multiset(Span(c))[node.groupId] as real))
  }

  /** After the hooked pass, the offset of a known combination has moved
      by the static move of every node whose group it contains, once per
      occurrence of that group, and nothing else of its state changed. */
  lemma {:induction false} MoveGroupsOffset(states: seq<GroupState>, m: Manager, nodes: seq<MoveNode>, c: Combination)
    requires Valid(m) && |states| >= m.next && c in m.indices
    ensures var i := m.indices[c];
      var r := MoveGroups(states, m, nodes)[i];
      && r.offset == Add(states[i].offset, TotalMove(nodes, c))
      && r.positional == states[i].positional && r.local == states[i].local && r.opacity == states[i].opacity
    decreases |nodes|
  {
    var i := m.indices[c];
    if |nodes| == 0 {
      assert Add(states[i].offset, Vec2(0.0, 0.0)) == states[i].offset;
    } else {
      var n := |nodes| - 1;
      var node := nodes[n];
      MoveGroupsOffset(states, m, nodes[..n], c);
      var prev := MoveGroups(states, m, nodes[..n]);
      if !node.skipped {
        MoveGroupBySpan(prev, m, node.groupId, node.staticMove.x, node.staticMove.y, c);
        assert node.staticMove == Vec2(node.staticMove.x, node.staticMove.y);
      }
    }
  }

  /** The loop body of the hooked `processMoveActions` for one node. */
  method RendererMoveNode(world: seq<ObjectState>, states: seq<GroupState>, m: Manager,
                          node: MoveNode, groups: Groups, tick: int)
    returns (world': seq<ObjectState>, states': seq<GroupState>)
    requires GroupsIn(groups, world) && Valid(m) && |states| >= m.next
    ensures world' == NodeMove(world, node, groups, tick)
    ensures states' == MoveGroups(states, m, [node]) && |states'| == |states|
  {
    assert [node][..0] == [];
    world', states' := world, states;
    if !node.skipped {
      ListedInRange(m, states, node.groupId);
      states' := MoveGroup(states, m, node.groupId, node.staticMove.x, node.staticMove.y);
      world' := MoveObjects(world, Lookup(groups.staticArrays, node.groupId), node.staticMove.x, node.staticMove.y, tick);
      world' := MoveObjects(world', Lookup(groups.optimizedArrays, node.groupId), node.optimizedMove.x, node.optimizedMove.y, tick);
    }
  }

  /** The hooked `processMoveActions` (src/renderer/hooks.cpp): the game
      objects move as in the game's own pass, and the group manager's
      state moves with them. */
  method RendererProcessMoveActions(world: seq<ObjectState>, states: seq<GroupState>, m: Manager,
                                    nodes: seq<MoveNode>, groups: Groups, tick: int)
    returns (world': seq<ObjectState>, states': seq<GroupState>)
    requires GroupsIn(groups, world) && Valid(m) && |states| >= m.next
    ensures world' == ProcessMoves(world, Unskipped(nodes), groups, tick)
    ensures states' == MoveGroups(states, m, nodes)
    ensures forall c :: c in m.indices ==>
      states'[m.indices[c]].offset == Add(states[m.indices[c]].offset, TotalMove(nodes, c))
  {
    world', states' := world, states;
    var i := 0;
    while i < |nodes|
      invariant 0 <= i <= |nodes| && GroupsIn(groups, world')
      invariant world' == ProcessMoves(world, nodes[..i], groups, tick)
      invariant states' == MoveGroups(states, m, nodes[..i])
    {
      assert nodes[..i + 1][..i] == nodes[..i];
      world', states' := RendererMoveNode(world', states', m, nodes[i], groups, tick);
      i := i + 1;
    }
    assert nodes[..i] == nodes;
    SkippedNodesHaveNoEffect(world, nodes, groups, tick);
    forall c | c in m.indices
      ensures states'[m.indices[c]].offset == Add(states[m.indices[c]].offset, TotalMove(nodes, c))
    {
      MoveGroupsOffset(states, m, nodes, c);
    }
  }

  // ---------------------------------------------------------------------
  // removeDecoObjects

  /** The entries of `a` that do not name a decoration, in order. */
  function NonDecorations(world: seq<ObjectState>, a: seq<nat>): (r: seq<nat>)
    requires IndicesIn(a, world)
    ensures IndicesIn(r, world)
    decreases |a|
  {
    if |a| == 0 then []
    else
      var n := |a| - 1;
      NonDecorations(world, a[..n]) + (if world[a[n]].objectType == Decoration then [] else [a[n]])
  }

  /** No decoration is left, and every other object is kept as many times
      as it was listed. */
  lemma {:induction false} NonDecorationsKeepOthers(world: seq<ObjectState>, a: seq<nat>)
    requires IndicesIn(a, world)
    ensures forall k :: 0 <= k < |NonDecorations(world, a)| ==> world[NonDecorations(world, a)[k]].objectType != Decoration
    ensures forall x: nat :: x < |world| ==>
      multiset(NonDecorations(world, a))[x] == if world[x].objectType == Decoration then 0 else multiset(a)[x]
    decreases |a|
  {
    if |a| > 0 {
      var n := |a| - 1;
      NonDecorationsKeepOthers(world, a[..n]);
      assert a == a[..n] + [a[n]];
    }
  }

  /** Filtering a concatenation filters each part. */
  lemma {:induction false} NonDecorationsAppend(world: seq<ObjectState>, a: seq<nat>, b: seq<nat>)
    requires IndicesIn(a, world) && IndicesIn(b, world)
    ensures IndicesIn(a + b, world)
    ensures NonDecorations(world, a + b) == NonDecorations(world, a) + NonDecorations(world, b)
    decreases |b|
  {
    assert forall k :: 0 <= k < |a + b| ==> (a + b)[k] == if k < |a| then a[k] else b[k - |a|];
    if |b| == 0 {
      assert a + b == a;
    } else {
      var n := |b| - 1;
      assert (a + b)[..|a + b| - 1] == a + b[..n];
      assert (a + b)[|a + b| - 1] == b[n];
      NonDecorationsAppend(world, a, b[..n]);
    }
  }

  /** Filtering one more entry of `a` extends the filtered prefix by that
      entry exactly when it is not a decoration. */
  lemma NonDecorationsStep(world: seq<ObjectState>, a: seq<nat>, p: nat)
    requires IndicesIn(a, world) && p < |a|
    ensures NonDecorations(world, a[..p + 1]) ==
      NonDecorations(world, a[..p]) + (if world[a[p]].objectType == Decoration then [] else [a[p]])
  {
    assert a[..p + 1][..p] == a[..p];
  }

  /** `removeDecoObjects` on one of the game's group arrays: the index
      moves on only past an object that stays, so after a removal the
      object that slid into place is examined too, and runs of
      decorations are removed entirely. */
  method RemoveDecoObjects(world: seq<ObjectState>, a: seq<nat>) returns (r: seq<nat>)
    requires IndicesIn(a, world)
    ensures r == NonDecorations(world, a)
    ensures forall k :: 0 <= k < |r| ==> r[k] < |world| && world[r[k]].objectType != Decoration
    ensures forall x: nat :: x < |world| ==>
      multiset(r)[x] == if world[x].objectType == Decoration then 0 else multiset(a)[x]
  {
    r := a;
    var i := 0;
    ghost var p := 0;
    while i < |r|
      invariant 0 <= p <= |a| && 0 <= i <= |r|
      invariant IndicesIn(r, world)
      invariant r[..i] == NonDecorations(world, a[..p]) && r[i..] == a[p..]
      decreases |r| - i
    {
      assert a[p..][0] == r[i];
      NonDecorationsStep(world, a, p);
      if world[r[i]].objectType == Decoration {
        r := r[..i] + r[i + 1..];
        assert r[i..] == a[p + 1..];
      } else {
        assert r[..i + 1] == r[..i] + [r[i]];
        i := i + 1;
      }
      p := p + 1;
    }
    assert a[p..] == [];
    assert a[..p] == a;
    assert r == r[..i];
    NonDecorationsKeepOthers(world, a);
  }

  // ---------------------------------------------------------------------
  // processRotationActions

  /** A rotation command of the effect manager (`m_unkVector5b0`, and the
      entries of `m_unkMap770`). */
  datatype RotateCommand = RotateCommand(
    targetId: GroupId,           // m_targetGroupID
    centerId: GroupId,           // m_centerGroupID
    done: bool,                  // m_someInterpValue1RelatedFalse
    staticOne: real,             // m_someInterpValue1RelatedOne
    staticZero: real,            // m_someInterpValue1RelatedZero
    optimizedOne: real,          // m_someInterpValue2RelatedOne
    optimizedZero: real,         // m_someInterpValue2RelatedZero
    finishing: bool,             // m_finishRelated
    lockObjectRotation: bool)    // m_lockObjectRotation

  /** The rotation step of a command: the first interpolation's when the
      target's static group holds objects, the second's otherwise. */
  function Delta(cmd: RotateCommand, staticNonEmpty: bool): real {
    if staticNonEmpty then cmd.staticOne - cmd.staticZero else cmd.optimizedOne - cmd.optimizedZero
  }

  /** The linked entries that are not done. */
  function LiveCount(linked: seq<RotateCommand>): (r: nat)
    ensures r <= |linked|
    decreases |linked|
  {
    if |linked| == 0 then 0
    else LiveCount(linked[..|linked| - 1]) + (if linked[|linked| - 1].done then 0 else 1)
  }

  /** The accumulation loop over the linked entries: each entry that is
      not done adds `delta` once more. */
  function Accumulate(rotation: real, delta: real, linked: seq<RotateCommand>): real
    decreases |linked|
  {
    if |linked| == 0 then rotation
    else
      var prev := Accumulate(rotation, delta, linked[..|linked| - 1]);
      if linked[|linked| - 1].done then prev else prev + delta
  }

  lemma {:induction false} AccumulateCounts(rotation: real, delta: real, linked: seq<RotateCommand>)
    ensures Accumulate(rotation, delta, linked) == rotation + delta * LiveCount(linked) as real
    decreases |linked|
  {
    if |linked| > 0 {
      AccumulateCounts(rotation, delta, linked[..|linked| - 1]);
    }
  }

  /** The rotation a command passes to `rotateGroup`, or `None` when the
      command is done or has nothing to do. The command's own step is
      added once more per live linked entry: the loop adds the command's
      step, not the entry's. */
  function CommandRotation(cmd: RotateCommand, staticNonEmpty: bool,
                           linked: map<(GroupId, GroupId), seq<RotateCommand>>): (r: Option<real>)
    ensures r.Some? <==> !cmd.done && (Delta(cmd, staticNonEmpty) != 0.0 || cmd.finishing)
    ensures r.Some? ==>
      r.value == Delta(cmd, staticNonEmpty) *
                 (1 + (if (cmd.targetId, cmd.centerId) in linked then LiveCount(linked[(cmd.targetId, cmd.centerId)]) else 0)) as real
  {
    var delta := Delta(cmd, staticNonEmpty);
    if cmd.done || (delta == 0.0 && !cmd.finishing) then None
    else
      var key := (cmd.targetId, cmd.centerId);
      if key in linked then
        AccumulateCounts(delta, delta, linked[key]);
        Some(Accumulate(delta, delta, linked[key]))
      else Some(delta)
  }

  /** The hooked `processRotationActions` over the commands in order.
      `staticCount` is the size of the game's static group for an id,
      `mainObjectPosition` the unmodified position of the group's main
      object, if it has one. */
  function ProcessRotations(states: seq<GroupState>, m: Manager, cmds: seq<RotateCommand>,
                            staticCount: GroupId -> nat, mainObjectPosition: GroupId -> Option<Vec2>,
                            linked: map<(GroupId, GroupId), seq<RotateCommand>>,
                            rotate: (Vec2, real) -> Vec2): (r: seq<GroupState>)
    requires Valid(m) && |states| >= m.next
    ensures |r| == |states|
    decreases |cmds|
  {
    if |cmds| == 0 then states
    else
      var n := |cmds| - 1;
      var cmd := cmds[n];
      var prev := ProcessRotations(states, m, cmds[..n], staticCount, mainObjectPosition, linked, rotate);
      match CommandRotation(cmd, staticCount(cmd.targetId) != 0, linked)
      case None => prev
      case Some(angle) =>
        ListedInRange(m, prev, cmd.targetId);
        RotateGroup(prev, m, cmd.targetId, angle, cmd.lockObjectRotation, mainObjectPosition(cmd.centerId), rotate)
  }

  /** A command that is done, or has a zero step without finishing,
      leaves the state as it was. */
  lemma IdleCommandKeepsState(states: seq<GroupState>, m: Manager, cmds: seq<RotateCommand>, cmd: RotateCommand,
                              staticCount: GroupId -> nat, mainObjectPosition: GroupId -> Option<Vec2>,
                              linked: map<(GroupId, GroupId), seq<RotateCommand>>, rotate: (Vec2, real) -> Vec2)
    requires Valid(m) && |states| >= m.next
    requires cmd.done || (Delta(cmd, staticCount(cmd.targetId) != 0) == 0.0 && !cmd.finishing)
    ensures ProcessRotations(states, m, cmds + [cmd], staticCount, mainObjectPosition, linked, rotate)
         == ProcessRotations(states, m, cmds, staticCount, mainObjectPosition, linked, rotate)
  {
    assert (cmds + [cmd])[..|cmds|] == cmds;
  }

  // ---------------------------------------------------------------------
  // processFollowActions

  /** A follow node of the effect manager (`m_unkVector6d8`). */
  datatype FollowNode = FollowNode(
    targetGroupId: GroupId,   // getTag()
    followGroupId: GroupId,   // m_unk074
    xMod: real,               // m_unk080
    yMod: real)               // m_unk088

  /** The move a follow node passes to `moveGroup`: the main object's
      displacement since its snapshot, scaled, if it was snapshotted in
      this tick, and nothing otherwise. */
  function FollowMove(main: ObjectState, node: FollowNode, tick: int): (r: Vec2)
    ensures main.stamp != tick ==> r == Vec2(0.0, 0.0)
  {
    if main.stamp == tick then
      Vec2((main.position.x - main.lastPosition.x) * node.xMod, (main.position.y - main.lastPosition.y) * node.yMod)
    else Vec2(0.0, 0.0)
  }

  /** An object moved `k > 0` times in this tick, first snapshotted by
      the first of those moves, is followed by its `k` moves scaled. */
  lemma FollowAfterMoves(o: ObjectState, k: nat, moveX: real, moveY: real, tick: int, node: FollowNode)
    requires k > 0 && !o.isDecoration2 && o.stamp != tick
    ensures var e := Effective(o, moveX, moveY);
      FollowMove(MovedTimes(o, k, moveX, moveY, tick), node, tick)
        == Vec2(e.x * k as real * node.xMod, e.y * k as real * node.yMod)
  {
  }

  /** An object not moved in this tick is not followed. */
  lemma FollowUnmoved(o: ObjectState, moveX: real, moveY: real, tick: int, node: FollowNode)
    requires o.isDecoration2 && o.stamp != tick
    ensures FollowMove(MovedTimes(o, 1, moveX, moveY, tick), node, tick) == Vec2(0.0, 0.0)
  {
  }

  /** The hooked `processFollowActions`: nodes whose followed group has no
      main object are skipped, the others move their target group. */
  function ProcessFollows(states: seq<GroupState>, m: Manager, nodes: seq<FollowNode>,
                          mainObject: GroupId -> Option<ObjectState>, tick: int): (r: seq<GroupState>)
    requires Valid(m) && |states| >= m.next
    ensures |r| == |states|
    decreases |nodes|
  {
    if |nodes| == 0 then states
    else
      var n := |nodes| - 1;
      var node := nodes[n];
      var prev := ProcessFollows(states, m, nodes[..n], mainObject, tick);
      match mainObject(node.followGroupId)
      case None => prev
      case Some(main) =>
        var d := FollowMove(main, node, tick);
        ListedInRange(m, prev, node.targetGroupId);
        MoveGroup(prev, m, node.targetGroupId, d.x, d.y)
  }

  /** The total follow move of the nodes for a combination: each node
      with a main object adds its move once per occurrence of its target
      group among the ids of `c`. */
  function TotalFollow(nodes: seq<FollowNode>, mainObject: GroupId -> Option<ObjectState>, tick: int, c: Combination): Vec2
    requires Wellformed(c)
    decreases |nodes|
  {
    if |nodes| == 0 then Vec2(0.0, 0.0)
    else
      var n := |nodes| - 1;
      var node := nodes[n];
      var prev := TotalFollow(nodes[..n], mainObject, tick, c);
      match mainObject(node.followGroupId)
      case None => prev
      case Some(main) => Add(prev, Scale(FollowMove(main, node, tick), multiset(Span(c))[node.targetGroupId] as real))
  }

  /** After the follow pass a known combination's offset has moved by its
      total follow move, and nothing else of its state changed. */
  lemma {:induction false} ProcessFollowsOffset(states: seq<GroupState>, m: Manager, nodes: seq<FollowNode>,
                                                mainObject: GroupId -> Option<ObjectState>, tick: int, c: Combination)
    requires Valid(m) && |states| >= m.next && c in m.indices
    ensures var i := m.indices[c];
      var r := ProcessFollows(states, m, nodes, mainObject, tick)[i];
      && r.offset == Add(states[i].offset, TotalFollow(nodes, mainObject, tick, c))
      && r.positional == states[i].positional && r.local == states[i].local && r.opacity == states[i].opacity
    decreases |nodes|
  {
    var i := m.indices[c];
    if |nodes| == 0 {
      assert Add(states[i].offset, Vec2(0.0, 0.0)) == states[i].offset;
    } else {
      var n := |nodes| - 1;
      var node := nodes[n];
      ProcessFollowsOffset(states, m, nodes[..n], mainObject, tick, c);
      var prev := ProcessFollows(states, m, nodes[..n], mainObject, tick);
      if mainObject(node.followGroupId).Some? {
        var d := FollowMove(mainObject(node.followGroupId).value, node, tick);
        MoveGroupBySpan(prev, m, node.targetGroupId, d.x, d.y, c);
        assert d == Vec2(d.x, d.y);
      }
    }
  }
}
