/** The static rendering buffer of `Renderer` (src/renderer/Renderer.cpp,
    `generateStaticRenderingBuffer`): one record per rendered object, in
    iterator order, with its flags, HSV words, opacity and the index of its
    group combination; and `isObjectInView`, which reads the per-object
    vectors this pass fills.

    What the pass reads from a game object comes from the host and is the
    function `details`; the float-to-`u32` cast and the HSV word layout are
    parameters. */
module StaticBuffers {
  import opened Wrappers
  import opened Geometry
  import opened ObjectSorters
  import opened GroupCombinations
  import opened GroupManagers
  import opened Words
  import opened ShaderHsv
  import opened Renderers

  /** The `OBJECT_FLAG_*` bits, a set of them standing for the flag word. */
  datatype ObjectFlag =
    | UsesAudioScale
    | CustomAudioScale
    | IsOrb
    | HasBaseHsv
    | HasDetailHsv
    | IsInvisibleBlock
    | SpecialGlowColor
    | IsStaticObject

  /** A colour of the object (`m_baseColor`, `m_detailColor`). */
  datatype ColorInfo = ColorInfo(usesHsv: bool, hsv: Hsv)

  /** The fields of a game object the pass reads. `isRing` is the
      `RingObject` cast succeeding; `isSolid` is the object type being
      `Solid`. */
  datatype ObjectDetails = ObjectDetails(
    startPosition: Vec2,
    hasRotateAction: bool,
    rotationDelta: real,
    usesAudioScale: bool,
    customAudioScale: bool,
    minAudioScale: real,
    maxAudioScale: real,
    isRing: bool,
    baseColor: Option<ColorInfo>,
    detailColor: Option<ColorInfo>,
    opacityMod2: real,
    groupIds: seq<GroupId>,
    groupCount: int,
    isInvisibleBlock: bool,
    customGlowColor: bool,
    isSolid: bool,
    fadeMargin: real)

  /** The object's group array has `MAX_GROUPS` slots and a count that fits. */
  predicate DetailsWellformed(d: ObjectDetails) {
    |d.groupIds| == MAX_GROUPS && 0 <= d.groupCount <= MAX_GROUPS
  }

  /** `StaticObjectInfo`. Fields the pass does not write keep the zero the
      vector's `resize` gave them. */
  datatype StaticInfo = StaticInfo(
    startPosition: Vec2,
    rotationSpeed: real,
    flags: set<ObjectFlag>,
    audioScaleMin: real,
    audioScaleMax: real,
    baseHsv: Word,
    detailHsv: Word,
    opacity: real,
    groupCombinationIndex: CombinationIndex,
    fadeMargin: real)


  /** The colour is present and uses HSV. */
  predicate UsesHsv(c: Option<ColorInfo>) {
    c.Some? && c.value.usesHsv
  }

  /** The flags set inside `if (object->m_usesAudioScale)`. */
  function AudioFlags(d: ObjectDetails): (r: set<ObjectFlag>)
    ensures r <= {UsesAudioScale, CustomAudioScale, IsOrb}
    ensures UsesAudioScale in r <==> d.usesAudioScale
    ensures CustomAudioScale in r <==> d.usesAudioScale && d.customAudioScale
    ensures IsOrb in r <==> d.usesAudioScale && d.isRing
  {
    if d.usesAudioScale then
      {UsesAudioScale} + (if d.customAudioScale then {CustomAudioScale} else {}) + (if d.isRing then {IsOrb} else {})
    else {}
  }

  /** The flags set independently of each other. */
  function OtherFlags(d: ObjectDetails): (r: set<ObjectFlag>)
    ensures r <= {HasBaseHsv, HasDetailHsv, IsInvisibleBlock, SpecialGlowColor, IsStaticObject}
    ensures HasBaseHsv in r <==> UsesHsv(d.baseColor)
    ensures HasDetailHsv in r <==> UsesHsv(d.detailColor)
    ensures IsInvisibleBlock in r <==> d.isInvisibleBlock
    ensures SpecialGlowColor in r <==> d.customGlowColor
    ensures IsStaticObject in r <==> d.isSolid
  {
    (if UsesHsv(d.baseColor) then {HasBaseHsv} else {})
    + (if UsesHsv(d.detailColor) then {HasDetailHsv} else {})
    + (if d.isInvisibleBlock then {IsInvisibleBlock} else {})
    + (if d.customGlowColor then {SpecialGlowColor} else {})
    + (if d.isSolid then {IsStaticObject} else {})
  }

  /** The HSV word of a colour that uses HSV, zero otherwise. */
  function HsvWord(c: Option<ColorInfo>, l: HsvLayout, toU32: real -> Word): Word {
    if UsesHsv(c) then ConvertToShaderHsv(c.value.hsv, l, toU32) else Zero()
  }

  /** The loop body of `generateStaticRenderingBuffer` for one object,
      given the combination index the group manager returned for it. */
  function StaticInfoOf(d: ObjectDetails, l: HsvLayout, toU32: real -> Word, groupIndex: CombinationIndex): (r: StaticInfo)
    ensures r.flags == AudioFlags(d) + OtherFlags(d)
    ensures r.opacity > 0.0
    ensures d.opacityMod2 > 0.0 ==> r.opacity == d.opacityMod2
    ensures d.opacityMod2 <= 0.0 ==> r.opacity == 1.0
    ensures r.rotationSpeed == (if d.hasRotateAction then d.rotationDelta else 0.0)
    ensures d.usesAudioScale && d.customAudioScale ==> r.audioScaleMin == d.minAudioScale && r.audioScaleMax == d.maxAudioScale
    ensures !(d.usesAudioScale && d.customAudioScale) ==> r.audioScaleMin == 0.0 && r.audioScaleMax == 0.0
    ensures !UsesHsv(d.baseColor) ==> forall i :: 0 <= i < WORD_BITS ==> !r.baseHsv[i]
    ensures !UsesHsv(d.detailColor) ==> forall i :: 0 <= i < WORD_BITS ==> !r.detailHsv[i]
    ensures r.startPosition == d.startPosition && r.groupCombinationIndex == groupIndex && r.fadeMargin == d.fadeMargin
  {
    var custom := d.usesAudioScale && d.customAudioScale;
    StaticInfo(
      d.startPosition,
      if d.hasRotateAction then d.rotationDelta else 0.0,
      AudioFlags(d) + OtherFlags(d),
      if custom then d.minAudioScale else 0.0,
      if custom then d.maxAudioScale else 0.0,
      HsvWord(d.baseColor, l, toU32),
      HsvWord(d.detailColor, l, toU32),
      if d.opacityMod2 > 0.0 then d.opacityMod2 else 1.0,
      groupIndex,
      d.fadeMargin)
  }

  /** Each flag of a static record is set exactly when the object has the
      matching property; the custom-audio-scale and orb flags only ever
      come with the uses-audio-scale flag. */
  lemma StaticFlags(d: ObjectDetails, l: HsvLayout, toU32: real -> Word, groupIndex: CombinationIndex)
    ensures var f := StaticInfoOf(d, l, toU32, groupIndex).flags;
      && (UsesAudioScale in f <==> d.usesAudioScale)
      && (CustomAudioScale in f <==> d.usesAudioScale && d.customAudioScale)
      && (IsOrb in f <==> d.usesAudioScale && d.isRing)
      && ((CustomAudioScale in f || IsOrb in f) ==> UsesAudioScale in f)
    ensures var f := StaticInfoOf(d, l, toU32, groupIndex).flags;
      && (HasBaseHsv in f <==> d.baseColor.Some? && d.baseColor.value.usesHsv)
      && (HasDetailHsv in f <==> d.detailColor.Some? && d.detailColor.value.usesHsv)
      && (IsInvisibleBlock in f <==> d.isInvisibleBlock)
      && (SpecialGlowColor in f <==> d.customGlowColor)
      && (IsStaticObject in f <==> d.isSolid)
  {
  }

  /** The shader reads the absolute-saturation and absolute-brightness
      flags of an object's base colour back from its static record. */
  lemma BaseHsvReadsBack(d: ObjectDetails, l: HsvLayout, toU32: real -> Word, groupIndex: CombinationIndex)
    requires LayoutSound(l)
    requires MaskFits(l.hueMask, l.hueBit) && MaskFits(l.satMask, l.satBit) && MaskFits(l.valMask, l.valBit)
    requires HasBaseHsv in StaticInfoOf(d, l, toU32, groupIndex).flags
    ensures var w := StaticInfoOf(d, l, toU32, groupIndex).baseHsv;
      && (NonZero(And(w, l.satAdd)) <==> d.baseColor.value.hsv.absoluteSaturation)
      && (NonZero(And(w, l.valAdd)) <==> d.baseColor.value.hsv.absoluteBrightness)
  {
    ShaderHsvRoundTrip(d.baseColor.value.hsv, l, toU32);
  }

  // ---------------------------------------------------------------------
  // The pass

  /** Every object the layers hold has well-formed details. */
  predicate AllWellformed(layers: seq<Layer>, details: GameObject -> ObjectDetails) {
    forall i, j :: 0 <= i < |layers| && 0 <= j < |layers[i].objects| ==> DetailsWellformed(details(layers[i].objects[j]))
  }

  /** The combination of an object's groups. */
  function CombinationOf(d: ObjectDetails): Combination
    requires DetailsWellformed(d)
  {
    MakeCombination(d.groupIds, d.groupCount)
  }

  /** Step `k` of the walk `w` is the last of its first `n` steps that
      meets `o`. */
  predicate LastAt(w: seq<(nat, GameObject)>, n: int, k: int, o: GameObject)
    requires 0 <= k < n <= |w|
  {
    w[k].1 == o && forall j :: k < j < n ==> w[j].1 != o
  }

  /** The record of step `k` describes the `k`-th object of the walk, and
      its combination index is the one the manager holds for it. */
  predicate RecordsMatch(w: seq<(nat, GameObject)>, infos: seq<StaticInfo>, details: GameObject -> ObjectDetails,
                         l: HsvLayout, toU32: real -> Word, m: Manager)
    requires |infos| <= |w|
  {
    forall k :: 0 <= k < |infos| ==>
      && DetailsWellformed(details(w[k].1))
      && infos[k] == StaticInfoOf(details(w[k].1), l, toU32, infos[k].groupCombinationIndex)
      && CombinationOf(details(w[k].1)) in m.indices
      && m.indices[CombinationOf(details(w[k].1))] == infos[k].groupCombinationIndex
      && infos[k].groupCombinationIndex < CombinationCount(m)
  }

  /** `m` still maps every combination `m0` knew to the same index. */
  predicate KeepsIndices(m0: Manager, m: Manager) {
    forall x :: x in m0.indices ==> x in m.indices && m.indices[x] == m0.indices[x]
  }

  /** `after` is `before` followed by one entry per record, `field` of it. */
  predicate AppendedPerRecord<T(==)>(before: seq<T>, after: seq<T>, infos: seq<StaticInfo>, field: StaticInfo -> T) {
    && |after| == |before| + |infos| && after[..|before|] == before
    && forall k :: 0 <= k < |infos| ==> after[|before| + k] == field(infos[k])
  }

  lemma AppendedStep<T>(before: seq<T>, after: seq<T>, infos: seq<StaticInfo>, field: StaticInfo -> T, info: StaticInfo)
    requires AppendedPerRecord(before, after, infos, field)
    ensures AppendedPerRecord(before, after + [field(info)], infos + [info], field)
  {
    assert (after + [field(info)])[..|before|] == after[..|before|];
  }

  function GroupIndexOf(info: StaticInfo): CombinationIndex {
    info.groupCombinationIndex
  }

  function StartOf(info: StaticInfo): Vec2 {
    info.startPosition
  }

  /** Each object met in the first `n` steps maps to the last step it
      was met at. */
  ghost predicate IndexMapCovers(w: seq<(nat, GameObject)>, n: int, srb: map<GameObject, nat>)
    requires 0 <= n <= |w|
  {
    forall k :: 0 <= k < n ==> w[k].1 in srb && srb[w[k].1] < n && LastAt(w, n, srb[w[k].1], w[k].1)
  }

  /** Objects not met in the first `n` steps keep their entry of `srb0`,
      or stay absent. */
  ghost predicate IndexMapFrames(w: seq<(nat, GameObject)>, n: int, srb0: map<GameObject, nat>, srb: map<GameObject, nat>)
    requires 0 <= n <= |w|
  {
    forall o :: (forall k :: 0 <= k < n ==> w[k].1 != o) ==>
      (o in srb <==> o in srb0) && (o in srb ==> srb[o] == srb0[o])
  }

  /** The index map after the first `n` steps. */
  ghost predicate IndexMapAfter(w: seq<(nat, GameObject)>, n: int, srb0: map<GameObject, nat>, srb: map<GameObject, nat>)
    requires 0 <= n <= |w|
  {
    IndexMapCovers(w, n, srb) && IndexMapFrames(w, n, srb0, srb)
  }

  lemma WalkStep(layers: seq<Layer>, c: Cursor, w: seq<(nat, GameObject)>, i: int)
    requires OnObject(layers, c) && !IsEnd(layers, c)
    requires 0 <= i <= |w| && Walk(layers, c) == w[i..]
    ensures i < |w| && w[i].1 == Get(layers, c) && Walk(layers, Next(layers, c)) == w[i + 1..]
  {
    assert Walk(layers, c) == [(c.layerIndex, Get(layers, c))] + Walk(layers, Next(layers, c));
    assert w[i..][0] == w[i];
    assert w[i + 1..] == w[i..][1..];
  }

  lemma IndexMapCoversStep(w: seq<(nat, GameObject)>, n: int, srb: map<GameObject, nat>)
    requires 0 <= n < |w| && IndexMapCovers(w, n, srb)
    ensures IndexMapCovers(w, n + 1, srb[w[n].1 := n])
  {
    var o := w[n].1;
    var r := srb[o := n];
    forall k | 0 <= k < n + 1
      ensures w[k].1 in r && r[w[k].1] < n + 1 && LastAt(w, n + 1, r[w[k].1], w[k].1)
    {
      var x := w[k].1;
      if x != o {
        assert LastAt(w, n, srb[x], x);
      }
    }
  }

  lemma IndexMapFramesStep(w: seq<(nat, GameObject)>, n: int, srb0: map<GameObject, nat>, srb: map<GameObject, nat>)
    requires 0 <= n < |w| && IndexMapFrames(w, n, srb0, srb)
    ensures IndexMapFrames(w, n + 1, srb0, srb[w[n].1 := n])
  {
    var r := srb[w[n].1 := n];
    forall o | forall k :: 0 <= k < n + 1 ==> w[k].1 != o
      ensures (o in r <==> o in srb0) && (o in r ==> r[o] == srb0[o])
    {
      assert w[n].1 != o;
      assert forall k :: 0 <= k < n ==> w[k].1 != o;
    }
  }

  /** Setting the index of the object of step `n` extends the index map
      by one step. */
  lemma IndexMapStep(w: seq<(nat, GameObject)>, n: int, srb0: map<GameObject, nat>, srb: map<GameObject, nat>)
    requires 0 <= n < |w| && IndexMapAfter(w, n, srb0, srb)
    ensures IndexMapAfter(w, n + 1, srb0, srb[w[n].1 := n])
  {
    IndexMapCoversStep(w, n, srb);
    IndexMapFramesStep(w, n, srb0, srb);
  }

  /** What holds after the first `|infos|` objects of the walk `w`: the
      manager is valid and keeps what it knew, each record matches its
      object, the per-index arrays grew by one entry per record, and the
      index map points each object met at its last step. */
  ghost predicate PassState(w: seq<(nat, GameObject)>, details: GameObject -> ObjectDetails,
                            l: HsvLayout, toU32: real -> Word,
                            m0: Manager, srb0: map<GameObject, nat>, groupIdx0: seq<CombinationIndex>, starts0: seq<Vec2>,
                            infos: seq<StaticInfo>, m: Manager, srb: map<GameObject, nat>,
                            groupIdx: seq<CombinationIndex>, starts: seq<Vec2>)
  {
    && |infos| <= |w|
    && Valid(m) && KeepsIndices(m0, m)
    && RecordsMatch(w, infos, details, l, toU32, m)
    && AppendedPerRecord(groupIdx0, groupIdx, infos, GroupIndexOf)
    && AppendedPerRecord(starts0, starts, infos, StartOf)
    && IndexMapAfter(w, |infos|, srb0, srb)
  }

  /** Interning an object's combination keeps every index the manager
      knew, never shrinks it, and leaves the combination mapped to the
      index returned. */
  lemma InternKeeps(m: Manager, d: ObjectDetails)
    requires DetailsWellformed(d)
    ensures var r := IndexForObject(m, d.groupIds, d.groupCount);
      && KeepsIndices(m, r.0) && CombinationCount(m) <= CombinationCount(r.0)
      && CombinationOf(d) in r.0.indices && r.0.indices[CombinationOf(d)] == r.1
  {
  }

  lemma KeepsIndicesTransitive(m0: Manager, m: Manager, m': Manager)
    requires KeepsIndices(m0, m) && KeepsIndices(m, m')
    ensures KeepsIndices(m0, m')
  {
  }

  /** One iteration of the loop of `generateStaticRenderingBuffer`: intern
      the object's combination, record its index and append its static
      record and per-index entries. */
  method ProcessObject(ghost w: seq<(nat, GameObject)>, obj: GameObject, details: GameObject -> ObjectDetails,
                       l: HsvLayout, toU32: real -> Word,
                       m0: Manager, srb0: map<GameObject, nat>, groupIdx0: seq<CombinationIndex>, starts0: seq<Vec2>,
                       infos: seq<StaticInfo>, m: Manager, srb: map<GameObject, nat>,
                       groupIdx: seq<CombinationIndex>, starts: seq<Vec2>)
    returns (infos': seq<StaticInfo>, m': Manager, srb': map<GameObject, nat>,
             groupIdx': seq<CombinationIndex>, starts': seq<Vec2>)
    requires |infos| < |w| && w[|infos|].1 == obj && DetailsWellformed(details(obj))
    requires PassState(w, details, l, toU32, m0, srb0, groupIdx0, starts0, infos, m, srb, groupIdx, starts)
    ensures |infos'| == |infos| + 1 && infos'[..|infos|] == infos
    ensures srb' == srb[obj := |infos|]
    ensures PassState(w, details, l, toU32, m0, srb0, groupIdx0, starts0, infos', m', srb', groupIdx', starts')
  {
    var index := |infos|;
    var d := details(obj);
    IndexForObjectKeepsValid(m, d.groupIds, d.groupCount);
    InternKeeps(m, d);
    var interned := IndexForObject(m, d.groupIds, d.groupCount);
    var groupIndex := interned.1;
    m' := interned.0;
    KeepsIndicesTransitive(m0, m, m');
    var info := StaticInfoOf(d, l, toU32, groupIndex);
    RecordsStep(w, infos, details, l, toU32, m, m', info);
    IndexMapStep(w, index, srb0, srb);
    AppendedStep(groupIdx0, groupIdx, infos, GroupIndexOf, info);
    AppendedStep(starts0, starts, infos, StartOf, info);
    infos' := infos + [info];
    srb' := srb[obj := index];
    groupIdx' := groupIdx + [info.groupCombinationIndex];
    starts' := starts + [info.startPosition];
  }

  /** `generateStaticRenderingBuffer`. The manager interns each object's
      combination; `srb0`, `groupIdx0` and `starts0` are the renderer's
      `objectSRBIndicies`, `groupCombIndexPerObjectSRBIndex` and
      `startPositionPerObjectSRBIndex` before the pass. */
  method GenerateStaticRenderingBuffer(layers: seq<Layer>, details: GameObject -> ObjectDetails,
                                       l: HsvLayout, toU32: real -> Word, m0: Manager,
                                       srb0: map<GameObject, nat>, groupIdx0: seq<CombinationIndex>, starts0: seq<Vec2>)
    returns (infos: seq<StaticInfo>, m: Manager, srb: map<GameObject, nat>,
             groupIdx: seq<CombinationIndex>, starts: seq<Vec2>)
    requires AllWellformed(layers, details) && Valid(m0)
    ensures |infos| == |PairsFrom(layers, 0)| == RenderedGameObjectCount(layers)
    ensures PassState(PairsFrom(layers, 0), details, l, toU32, m0, srb0, groupIdx0, starts0, infos, m, srb, groupIdx, starts)
  {
    IteratorVisitsAll(layers);
    ghost var w := PairsFrom(layers, 0);
    var c := Start(layers);
    infos, m, srb, groupIdx, starts := [], m0, srb0, groupIdx0, starts0;
    while !IsEnd(layers, c)
      invariant OnObject(layers, c)
      invariant |infos| <= |w| && Walk(layers, c) == w[|infos|..]
      invariant PassState(w, details, l, toU32, m0, srb0, groupIdx0, starts0, infos, m, srb, groupIdx, starts)
      decreases |w| - |infos|
    {
      WalkStep(layers, c, w, |infos|);
      PairsWellformed(layers, details, |infos|);
      infos, m, srb, groupIdx, starts :=
        ProcessObject(w, Get(layers, c), details, l, toU32, m0, srb0, groupIdx0, starts0, infos, m, srb, groupIdx, starts);
      c := Next(layers, c);
    }
    assert Walk(layers, c) == [];
  }

  lemma PairsWellformed(layers: seq<Layer>, details: GameObject -> ObjectDetails, k: int)
    requires AllWellformed(layers, details) && 0 <= k < |PairsFrom(layers, 0)|
    ensures DetailsWellformed(details(PairsFrom(layers, 0)[k].1))
  {
    var x := PairsFrom(layers, 0)[k];
    PairsFromMember(layers, 0, x);
  }

  /** Every pair of the walk is an object held by a layer. */
  lemma {:induction false} PairsFromMember(layers: seq<Layer>, i: nat, x: (nat, GameObject))
    requires i <= |layers| && x in PairsFrom(layers, i)
    ensures exists a, b :: 0 <= a < |layers| && 0 <= b < |layers[a].objects| && layers[a].objects[b] == x.1
    decreases |layers| - i
  {
    if i < |layers| {
      if x in PairsOfLayer(layers, i, 0) {
        var j :| 0 <= j < |layers[i].objects| && PairsOfLayer(layers, i, 0)[j] == x;
        assert layers[i].objects[j] == x.1;
      } else {
        PairsFromMember(layers, i + 1, x);
      }
    }
  }

  /** A record appended for the next object keeps the records matching
      under the manager that interned its combination. */
  lemma RecordsStep(w: seq<(nat, GameObject)>, infos: seq<StaticInfo>, details: GameObject -> ObjectDetails,
                    l: HsvLayout, toU32: real -> Word, m: Manager, m': Manager, info: StaticInfo)
    requires |infos| < |w|
    requires RecordsMatch(w, infos, details, l, toU32, m)
    requires KeepsIndices(m, m') && CombinationCount(m) <= CombinationCount(m')
    requires var d := details(w[|infos|].1);
      && DetailsWellformed(d)
      && info == StaticInfoOf(d, l, toU32, info.groupCombinationIndex)
      && CombinationOf(d) in m'.indices && m'.indices[CombinationOf(d)] == info.groupCombinationIndex
      && info.groupCombinationIndex < CombinationCount(m')
    ensures RecordsMatch(w, infos + [info], details, l, toU32, m')
  {
  }

  // ---------------------------------------------------------------------
  // isObjectInView

  /** The view radius of `isObjectInView`. */
  const VIEW_RADIUS: real := 350.0

  /** A transform applied to a point. The transform is the product of the
      rotations multiplied in, in order, so the last one acts first. */
  function TransformPoint(t: Transform, p: Vec2, rotate: (Vec2, real) -> Vec2): Vec2 {
    if |t| == 0 then p else TransformPoint(t[..|t| - 1], rotate(p, t[|t| - 1]), rotate)
  }

  /** Multiplying a rotation into a transform (`*=`) makes it act on the
      point before the rest of the transform. */
  lemma TransformAppend(t: Transform, a: real, p: Vec2, rotate: (Vec2, real) -> Vec2)
    ensures TransformPoint(t + [a], p, rotate) == TransformPoint(t, rotate(p, a), rotate)
  {
    assert (t + [a])[..|t|] == t;
  }

  /** Where the shader draws an object of the combination with state `s`. */
  function WorldPosition(s: GroupState, start: Vec2, rotate: (Vec2, real) -> Vec2): Vec2 {
    Add(TransformPoint(s.positional, start, rotate), s.offset)
  }

  function DistanceSquared(a: Vec2, b: Vec2): real {
    (a.x - b.x) * (a.x - b.x) + (a.y - b.y) * (a.y - b.y)
  }

  /** `cameraCenterPos` as `update` computes it. */
  function CameraCenter(cameraPosition: Vec2, width: real, height: real): Vec2 {
    Add(cameraPosition, Vec2(width * 0.5, height * 0.5))
  }

  lemma AbsSquare(x: real)
    ensures Abs(x) * Abs(x) == x * x
  {
  }

  /** `isObjectInView`: the absolute difference to the camera centre,
      squared and summed, against the squared radius. */
  function IsObjectInView(srbIndex: nat, groupIdx: seq<CombinationIndex>, starts: seq<Vec2>,
                          states: seq<GroupState>, camera: Vec2, rotate: (Vec2, real) -> Vec2): (r: bool)
    requires srbIndex < |groupIdx| && srbIndex < |starts| && groupIdx[srbIndex] < |states|
    ensures r <==> DistanceSquared(WorldPosition(states[groupIdx[srbIndex]], starts[srbIndex], rotate), camera)
                   <= VIEW_RADIUS * VIEW_RADIUS
  {
    var p := WorldPosition(states[groupIdx[srbIndex]], starts[srbIndex], rotate);
    var dx, dy := Abs(p.x - camera.x), Abs(p.y - camera.y);
    AbsSquare(p.x - camera.x);
    AbsSquare(p.y - camera.y);
    dx * dx + dy * dy <= VIEW_RADIUS * VIEW_RADIUS
  }

  /** Moving a combination's offset and the camera by the same amount does
      not change whether its objects are in view. */
  lemma InViewTranslation(srbIndex: nat, groupIdx: seq<CombinationIndex>, starts: seq<Vec2>,
                          states: seq<GroupState>, camera: Vec2, rotate: (Vec2, real) -> Vec2, d: Vec2)
    requires srbIndex < |groupIdx| && srbIndex < |starts| && groupIdx[srbIndex] < |states|
    ensures var g := groupIdx[srbIndex];
      var moved := states[g := states[g].(offset := Add(states[g].offset, d))];
      IsObjectInView(srbIndex, groupIdx, starts, moved, Add(camera, d), rotate)
        == IsObjectInView(srbIndex, groupIdx, starts, states, camera, rotate)
  {
  }

  /** With an identity transform and no offset, an object is in view
      exactly when its start position lies within the radius of the
      camera centre. */
  lemma InViewAtRest(srbIndex: nat, groupIdx: seq<CombinationIndex>, starts: seq<Vec2>,
                     states: seq<GroupState>, camera: Vec2, rotate: (Vec2, real) -> Vec2)
    requires srbIndex < |groupIdx| && srbIndex < |starts| && groupIdx[srbIndex] < |states|
    requires states[groupIdx[srbIndex]].positional == [] && states[groupIdx[srbIndex]].offset == Vec2(0.0, 0.0)
    ensures IsObjectInView(srbIndex, groupIdx, starts, states, camera, rotate)
      <==> DistanceSquared(starts[srbIndex], camera) <= VIEW_RADIUS * VIEW_RADIUS
  {
  }

  /** After a pass that started from empty per-index arrays, the view
      test of the object recorded at step `k` uses that object's
      combination and start position. */
  lemma InViewOfRecorded(infos: seq<StaticInfo>, groupIdx: seq<CombinationIndex>, starts: seq<Vec2>,
                         k: nat, states: seq<GroupState>, camera: Vec2, rotate: (Vec2, real) -> Vec2)
    requires AppendedPerRecord([], groupIdx, infos, GroupIndexOf)
    requires AppendedPerRecord([], starts, infos, StartOf)
    requires k < |infos| && infos[k].groupCombinationIndex < |states|
    ensures IsObjectInView(k, groupIdx, starts, states, camera, rotate)
      <==> DistanceSquared(WorldPosition(states[infos[k].groupCombinationIndex], infos[k].startPosition, rotate), camera)
           <= VIEW_RADIUS * VIEW_RADIUS
  {
  }
}
