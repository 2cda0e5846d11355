/** `GroupManager` (src/renderer/GroupManager.hpp, .cpp): every distinct
    combination of group ids gets a dense index, each group id lists the
    combinations it belongs to, and trigger actions act on the per-index
    state array that the shader reads.

    The state array lives in the renderer; here it is a sequence passed in
    and returned. Transforms are kept as the sequence of rotation angles
    multiplied into them (the empty sequence is the identity); the rotation
    matrix itself is the function `rotate`. */
module GroupManagers {
  import opened Wrappers
  import opened Geometry
  import opened GroupCombinations

  type GroupId = int
  type CombinationIndex = nat

  /** A product of rotation matrices, as the angles multiplied in order. */
  type Transform = seq<real>

  /** `GroupCombinationState`: what the shader applies to every object of
      one combination. */
  datatype GroupState = GroupState(positional: Transform, local: Transform, offset: Vec2, opacity: real)

  datatype Manager = Manager(
    next: nat,                                         // currentGroupCombinationIndex
    indices: map<Combination, CombinationIndex>,       // groupCombinationIndicies
    perGroup: map<GroupId, seq<CombinationIndex>>,     // groupCombinationIndiciesPerGroupId
    maxGroupId: GroupId,
    used: set<GroupId>,
    disabled: set<GroupId>)

  /** A freshly constructed manager. */
  function Init(): (m: Manager)
    ensures Valid(m) && m.next == 0
  {
    Manager(0, map[], map[], 0, {}, {})
  }

  /** `getGroupCombinationCount`. */
  function CombinationCount(m: Manager): nat {
    m.next
  }

  /** The combinations listed for `g`, none when `g` is unknown. */
  function Listed(m: Manager, g: GroupId): seq<CombinationIndex> {
    if g in m.perGroup then m.perGroup[g] else []
  }

  function Repeat<T>(x: T, k: nat): (r: seq<T>)
    ensures |r| == k && forall i :: 0 <= i < k ==> r[i] == x
  {
    seq(k, _ => x)
  }

  lemma RepeatMultiset<T>(x: T, k: nat)
    ensures multiset(Repeat(x, k)) == multiset{} [x := k]
  {
    if k > 0 {
      assert Repeat(x, k) == Repeat(x, k - 1) + [x];
      RepeatMultiset(x, k - 1);
    }
  }

  /** The manager's invariant:
      - indices are below `next` and distinct combinations have distinct
        indices, and there are `next` of them, so they are exactly
        `0 .. next-1`;
      - every listed index is below `next`, and the groups with a list are
        the used groups, none above `maxGroupId`;
      - each combination is listed under each of its ids once per
        occurrence of the id. */
  ghost predicate Valid(m: Manager) {
    IndicesDense(m) && ListsBelowNext(m) && UsedBounded(m) && ListsMatchSpans(m)
  }

  ghost predicate IndicesDense(m: Manager) {
    (forall c :: c in m.indices ==> Wellformed(c) && m.indices[c] < m.next)
    && (forall c1, c2 :: c1 in m.indices && c2 in m.indices && m.indices[c1] == m.indices[c2] ==> c1 == c2)
    && |m.indices.Keys| == m.next
  }

  ghost predicate ListsBelowNext(m: Manager) {
    forall g, i :: g in m.perGroup && 0 <= i < |m.perGroup[g]| ==> m.perGroup[g][i] < m.next
  }

  ghost predicate UsedBounded(m: Manager) {
    m.perGroup.Keys == m.used && forall g :: g in m.used ==> g <= m.maxGroupId
  }

  ghost predicate ListsMatchSpans(m: Manager)
    requires forall c :: c in m.indices ==> Wellformed(c)
  {
    forall c, g :: c in m.indices ==> multiset(Listed(m, g))[m.indices[c]] == multiset(Span(c))[g]
  }

  // ---------------------------------------------------------------------
  // Interning

  /** Records one occurrence of `g` in the combination with index `index`. */
  function AddId(m: Manager, g: GroupId, index: CombinationIndex): (r: Manager)
    ensures Listed(r, g) == Listed(m, g) + [index]
    ensures forall h :: h != g ==> Listed(r, h) == Listed(m, h)
    ensures r.used == m.used + {g} && r.perGroup.Keys == m.perGroup.Keys + {g}
    ensures r.maxGroupId == (if g > m.maxGroupId then g else m.maxGroupId)
    ensures r.next == m.next && r.indices == m.indices && r.disabled == m.disabled
  {
    m.(used := m.used + {g},
       maxGroupId := if g > m.maxGroupId then g else m.maxGroupId,
       perGroup := m.perGroup[g := Listed(m, g) + [index]])
  }

  /** The loop of `addGroupCombination` over the ids of the combination. */
  function AddIds(m: Manager, ids: seq<GroupId>, index: CombinationIndex): (r: Manager)
    ensures r.next == m.next && r.indices == m.indices && r.disabled == m.disabled
    decreases |ids|
  {
    if |ids| == 0 then m
    else AddIds(AddId(m, ids[0], index), ids[1..], index)
  }

  /** Each occurrence of an id lists `index` once more under it. */
  lemma {:induction false} AddIdsListed(m: Manager, ids: seq<GroupId>, index: CombinationIndex, g: GroupId)
    ensures Listed(AddIds(m, ids, index), g) == Listed(m, g) + Repeat(index, multiset(ids)[g])
    decreases |ids|
  {
    if |ids| > 0 {
      var m' := AddId(m, ids[0], index);
      AddIdsListed(m', ids[1..], index, g);
      var k := multiset(ids[1..])[g];
      CountCons(ids, g);
      if g == ids[0] {
        RepeatCons(index, k);
        assert Listed(m', g) + Repeat(index, k) == Listed(m, g) + ([index] + Repeat(index, k));
      }
    }
  }

  /** The count of `g` in a non-empty sequence is its count in the tail,
      plus one when the head is `g`. */
  lemma CountCons<T>(ids: seq<T>, g: T)
    requires |ids| > 0
    ensures multiset(ids)[g] == multiset(ids[1..])[g] + (if ids[0] == g then 1 else 0)
  {
    assert ids == [ids[0]] + ids[1..];
  }

  lemma RepeatCons<T>(x: T, k: nat)
    ensures [x] + Repeat(x, k) == Repeat(x, k + 1)
  {
  }

  /** After the loop an id is used, and has a list, exactly when it was
      before or occurs in `ids`. */
  lemma {:induction false} AddIdsUses(m: Manager, ids: seq<GroupId>, index: CombinationIndex, g: GroupId)
    ensures var r := AddIds(m, ids, index);
      && (g in r.used <==> g in m.used || g in ids)
      && (g in r.perGroup <==> g in m.perGroup || g in ids)
    decreases |ids|
  {
    if |ids| > 0 {
      AddIdsUses(AddId(m, ids[0], index), ids[1..], index, g);
      assert ids == [ids[0]] + ids[1..];
    }
  }

  /** After the loop `maxGroupId` bounds every id; it only grows. */
  lemma {:induction false} AddIdsBoundsMax(m: Manager, ids: seq<GroupId>, index: CombinationIndex)
    ensures var r := AddIds(m, ids, index);
      && m.maxGroupId <= r.maxGroupId
      && (forall k :: 0 <= k < |ids| ==> ids[k] <= r.maxGroupId)
    decreases |ids|
  {
    if |ids| > 0 {
      var m' := AddId(m, ids[0], index);
      AddIdsBoundsMax(m', ids[1..], index);
      var r := AddIds(m, ids, index);
      assert r == AddIds(m', ids[1..], index);
      forall k | 0 <= k < |ids| ensures ids[k] <= r.maxGroupId {
        if k > 0 { assert ids[1..][k - 1] == ids[k]; }
      }
    }
  }

  /** `addGroupCombination`: the combination gets `index`, and the loop
      over its ids lists `index` under each of them. */
  function AddGroupCombination(m: Manager, c: Combination, index: CombinationIndex): (r: Manager)
    requires Wellformed(c)
    ensures r.indices == m.indices[c := index]
    ensures r.next == m.next && r.disabled == m.disabled
  {
    AddIds(m.(indices := m.indices[c := index]), Span(c), index)
  }

  /** Each id of the combination lists the index once per occurrence, and
      no other list changes. */
  lemma AddGroupCombinationListed(m: Manager, c: Combination, index: CombinationIndex)
    requires Wellformed(c)
    ensures var r := AddGroupCombination(m, c, index);
      forall g :: Listed(r, g) == Listed(m, g) + Repeat(index, multiset(Span(c))[g])
  {
    forall g ensures Listed(AddGroupCombination(m, c, index), g) == Listed(m, g) + Repeat(index, multiset(Span(c))[g]) {
      AddIdsListed(m.(indices := m.indices[c := index]), Span(c), index, g);
    }
  }

  /** The ids of the combination become used, bounded by `maxGroupId`,
      and list the index; no other id becomes used; `maxGroupId` only
      grows; the groups with a list stay the used ones. */
  lemma AddGroupCombinationUses(m: Manager, c: Combination, index: CombinationIndex)
    requires Wellformed(c)
    ensures var r := AddGroupCombination(m, c, index);
      && (forall g :: g in Span(c) ==> g in r.used && g <= r.maxGroupId && index in Listed(r, g))
      && (forall g :: g in r.used <==> g in m.used || g in Span(c))
      && m.maxGroupId <= r.maxGroupId
      && (m.perGroup.Keys == m.used ==> r.perGroup.Keys == r.used)
  {
    var m1 := m.(indices := m.indices[c := index]);
    var r := AddGroupCombination(m, c, index);
    AddIdsBoundsMax(m1, Span(c), index);
    forall g ensures (g in r.used <==> g in m.used || g in Span(c)) && (g in r.perGroup <==> g in m.perGroup || g in Span(c)) {
      AddIdsUses(m1, Span(c), index, g);
    }
    forall g | g in Span(c) ensures index in Listed(r, g) {
      AddIdsListed(m1, Span(c), index, g);
      assert multiset(Span(c))[g] > 0;
      assert Listed(r, g)[|Listed(m, g)|] == index;
    }
    if m.perGroup.Keys == m.used {
      assert r.perGroup.Keys == r.used;
    }
  }

  /** `getGroupCombinationIndexForObject`: the index of the object's
      combination, a fresh one (the current count) when it is unseen. */
  function IndexForObject(m: Manager, groupIds: seq<GroupId>, count: int): (r: (Manager, CombinationIndex))
    requires |groupIds| == MAX_GROUPS && 0 <= count <= MAX_GROUPS
    ensures var c := MakeCombination(groupIds, count);
      && (c in m.indices ==> r == (m, m.indices[c]))
      && (c !in m.indices ==> r.1 == CombinationCount(m) && CombinationCount(r.0) == CombinationCount(m) + 1)
      && r.0.indices == m.indices[c := r.1]
      && (c !in m.indices ==> forall g :: g in Span(c) ==> g in r.0.used && g <= r.0.maxGroupId && r.1 in Listed(r.0, g))
    ensures r.0.disabled == m.disabled
  {
    var c := MakeCombination(groupIds, count);
    if c in m.indices then (m, m.indices[c])
    else
      var index := m.next;
      AddGroupCombinationUses(m.(next := m.next + 1), c, index);
      (AddGroupCombination(m.(next := m.next + 1), c, index), index)
  }

  /** Interning keeps the invariant; afterwards every id of the object's
      combination is used, bounded by `maxGroupId`, and lists the index. */
  lemma IndexForObjectKeepsValid(m: Manager, groupIds: seq<GroupId>, count: int)
    requires |groupIds| == MAX_GROUPS && 0 <= count <= MAX_GROUPS
    requires Valid(m)
    ensures var r := IndexForObject(m, groupIds, count);
      var c := MakeCombination(groupIds, count);
      && Valid(r.0)
      && r.1 < CombinationCount(r.0)
      && (forall g :: g in Span(c) ==> g in r.0.used && g <= r.0.maxGroupId && r.1 in Listed(r.0, g))
  {
    var c := MakeCombination(groupIds, count);
    var r := IndexForObject(m, groupIds, count);
    if c in m.indices {
      forall g | g in Span(c)
        ensures g in m.used && g <= m.maxGroupId && m.indices[c] in Listed(m, g)
      {
        assert multiset(Span(c))[g] > 0;
        assert multiset(Listed(m, g))[m.indices[c]] > 0;
      }
    } else {
      AddFreshKeepsValid(m, c);
    }
  }

  /** Registering an unseen combination under the next index keeps the
      invariant. */
  lemma AddFreshKeepsValid(m: Manager, c: Combination)
    requires Valid(m) && Wellformed(c) && c !in m.indices
    ensures Valid(AddGroupCombination(m.(next := m.next + 1), c, m.next))
  {
    var r := AddGroupCombination(m.(next := m.next + 1), c, m.next);
    IndicesStayDense(m, c, r);
    UsedStaysBounded(m, c, r);
    ListingKept(m, c, r);
    ListedBelowNext(m, c, r);
  }

  lemma IndicesStayDense(m: Manager, c: Combination, r: Manager)
    requires IndicesDense(m) && Wellformed(c) && c !in m.indices
    requires r.indices == m.indices[c := m.next] && r.next == m.next + 1
    ensures IndicesDense(r)
  {
    FreshIndexBelow(m.indices, m.next, c);
    FreshIndexDistinct(m.indices, m.next, c);
    FreshKeyCount(m.indices, m.next, c);
  }

  /** A fresh well-formed key under index `n` keeps every key well-formed
      and below `n + 1`. */
  lemma FreshIndexBelow(indices: map<Combination, CombinationIndex>, n: nat, c: Combination)
    requires forall c1 :: c1 in indices ==> Wellformed(c1) && indices[c1] < n
    requires Wellformed(c)
    ensures var r := indices[c := n];
      forall c1 :: c1 in r ==> Wellformed(c1) && r[c1] < n + 1
  {
  }

  /** A fresh key adds one to the key count. */
  lemma FreshKeyCount(indices: map<Combination, CombinationIndex>, n: nat, c: Combination)
    requires c !in indices
    ensures |indices[c := n].Keys| == |indices.Keys| + 1
  {
    assert indices[c := n].Keys == indices.Keys + {c};
  }

  /** Adding a fresh key under an index above all others keeps the map
      injective. */
  lemma FreshIndexDistinct(indices: map<Combination, CombinationIndex>, n: nat, c: Combination)
    requires forall c1 :: c1 in indices ==> indices[c1] < n
    requires forall c1, c2 :: c1 in indices && c2 in indices && indices[c1] == indices[c2] ==> c1 == c2
    ensures var r := indices[c := n];
      forall c1, c2 :: c1 in r && c2 in r && r[c1] == r[c2] ==> c1 == c2
  {
  }

  lemma UsedStaysBounded(m: Manager, c: Combination, r: Manager)
    requires Valid(m) && Wellformed(c) && c !in m.indices
    requires r == AddGroupCombination(m.(next := m.next + 1), c, m.next)
    ensures UsedBounded(r)
  {
    AddGroupCombinationUses(m.(next := m.next + 1), c, m.next);
    forall g | g in r.used ensures g <= r.maxGroupId {
      if g !in m.used { assert g in Span(c); }
    }
  }

  lemma ListingKept(m: Manager, c: Combination, r: Manager)
    requires Valid(m) && Wellformed(c) && c !in m.indices
    requires r == AddGroupCombination(m.(next := m.next + 1), c, m.next)
    ensures IndicesDense(r) ==> ListsMatchSpans(r)
  {
    var n := m.next;
    AddGroupCombinationListed(m.(next := m.next + 1), c, m.next);
    forall c1, g | c1 in r.indices
      ensures multiset(Listed(r, g))[r.indices[c1]] == multiset(Span(c1))[g]
    {
      var k := multiset(Span(c))[g];
      RepeatMultiset(n, k);
      assert multiset(Listed(r, g)) == multiset(Listed(m, g)) + multiset(Repeat(n, k));
      if c1 == c {
        assert n !in multiset(Listed(m, g)) by {
          forall i | 0 <= i < |Listed(m, g)| ensures Listed(m, g)[i] < n {
            assert g in m.perGroup;
          }
        }
      }
    }
  }

  lemma ListedBelowNext(m: Manager, c: Combination, r: Manager)
    requires Valid(m) && Wellformed(c) && c !in m.indices
    requires r == AddGroupCombination(m.(next := m.next + 1), c, m.next)
    ensures ListsBelowNext(r)
  {
    AddGroupCombinationListed(m.(next := m.next + 1), c, m.next);
    forall g, i | g in r.perGroup && 0 <= i < |r.perGroup[g]|
      ensures r.perGroup[g][i] < r.next
    {
      assert r.perGroup[g] == Listed(r, g);
      if i < |Listed(m, g)| {
        assert r.perGroup[g][i] == Listed(m, g)[i];
      }
    }
  }

  /** Objects whose group lists are permutations of each other get the same
      index, and the second one registers nothing new. */
  lemma PermutedObjectsShareIndex(m: Manager, a: seq<GroupId>, b: seq<GroupId>, count: int)
    requires |a| == MAX_GROUPS && |b| == MAX_GROUPS && 0 <= count <= MAX_GROUPS
    requires multiset(a[..count]) == multiset(b[..count])
    ensures var first := IndexForObject(m, a, count);
      IndexForObject(first.0, b, count) == first
  {
    PermutedGroupsSameCombination(a, b, count);
  }

  // ---------------------------------------------------------------------
  // Trigger actions on the state array

  /** Every index of `list` addresses an entry of `states`. */
  predicate InRange(list: seq<CombinationIndex>, states: seq<GroupState>) {
    forall j :: 0 <= j < |list| ==> list[j] < |states|
  }

  /** Under the invariant, a state array of `next` entries or more has an
      entry for every listed index. */
  lemma ListedInRange(m: Manager, states: seq<GroupState>, g: GroupId)
    requires ListsBelowNext(m) && |states| >= m.next
    ensures InRange(Listed(m, g), states)
  {
  }

  /** `k` times the vector `d`. */
  lemma AddScaleStep(o: Vec2, d: Vec2, k: nat)
    ensures Add(Add(o, Scale(d, k as real)), d) == Add(o, Scale(d, (k + 1) as real))
  {
  }

  /** The loop of `moveGroup`: each listing of an index moves it once. */
  function MoveListed(states: seq<GroupState>, list: seq<CombinationIndex>, d: Vec2): (r: seq<GroupState>)
    requires InRange(list, states)
    ensures |r| == |states|
    ensures forall i :: 0 <= i < |states| ==>
      r[i] == states[i].(offset := Add(states[i].offset, Scale(d, multiset(list)[i] as real)))
    decreases |list|
  {
    if |list| == 0 then states
    else
      var n := |list| - 1;
      var prev := MoveListed(states, list[..n], d);
      var r := prev[list[n] := prev[list[n]].(offset := Add(prev[list[n]].offset, d))];
      assert list == list[..n] + [list[n]];
      assert forall i :: 0 <= i < |states| ==>
        r[i] == states[i].(offset := Add(states[i].offset, Scale(d, multiset(list)[i] as real))) by {
        forall i | 0 <= i < |states|
          ensures r[i] == states[i].(offset := Add(states[i].offset, Scale(d, multiset(list)[i] as real)))
        {
          var k := multiset(list[..n])[i];
          if i == list[n] {
            assert multiset(list)[i] == k + 1;
            AddScaleStep(states[i].offset, d, k);
          } else {
            assert multiset(list)[i] == k;
          }
        }
      }
      r
  }

  /** `moveGroup`: an unknown group changes nothing; otherwise every
      combination listed for `g` moves by `(dx, dy)` once per listing. */
  function MoveGroup(states: seq<GroupState>, m: Manager, g: GroupId, dx: real, dy: real): (r: seq<GroupState>)
    requires InRange(Listed(m, g), states)
    ensures g !in m.perGroup ==> r == states
    ensures |r| == |states|
    ensures forall i :: 0 <= i < |states| ==>
      r[i] == states[i].(offset := Add(states[i].offset, Scale(Vec2(dx, dy), multiset(Listed(m, g))[i] as real)))
  {
    if g !in m.perGroup then
      assert forall i :: 0 <= i < |states| ==> Add(states[i].offset, Scale(Vec2(dx, dy), 0 as real)) == states[i].offset;
      states
    else MoveListed(states, m.perGroup[g], Vec2(dx, dy))
  }

  /** Under the invariant a combination moves once per occurrence of `g`
      among its ids: not at all when it does not contain `g`. */
  lemma MoveGroupBySpan(states: seq<GroupState>, m: Manager, g: GroupId, dx: real, dy: real, c: Combination)
    requires Valid(m) && |states| >= m.next && c in m.indices
    ensures InRange(Listed(m, g), states)
    ensures var r := MoveGroup(states, m, g, dx, dy);
      var i := m.indices[c];
      r[i].offset == Add(states[i].offset, Scale(Vec2(dx, dy), multiset(Span(c))[g] as real))
  {
  }

  /** The loop of `rotateGroup` as written: it multiplies the rotation into
      the local transform of the first listed combination and, when there
      is no centre point, returns there. */
  function RotateListed(states: seq<GroupState>, list: seq<CombinationIndex>, angle: real,
                        center: Option<Vec2>, rotate: (Vec2, real) -> Vec2): (r: seq<GroupState>)
    requires InRange(list, states)
    ensures |r| == |states|
    ensures center.Some? ==> r == RotateListedFixed(states, list, angle, center, rotate)
    ensures center.None? && |list| > 0 ==>
      forall i :: 0 <= i < |states| ==> r[i] == (if i == list[0] then RotateOnce(states[i], angle, center, rotate) else states[i])
    decreases |list|
  {
    if |list| == 0 then states
    else
      var i := list[0];
      var next := states[i := RotateOnce(states[i], angle, center, rotate)];
      match center
      case None => next
      case Some(_) => RotateListed(next, list[1..], angle, center, rotate)
  }

  /** One pass of the loop body of `rotateGroup` on one state: the
      rotation goes into the local transform and, about a centre point,
      into the positional transform and the offset. */
  function RotateOnce(s: GroupState, angle: real, center: Option<Vec2>, rotate: (Vec2, real) -> Vec2): GroupState {
    match center
    case None => s.(local := s.local + [angle])
    case Some(p) => s.(local := s.local + [angle], positional := s.positional + [angle],
                       offset := Add(rotate(Sub(s.offset, p), angle), p))
  }

  /** `k` passes of the loop body on one state. */
  function RotateTimes(s: GroupState, k: nat, angle: real, center: Option<Vec2>, rotate: (Vec2, real) -> Vec2): (r: GroupState)
    ensures r.local == s.local + Repeat(angle, k) && r.opacity == s.opacity
    ensures r.positional == s.positional + (if center.Some? then Repeat(angle, k) else [])
    ensures center.None? ==> r.offset == s.offset
  {
    if k == 0 then s
    else
      var prev := RotateTimes(s, k - 1, angle, center, rotate);
      assert Repeat(angle, k - 1) + [angle] == Repeat(angle, k);
      RotateOnce(prev, angle, center, rotate)
  }

  lemma {:induction false} RotateTimesShift(s: GroupState, k: nat, angle: real, center: Option<Vec2>, rotate: (Vec2, real) -> Vec2)
    ensures RotateTimes(RotateOnce(s, angle, center, rotate), k, angle, center, rotate)
      == RotateTimes(s, k + 1, angle, center, rotate)
  {
    if k > 0 {
      RotateTimesShift(s, k - 1, angle, center, rotate);
    }
  }

  /** The loop of `rotateGroup` as evidently intended: every listed
      combination is rotated once per listing, about the centre point when
      there is one. */
  function RotateListedFixed(states: seq<GroupState>, list: seq<CombinationIndex>, angle: real,
                             center: Option<Vec2>, rotate: (Vec2, real) -> Vec2): (r: seq<GroupState>)
    requires InRange(list, states)
    ensures |r| == |states|
    ensures forall i :: 0 <= i < |states| ==> r[i] == RotateTimes(states[i], multiset(list)[i], angle, center, rotate)
    decreases |list|
  {
    if |list| == 0 then states
    else
      var i := list[0];
      var next := states[i := RotateOnce(states[i], angle, center, rotate)];
      assert InRange(list[1..], next) by {
        forall j | 0 <= j < |list[1..]| ensures list[1..][j] < |next| {
          assert list[1..][j] == list[j + 1];
        }
      }
      var r := RotateListedFixed(next, list[1..], angle, center, rotate);
      RotateListedFixedStep(states, list, angle, center, rotate, r);
      r
  }

  /** Rotating the head of `list` once and then the rest by their counts
      rotates every state by its count in the whole of `list`. */
  lemma RotateListedFixedStep(states: seq<GroupState>, list: seq<CombinationIndex>, angle: real,
                              center: Option<Vec2>, rotate: (Vec2, real) -> Vec2, r: seq<GroupState>)
    requires |list| > 0 && list[0] < |states| && |r| == |states|
    requires var next := states[list[0] := RotateOnce(states[list[0]], angle, center, rotate)];
      forall j :: 0 <= j < |states| ==> r[j] == RotateTimes(next[j], multiset(list[1..])[j], angle, center, rotate)
    ensures forall j :: 0 <= j < |states| ==> r[j] == RotateTimes(states[j], multiset(list)[j], angle, center, rotate)
  {
    var i := list[0];
    var next := states[i := RotateOnce(states[i], angle, center, rotate)];
    forall j | 0 <= j < |states|
      ensures r[j] == RotateTimes(states[j], multiset(list)[j], angle, center, rotate)
    {
      var k := multiset(list[1..])[j];
      CountCons(list, j);
      assert r[j] == RotateTimes(next[j], k, angle, center, rotate);
      if j == i {
        RotateTimesShift(states[j], k, angle, center, rotate);
      }
    }
  }

  /** `rotateGroup`. The trigonometry building the matrix from `angle` is
      the function `rotate`; `lockObjectRotation` is not read. */
  function RotateGroup(states: seq<GroupState>, m: Manager, g: GroupId, angle: real, lockObjectRotation: bool,
                       center: Option<Vec2>, rotate: (Vec2, real) -> Vec2): (r: seq<GroupState>)
    requires InRange(Listed(m, g), states)
    ensures g !in m.perGroup ==> r == states
    ensures g in m.perGroup ==> r == RotateListed(states, m.perGroup[g], angle, center, rotate)
  {
    if g !in m.perGroup then states
    else RotateListed(states, m.perGroup[g], angle, center, rotate)
  }

  /** With no centre point and two listed combinations, the second one is
      left unrotated, although every listed combination should be. */
  lemma RotateStopsAtFirst(s0: GroupState, s1: GroupState, angle: real, rotate: (Vec2, real) -> Vec2)
    ensures var states := [s0, s1];
      && RotateListed(states, [0, 1], angle, None, rotate)[1].local == s1.local
      && RotateListedFixed(states, [0, 1], angle, None, rotate)[1].local == s1.local + [angle]
  {
    var states := [s0, s1];
    assert multiset([0, 1])[1] == 1;
    assert Repeat(angle, 1) == [angle];
    assert [0, 1][0] == 0;
  }

  /** `toggleGroup`. */
  function ToggleGroup(m: Manager, g: GroupId, visible: bool): (r: Manager)
    ensures visible ==> g !in r.disabled
    ensures !visible ==> g in r.disabled
    ensures forall h :: h != g ==> (h in r.disabled <==> h in m.disabled)
    ensures r.(disabled := m.disabled) == m
  {
    if visible then m.(disabled := m.disabled - {g}) else m.(disabled := m.disabled + {g})
  }

  /** Toggling twice the same way is toggling once. */
  lemma ToggleIdempotent(m: Manager, g: GroupId, visible: bool)
    ensures ToggleGroup(ToggleGroup(m, g, visible), g, visible) == ToggleGroup(m, g, visible)
  {
  }

  // ---------------------------------------------------------------------
  // Opacities

  /** One factor of a combination's opacity: a disabled group hides it,
      any other multiplies in its modifier. */
  function Step(x: real, g: GroupId, disabled: set<GroupId>, opacityMod: GroupId -> real): real {
    if g in disabled then 0.0 else x * opacityMod(g)
  }

  /** The factors of `gs` applied to `x` in order. */
  function Fold(x: real, gs: seq<GroupId>, disabled: set<GroupId>, opacityMod: GroupId -> real): real
    decreases |gs|
  {
    if |gs| == 0 then x
    else Step(Fold(x, gs[..|gs| - 1], disabled, opacityMod), gs[|gs| - 1], disabled, opacityMod)
  }

  function Product(gs: seq<GroupId>, opacityMod: GroupId -> real): real
    decreases |gs|
  {
    if |gs| == 0 then 1.0 else Product(gs[..|gs| - 1], opacityMod) * opacityMod(gs[|gs| - 1])
  }

  /** Applying the factors gives 0 as soon as one group is disabled, and
      otherwise the product of the modifiers, whatever the order. */
  lemma {:induction false} FoldClosed(x: real, gs: seq<GroupId>, disabled: set<GroupId>, opacityMod: GroupId -> real)
    ensures Fold(x, gs, disabled, opacityMod) ==
      if exists j :: 0 <= j < |gs| && gs[j] in disabled then 0.0 else x * Product(gs, opacityMod)
    decreases |gs|
  {
    if |gs| > 0 {
      var n := |gs| - 1;
      FoldClosed(x, gs[..n], disabled, opacityMod);
      assert forall j :: 0 <= j < n ==> gs[..n][j] == gs[j];
      if exists j :: 0 <= j < |gs| && gs[j] in disabled {
        if gs[n] !in disabled {
          var j :| 0 <= j < |gs| && gs[j] in disabled;
          assert gs[..n][j] in disabled;
        }
      }
    }
  }

  lemma {:induction false} FoldAppend(x: real, a: seq<GroupId>, b: seq<GroupId>, disabled: set<GroupId>, opacityMod: GroupId -> real)
    ensures Fold(x, a + b, disabled, opacityMod) == Fold(Fold(x, a, disabled, opacityMod), b, disabled, opacityMod)
    decreases |b|
  {
    if |b| == 0 {
      assert a + b == a;
    } else {
      var n := |b| - 1;
      assert (a + b)[..|a + b| - 1] == a + b[..n];
      FoldAppend(x, a, b[..n], disabled, opacityMod);
    }
  }

  /** `op` lets its last two operands trade places, as multiplication
      does: `(p a) b = (p b) a`. */
  ghost predicate RightCommutative(op: (real, real) -> real) {
    forall x, y, z :: op(op(x, y), z) == op(op(x, z), y)
  }

  /** The factors of `gs` combined from the left with `op`. The
      permutation argument is made for any such `op`, so that it needs no
      reasoning about real multiplication. */
  function FoldWith(gs: seq<GroupId>, f: GroupId -> real, op: (real, real) -> real): real
    decreases |gs|
  {
    if |gs| == 0 then 1.0 else op(FoldWith(gs[..|gs| - 1], f, op), f(gs[|gs| - 1]))
  }

  lemma FoldWithSnoc(s: seq<GroupId>, g: GroupId, f: GroupId -> real, op: (real, real) -> real)
    ensures FoldWith(s + [g], f, op) == op(FoldWith(s, f, op), f(g))
  {
    assert (s + [g])[..|s|] == s;
  }

  /** Removing one id from a sequence takes its factor out to the end. */
  lemma {:induction false} FoldWithRemove(t: seq<GroupId>, j: int, f: GroupId -> real, op: (real, real) -> real)
    requires 0 <= j < |t| && RightCommutative(op)
    ensures FoldWith(t, f, op) == op(FoldWith(t[..j] + t[j + 1..], f, op), f(t[j]))
    decreases |t|
  {
    var n := |t| - 1;
    if j == n {
      assert t[..j] + t[j + 1..] == t[..n];
    } else {
      var front := t[..n];
      FoldWithRemove(front, j, f, op);
      var rest := front[..j] + front[j + 1..];
      assert front[j] == t[j];
      assert t[..j] + t[j + 1..] == rest + [t[n]];
      FoldWithSnoc(rest, t[n], f, op);
      var p, a, b := FoldWith(rest, f, op), f(t[j]), f(t[n]);
      assert FoldWith(t, f, op) == op(op(p, a), b);
      assert op(op(p, a), b) == op(op(p, b), a);
    }
  }

  /** The combined value depends only on the multiset of ids. */
  lemma {:induction false} FoldWithPermutation(s: seq<GroupId>, t: seq<GroupId>, f: GroupId -> real, op: (real, real) -> real)
    requires multiset(s) == multiset(t) && RightCommutative(op)
    ensures FoldWith(s, f, op) == FoldWith(t, f, op)
    decreases |s|
  {
    if |s| == 0 {
      assert |t| == |multiset(t)| == 0;
    } else {
      var n := |s| - 1;
      var j := RemoveLast(s, t);
      FoldWithPermutation(s[..n], t[..j] + t[j + 1..], f, op);
      FoldWithRemove(t, j, f, op);
    }
  }

  function Multiply(x: real, y: real): real {
    x * y
  }

  lemma MultiplyRightCommutative()
    ensures RightCommutative(Multiply)
  {
    forall x: real, y: real, z: real
      ensures Multiply(Multiply(x, y), z) == Multiply(Multiply(x, z), y)
    {
      assert x * y * z == x * z * y;
    }
  }

  lemma {:induction false} ProductIsFold(gs: seq<GroupId>, opacityMod: GroupId -> real)
    ensures Product(gs, opacityMod) == FoldWith(gs, opacityMod, Multiply)
    decreases |gs|
  {
    if |gs| > 0 {
      ProductIsFold(gs[..|gs| - 1], opacityMod);
    }
  }

  /** The product depends only on the multiset of ids. */
  lemma ProductPermutation(s: seq<GroupId>, t: seq<GroupId>, opacityMod: GroupId -> real)
    requires multiset(s) == multiset(t)
    ensures Product(s, opacityMod) == Product(t, opacityMod)
  {
    MultiplyRightCommutative();
    ProductIsFold(s, opacityMod);
    ProductIsFold(t, opacityMod);
    FoldWithPermutation(s, t, opacityMod, Multiply);
  }

  /** The last element of `s` occurs in `t` at some `j`; without them the
      two sequences still have the same elements. */
  lemma RemoveLast(s: seq<GroupId>, t: seq<GroupId>) returns (j: int)
    requires multiset(s) == multiset(t) && |s| > 0
    ensures 0 <= j < |t| && t[j] == s[|s| - 1]
    ensures multiset(t[..j] + t[j + 1..]) == multiset(s[..|s| - 1])
  {
    var n := |s| - 1;
    assert s == s[..n] + [s[n]];
    assert s[n] in multiset(t);
    j :| 0 <= j < |t| && t[j] == s[n];
    var t' := t[..j] + t[j + 1..];
    assert t == t[..j] + [t[j]] + t[j + 1..];
    assert multiset(t) == multiset(t[..j]) + multiset{t[j]} + multiset(t[j + 1..]);
    assert multiset(t') == multiset(t[..j]) + multiset(t[j + 1..]);
    assert multiset(s) == multiset(s[..n]) + multiset{s[n]};
    assert multiset(t') == multiset(t) - multiset{t[j]};
    assert multiset(s[..n]) == multiset(s) - multiset{s[n]};
  }

  /** The loop of `updateOpacities` over the combinations listed for one
      group. */
  function ScaleListed(states: seq<GroupState>, list: seq<CombinationIndex>, g: GroupId,
                       disabled: set<GroupId>, opacityMod: GroupId -> real): (r: seq<GroupState>)
    requires InRange(list, states)
    ensures |r| == |states|
    ensures forall i :: 0 <= i < |states| ==>
      r[i] == states[i].(opacity := Fold(states[i].opacity, Repeat(g, multiset(list)[i]), disabled, opacityMod))
    decreases |list|
  {
    if |list| == 0 then states
    else
      var n := |list| - 1;
      var prev := ScaleListed(states, list[..n], g, disabled, opacityMod);
      var r := prev[list[n] := prev[list[n]].(opacity := Step(prev[list[n]].opacity, g, disabled, opacityMod))];
      assert list == list[..n] + [list[n]];
      assert forall i :: 0 <= i < |states| ==>
        r[i] == states[i].(opacity := Fold(states[i].opacity, Repeat(g, multiset(list)[i]), disabled, opacityMod)) by {
        forall i | 0 <= i < |states|
          ensures r[i] == states[i].(opacity := Fold(states[i].opacity, Repeat(g, multiset(list)[i]), disabled, opacityMod))
        {
          var k := multiset(list[..n])[i];
          if i == list[n] {
            assert multiset(list)[i] == k + 1;
            assert Repeat(g, k + 1)[..k] == Repeat(g, k);
          } else {
            assert multiset(list)[i] == k;
          }
        }
      }
      r
  }

  /** The groups whose factors reach index `i`, in the order the loop
      applies them: each group of `gs`, once per listing of `i`. */
  function Memberships(m: Manager, gs: seq<GroupId>, i: CombinationIndex): seq<GroupId>
    decreases |gs|
  {
    if |gs| == 0 then []
    else
      var n := |gs| - 1;
      Memberships(m, gs[..n], i) + Repeat(gs[n], multiset(Listed(m, gs[n]))[i])
  }

  /** The outer loop of `updateOpacities`, over the used groups in `order`. */
  function ApplyGroups(states: seq<GroupState>, m: Manager, order: seq<GroupId>, opacityMod: GroupId -> real): (r: seq<GroupState>)
    requires forall g :: InRange(Listed(m, g), states)
    ensures |r| == |states|
    ensures forall i :: 0 <= i < |states| ==>
      r[i] == states[i].(opacity := Fold(states[i].opacity, Memberships(m, order, i), m.disabled, opacityMod))
    decreases |order|
  {
    if |order| == 0 then states
    else
      var n := |order| - 1;
      var g := order[n];
      var prev := ApplyGroups(states, m, order[..n], opacityMod);
      assert forall i :: 0 <= i < |states| ==>
        Fold(states[i].opacity, Memberships(m, order, i), m.disabled, opacityMod)
        == Fold(prev[i].opacity, Repeat(g, multiset(Listed(m, g))[i]), m.disabled, opacityMod) by {
        forall i | 0 <= i < |states|
          ensures Fold(states[i].opacity, Memberships(m, order, i), m.disabled, opacityMod)
            == Fold(prev[i].opacity, Repeat(g, multiset(Listed(m, g))[i]), m.disabled, opacityMod)
        {
          FoldAppend(states[i].opacity, Memberships(m, order[..n], i), Repeat(g, multiset(Listed(m, g))[i]), m.disabled, opacityMod);
        }
      }
      if g !in m.perGroup then
        assert forall i :: 0 <= i < |states| ==> Repeat(g, multiset(Listed(m, g))[i]) == [];
        prev
      else ScaleListed(prev, m.perGroup[g], g, m.disabled, opacityMod)
  }

  /** `updateOpacities`: every combination's opacity restarts at 1 and
      then takes the factors of its groups. `order` is the used groups in
      ascending order, as `std::set` iterates them; `opacityMod` is the
      host's modifier per group. */
  function UpdateOpacities(states: seq<GroupState>, m: Manager, order: seq<GroupId>, opacityMod: GroupId -> real): (r: seq<GroupState>)
    requires ListsBelowNext(m) && |states| >= m.next
    ensures |r| == |states|
    ensures forall i :: 0 <= i < |states| ==> r[i].(opacity := states[i].opacity) == states[i]
    ensures forall i :: m.next <= i < |states| ==> r[i] == states[i]
    ensures forall i :: 0 <= i < m.next ==> r[i].opacity == Fold(1.0, Memberships(m, order, i), m.disabled, opacityMod)
  {
    var reset := seq(|states|, i requires 0 <= i < |states| =>
      if i < m.next then states[i].(opacity := 1.0) else states[i]);
    assert forall g :: InRange(Listed(m, g), reset) by {
      forall g ensures InRange(Listed(m, g), reset) { ListedInRange(m, reset, g); }
    }
    var r := ApplyGroups(reset, m, order, opacityMod);
    assert forall i :: m.next <= i < |states| ==> r[i] == states[i] by {
      forall i | m.next <= i < |states| ensures r[i] == states[i] {
        MembershipsBeyondNext(m, order, i);
      }
    }
    r
  }

  /** Indices at or above `next` are listed under no group. */
  lemma {:induction false} MembershipsBeyondNext(m: Manager, gs: seq<GroupId>, i: CombinationIndex)
    requires ListsBelowNext(m) && i >= m.next
    ensures Memberships(m, gs, i) == []
    decreases |gs|
  {
    if |gs| > 0 {
      var n := |gs| - 1;
      MembershipsBeyondNext(m, gs[..n], i);
      var g := gs[n];
      assert i !in multiset(Listed(m, g)) by {
        forall j | 0 <= j < |Listed(m, g)| ensures Listed(m, g)[j] < m.next {
          assert g in m.perGroup;
        }
      }
    }
  }

  /** `gs` lists each id at most once. */
  predicate NoRepeats(gs: seq<GroupId>) {
    forall a, b :: 0 <= a < b < |gs| ==> gs[a] != gs[b]
  }

  /** With distinct groups, each group occurs among the memberships of `i`
      as often as `i` is listed under it. */
  lemma {:induction false} MembershipsCount(m: Manager, gs: seq<GroupId>, i: CombinationIndex, g: GroupId)
    requires NoRepeats(gs)
    ensures multiset(Memberships(m, gs, i))[g] == if g in gs then multiset(Listed(m, g))[i] else 0
    decreases |gs|
  {
    if |gs| > 0 {
      var n := |gs| - 1;
      var h := gs[n];
      MembershipsCount(m, gs[..n], i, g);
      RepeatMultiset(h, multiset(Listed(m, h))[i]);
      assert g in gs <==> g in gs[..n] || g == h by {
        assert gs == gs[..n] + [h];
      }
      if g == h {
        assert g !in gs[..n];
      }
    }
  }

  /** Under the invariant, the opacity of a combination is 0 if one of its
      groups is disabled and otherwise the product of its groups'
      modifiers, once per occurrence; 1 for a combination without groups. */
  lemma OpacityOfCombination(states: seq<GroupState>, m: Manager, order: seq<GroupId>,
                             opacityMod: GroupId -> real, c: Combination)
    requires Valid(m) && |states| >= m.next && c in m.indices
    requires NoRepeats(order) && forall g :: g in m.used <==> g in order
    ensures UpdateOpacities(states, m, order, opacityMod)[m.indices[c]].opacity ==
      if exists g :: g in Span(c) && g in m.disabled then 0.0 else Product(Span(c), opacityMod)
  {
    var i := m.indices[c];
    var ms := Memberships(m, order, i);
    assert multiset(ms) == multiset(Span(c)) by {
      forall g ensures multiset(ms)[g] == multiset(Span(c))[g] {
        MembershipsCount(m, order, i, g);
        assert multiset(Listed(m, g))[i] == multiset(Span(c))[g];
        if g !in order {
          assert g !in m.perGroup;
        }
      }
    }
    FoldClosed(1.0, ms, m.disabled, opacityMod);
    ProductPermutation(ms, Span(c), opacityMod);
    assert (exists j :: 0 <= j < |ms| && ms[j] in m.disabled) <==> (exists g :: g in Span(c) && g in m.disabled) by {
      if exists j :: 0 <= j < |ms| && ms[j] in m.disabled {
        var j :| 0 <= j < |ms| && ms[j] in m.disabled;
        assert ms[j] in multiset(Span(c));
      }
      if exists g :: g in Span(c) && g in m.disabled {
        var g :| g in Span(c) && g in m.disabled;
        assert g in multiset(ms);
      }
    }
  }

  // ---------------------------------------------------------------------
  // Reset

  /** `resetGroupStates`: both transforms back to identity and the offset
      to zero for every combination, every group enabled; opacities stay. */
  function ResetGroupStates(states: seq<GroupState>, m: Manager): (r: (seq<GroupState>, Manager))
    requires |states| >= m.next
    ensures |r.0| == |states|
    ensures forall i :: 0 <= i < m.next ==>
      r.0[i].positional == [] && r.0[i].local == [] && r.0[i].offset == Vec2(0.0, 0.0)
      && r.0[i].opacity == states[i].opacity
    ensures forall i :: m.next <= i < |states| ==> r.0[i] == states[i]
    ensures r.1.disabled == {} && r.1.(disabled := m.disabled) == m
  {
    (seq(|states|, i requires 0 <= i < |states| =>
       if i < m.next then states[i].(positional := [], local := [], offset := Vec2(0.0, 0.0)) else states[i]),
     m.(disabled := {}))
  }

  /** A reset forgets every move: resetting after `moveGroup` is resetting. */
  lemma ResetForgetsMove(states: seq<GroupState>, m: Manager, g: GroupId, dx: real, dy: real)
    requires ListsBelowNext(m) && |states| >= m.next
    ensures InRange(Listed(m, g), states)
    ensures ResetGroupStates(MoveGroup(states, m, g, dx, dy), m) == ResetGroupStates(states, m)
  {
    var moved := MoveGroup(states, m, g, dx, dy);
    MembershipsBeyondNextMove(m, g, states);
    var a, b := ResetGroupStates(moved, m).0, ResetGroupStates(states, m).0;
    forall i | 0 <= i < |states| ensures a[i] == b[i] {
      if i >= m.next {
        assert Scale(Vec2(dx, dy), 0 as real) == Vec2(0.0, 0.0);
      }
    }
    assert a == b;
  }

  /** `moveGroup` leaves the entries at or above `next` alone. */
  lemma MembershipsBeyondNextMove(m: Manager, g: GroupId, states: seq<GroupState>)
    requires ListsBelowNext(m) && |states| >= m.next
    ensures forall i :: m.next <= i < |states| ==> multiset(Listed(m, g))[i] == 0
  {
    forall i | m.next <= i < |states| ensures multiset(Listed(m, g))[i] == 0 {
      assert forall j :: 0 <= j < |Listed(m, g)| ==> Listed(m, g)[j] < m.next by {
        forall j | 0 <= j < |Listed(m, g)| ensures Listed(m, g)[j] < m.next {
          assert g in m.perGroup;
        }
      }
      assert i !in Listed(m, g);
    }
  }
}
