/** `GroupCombination` (src/renderer/GroupManager.hpp, .cpp): the sorted
    group ids of one object, the key under which per-group state is kept. */
module GroupCombinations {
  import opened Sorting

  /** An object carries at most this many group ids. */
  const MAX_GROUPS: int := 10

  /** `ids` has room for `MAX_GROUPS` ids, of which the first `count` are in
      use. */
  datatype Combination = Combination(ids: seq<int>, count: int)

  predicate Wellformed(c: Combination) {
    |c.ids| == MAX_GROUPS && 0 <= c.count <= MAX_GROUPS
  }

  /** `getSpan`: the ids in use. */
  function Span(c: Combination): (s: seq<int>)
    requires Wellformed(c)
    ensures |s| == c.count
    ensures forall i :: 0 <= i < c.count ==> s[i] == c.ids[i]
  {
    c.ids[..c.count]
  }

  /** The constructor: copies the first `count` ids, zeroes the rest and
      sorts the ids in use. Duplicates are kept. */
  function MakeCombination(groupIds: seq<int>, count: int): (c: Combination)
    requires |groupIds| == MAX_GROUPS && 0 <= count <= MAX_GROUPS
    ensures Wellformed(c) && c.count == count
    ensures Ascending(Span(c))
    ensures multiset(Span(c)) == multiset(groupIds[..count])
    ensures forall i :: count <= i < MAX_GROUPS ==> c.ids[i] == 0
  {
    var used := groupIds[..count];
    var head := if count < 2 then used else SortInts(used);
    var c := Combination(head + seq(MAX_GROUPS - count, _ => 0), count);
    assert Span(c) == head;
    c
  }

  /** Two objects whose group lists are permutations of each other get the
      same combination. */
  lemma PermutedGroupsSameCombination(a: seq<int>, b: seq<int>, count: int)
    requires |a| == MAX_GROUPS && |b| == MAX_GROUPS && 0 <= count <= MAX_GROUPS
    requires multiset(a[..count]) == multiset(b[..count])
    ensures MakeCombination(a, count) == MakeCombination(b, count)
  {
    var ca, cb := MakeCombination(a, count), MakeCombination(b, count);
    AscendingUnique(Span(ca), Span(cb));
    assert ca.ids == Span(ca) + ca.ids[count..];
    assert cb.ids == Span(cb) + cb.ids[count..];
  }

  // ---------------------------------------------------------------------
  // operator< as written

  /** Some id at a position `<= i` of `a` is lower than the id at the same
      position of `b`: the loop of `operator<`, scanning from `i` down. */
  function AnyLowerFrom(a: Combination, b: Combination, i: int): (r: bool)
    requires Wellformed(a) && Wellformed(b) && -1 <= i < MAX_GROUPS
    ensures r <==> exists j :: 0 <= j <= i && a.ids[j] < b.ids[j]
    decreases i + 1
  {
    if i < 0 then false
    else if a.ids[i] < b.ids[i] then true
    else AnyLowerFrom(a, b, i - 1)
  }

  /** `operator<` as written: the smaller count first; between equal counts,
      `a < b` as soon as any id of `a` in use is lower than `b`'s. */
  function Less(a: Combination, b: Combination): bool
    requires Wellformed(a) && Wellformed(b)
  {
    if a.count < b.count then true
    else if a.count > b.count then false
    else AnyLowerFrom(a, b, a.count - 1)
  }

  /** A smaller count orders first. */
  lemma LessByCount(a: Combination, b: Combination)
    requires Wellformed(a) && Wellformed(b)
    ensures a.count < b.count ==> Less(a, b)
    ensures a.count > b.count ==> !Less(a, b)
  {
  }

  /** No combination is less than itself. */
  lemma LessIrreflexive(a: Combination)
    requires Wellformed(a)
    ensures !Less(a, a)
  {
  }

  /** Two combinations are unordered both ways exactly when they use the
      same ids. */
  lemma LessIncomparableIffSameSpan(a: Combination, b: Combination)
    requires Wellformed(a) && Wellformed(b)
    ensures (!Less(a, b) && !Less(b, a)) <==> (a.count == b.count && Span(a) == Span(b))
  {
    if a.count == b.count && !Less(a, b) && !Less(b, a) {
      assert forall j :: 0 <= j < a.count ==> Span(a)[j] == Span(b)[j] by {
        forall j | 0 <= j < a.count ensures Span(a)[j] == Span(b)[j] {
          assert !(a.ids[j] < b.ids[j]) && !(b.ids[j] < a.ids[j]);
        }
      }
    }
  }

  /** The combination of an object with the two groups `x <= y`. */
  function Pair(x: int, y: int): Combination {
    Combination([x, y, 0, 0, 0, 0, 0, 0, 0, 0], 2)
  }

  /** `Pair` is what the constructor builds from either order of the ids. */
  lemma PairConstructed(x: int, y: int)
    requires x <= y
    ensures MakeCombination([x, y, 0, 0, 0, 0, 0, 0, 0, 0], 2) == Pair(x, y)
    ensures MakeCombination([y, x, 0, 0, 0, 0, 0, 0, 0, 0], 2) == Pair(x, y)
  {
    SortedPair(x, y);
    var zeros: seq<int> := seq(MAX_GROUPS - 2, _ => 0);
    assert [x, y] + zeros == [x, y, 0, 0, 0, 0, 0, 0, 0, 0];
    assert [x, y, 0, 0, 0, 0, 0, 0, 0, 0][..2] == [x, y];
    assert [y, x, 0, 0, 0, 0, 0, 0, 0, 0][..2] == [y, x];
    AscendingUnique(SortInts([y, x]), [x, y]);
  }

  /** The relation is not asymmetric: `[1, 5] < [2, 3]` and `[2, 3] < [1, 5]`
      both hold, so it is not a strict weak ordering. */
  lemma LessNotAsymmetric()
    ensures Less(Pair(1, 5), Pair(2, 3)) && Less(Pair(2, 3), Pair(1, 5))
  {
    assert Pair(1, 5).ids[0] < Pair(2, 3).ids[0];
    assert Pair(2, 3).ids[1] < Pair(1, 5).ids[1];
  }

  /** Sorting two ascending integers leaves them in place. */
  lemma SortedPair(x: int, y: int)
    requires x <= y
    ensures SortInts([x, y]) == [x, y]
  {
    AscendingUnique(SortInts([x, y]), [x, y]);
  }

  // ---------------------------------------------------------------------
  // The ordering evidently intended

  /** The first position, scanning down from `i`, where the ids differ
      decides. */
  function LowerAtLastDifference(a: Combination, b: Combination, i: int): bool
    requires Wellformed(a) && Wellformed(b) && -1 <= i < MAX_GROUPS
    decreases i + 1
  {
    if i < 0 then false
    else if a.ids[i] < b.ids[i] then true
    else if a.ids[i] > b.ids[i] then false
    else LowerAtLastDifference(a, b, i - 1)
  }

  /** `operator<` as a lexicographic order, comparing from the last id in
      use down. */
  function LessFixed(a: Combination, b: Combination): bool
    requires Wellformed(a) && Wellformed(b)
  {
    if a.count < b.count then true
    else if a.count > b.count then false
    else LowerAtLastDifference(a, b, a.count - 1)
  }

  lemma {:induction false} LowerAtLastDifferenceOrder(a: Combination, b: Combination, c: Combination, i: int)
    requires Wellformed(a) && Wellformed(b) && Wellformed(c) && -1 <= i < MAX_GROUPS
    ensures !LowerAtLastDifference(a, a, i)
    ensures LowerAtLastDifference(a, b, i) ==> !LowerAtLastDifference(b, a, i)
    ensures LowerAtLastDifference(a, b, i) && LowerAtLastDifference(b, c, i) ==> LowerAtLastDifference(a, c, i)
    ensures (!LowerAtLastDifference(a, b, i) && !LowerAtLastDifference(b, a, i))
      <==> forall j :: 0 <= j <= i ==> a.ids[j] == b.ids[j]
    decreases i + 1
  {
    if i >= 0 {
      LowerAtLastDifferenceOrder(a, b, c, i - 1);
    }
  }

  /** The fixed relation is a strict order whose incomparable pairs are
      exactly the combinations using the same ids. */
  lemma LessFixedStrictOrder(a: Combination, b: Combination, c: Combination)
    requires Wellformed(a) && Wellformed(b) && Wellformed(c)
    ensures !LessFixed(a, a)
    ensures LessFixed(a, b) ==> !LessFixed(b, a)
    ensures LessFixed(a, b) && LessFixed(b, c) ==> LessFixed(a, c)
    ensures (!LessFixed(a, b) && !LessFixed(b, a)) <==> (a.count == b.count && Span(a) == Span(b))
  {
    LowerAtLastDifferenceOrder(a, b, c, a.count - 1);
    if a.count == b.count {
      LowerAtLastDifferenceOrder(a, b, c, a.count - 1);
      if forall j :: 0 <= j <= a.count - 1 ==> a.ids[j] == b.ids[j] {
        assert Span(a) == Span(b);
      }
    }
  }

  /** Under the fixed order, two constructed combinations are equivalent
      exactly when they are equal, so a map keyed by it interns by value. */
  lemma LessFixedInternsByValue(x: seq<int>, y: seq<int>, count1: int, count2: int)
    requires |x| == MAX_GROUPS && 0 <= count1 <= MAX_GROUPS
    requires |y| == MAX_GROUPS && 0 <= count2 <= MAX_GROUPS
    ensures var a, b := MakeCombination(x, count1), MakeCombination(y, count2);
      (!LessFixed(a, b) && !LessFixed(b, a)) <==> a == b
  {
    var a, b := MakeCombination(x, count1), MakeCombination(y, count2);
    LessFixedStrictOrder(a, b, a);
    if a.count == b.count && Span(a) == Span(b) {
      assert a.ids == Span(a) + a.ids[a.count..];
      assert b.ids == Span(b) + b.ids[b.count..];
    }
  }

  /** On the counterexample pair the fixed order picks one side. */
  lemma LessFixedOrdersCounterexample()
    ensures LessFixed(Pair(2, 3), Pair(1, 5)) && !LessFixed(Pair(1, 5), Pair(2, 3))
  {
  }
}
