/** The convex-polygon kernel (src/math/ConvexPolygon.hpp, .cpp). A polygon is
    its sequence of lines; the points behind every line are inside. The
    sequence is meant to stay ordered by pseudo-angle, and every mutator here
    is a pure function from the old line sequence to the new one. */
module ConvexPolygons {
  import opened Wrappers
  import opened Geometry

  /** `ConvexPolygon`, represented by its `lines` vector. */
  type ConvexPolygon = seq<Line>

  /** One triangle handed to the triangulation callback. */
  datatype Triangle = Triangle(a: Vec2, b: Vec2, c: Vec2)

  // ---------------------------------------------------------------------
  // Wrap-around indexing

  /** `nextIndex` for a polygon of `n` lines. */
  function NextIndex(n: int, i: int): (j: int)
    ensures 0 <= i < n ==> 0 <= j < n
    ensures 0 <= i < n ==> (j == 0 <==> i == n - 1)
  {
    if i + 1 >= n then 0 else i + 1
  }

  /** `prevIndex` for a polygon of `n` lines. */
  function PrevIndex(n: int, i: int): (j: int)
    ensures 0 <= i < n ==> 0 <= j < n && NextIndex(n, j) == i
    ensures 0 <= i < n ==> (j == n - 1 <==> i == 0)
  {
    if i - 1 < 0 then n - 1 else i - 1
  }

  /** Stepping forward then back returns to the same index. */
  lemma PrevOfNext(n: int, i: int)
    requires 0 <= i < n
    ensures PrevIndex(n, NextIndex(n, i)) == i
  {
  }

  // ---------------------------------------------------------------------
  // Ordering invariants

  /** Lines in non-decreasing pseudo-angle order: the order the header
      promises for `lines`. */
  ghost predicate Sorted(lines: seq<Line>) {
    forall j, k :: 0 <= j < k < |lines| ==> Angle(lines[j]) <= Angle(lines[k])
  }

  /** Sorted, and no two lines have the same normal in the `sameNormalAs`
      sense: the shape `removeExcessLines` leaves behind. */
  ghost predicate Separated(lines: seq<Line>) {
    forall j, k :: 0 <= j < k < |lines| ==> Angle(lines[j]) + EPSILON <= Angle(lines[k])
  }

  /** Every adjacent pair before position `i` is at least EPSILON apart. */
  ghost predicate GapsBefore(lines: seq<Line>, i: int) {
    forall j :: 0 <= j < i && j + 1 < |lines| ==> Angle(lines[j]) + EPSILON <= Angle(lines[j + 1])
  }

  lemma SeparatedIsSorted(lines: seq<Line>)
    ensures Separated(lines) ==> Sorted(lines)
  {
  }

  /** Adjacent gaps of at least EPSILON add up to pairwise separation. */
  lemma {:induction false} GapsSeparate(lines: seq<Line>)
    requires GapsBefore(lines, |lines|)
    ensures Separated(lines)
    decreases |lines|
  {
    if |lines| > 1 {
      var init := lines[..|lines| - 1];
      assert GapsBefore(init, |init|);
      GapsSeparate(init);
      var last := |lines| - 1;
      forall j | 0 <= j < last
        ensures Angle(lines[j]) + EPSILON <= Angle(lines[last])
      {
        if j < last - 1 {
          assert init[j] == lines[j] && init[last - 1] == lines[last - 1];
        }
      }
    }
  }

  // ---------------------------------------------------------------------
  // Sequence surgery

  /** `lines.erase(lines.begin() + k)`. */
  function Erase(s: seq<Line>, k: int): (r: seq<Line>)
    requires 0 <= k < |s|
    ensures |r| == |s| - 1
    ensures multiset(r) == multiset(s) - multiset{s[k]}
    ensures forall j :: 0 <= j < |r| ==> r[j] == if j < k then s[j] else s[j + 1]
  {
    assert s == s[..k] + [s[k]] + s[k + 1..];
    s[..k] + s[k + 1..]
  }

  /** `lines.insert(lines.begin() + k, line)`. */
  function Insert(s: seq<Line>, k: int, line: Line): (r: seq<Line>)
    requires 0 <= k <= |s|
    ensures |r| == |s| + 1
    ensures multiset(r) == multiset(s) + multiset{line}
    ensures forall j :: 0 <= j < |r| ==> r[j] == if j < k then s[j] else if j == k then line else s[j - 1]
  {
    assert s == s[..k] + s[k..];
    s[..k] + [line] + s[k..]
  }

  lemma EraseKeepsSeparated(s: seq<Line>, k: int)
    requires 0 <= k < |s|
    ensures Separated(s) ==> Separated(Erase(s, k))
  {
    if !Separated(s) { return; }
    var r := Erase(s, k);
    forall j, m | 0 <= j < m < |r|
      ensures Angle(r[j]) + EPSILON <= Angle(r[m])
    {
      var j', m' := if j < k then j else j + 1, if m < k then m else m + 1;
      assert r[j] == s[j'] && r[m] == s[m'];
    }
  }

  // ---------------------------------------------------------------------
  // containsPoint

  /** `containsPoint`: the point is behind every line. */
  function ContainsPoint(lines: seq<Line>, p: Vec2): (r: bool)
    ensures r <==> forall k :: 0 <= k < |lines| ==> IsPointBehind(lines[k], p)
  {
    if |lines| == 0 then true
    else if IsPointInFront(lines[0], p) then false
    else
      var rest := ContainsPoint(lines[1..], p);
      assert forall k :: 1 <= k < |lines| ==> lines[k] == lines[1..][k - 1];
      rest
  }

  // ---------------------------------------------------------------------
  // isWholePolygonBehindLine

  /** Where the scan in `isWholePolygonBehindLine` ends: at the first line
      with the same normal, or after the last line with `index` the first
      position whose angle exceeds the new angle (-1 when there is none). */
  datatype Scan = SameNormalAt(at: nat) | Above(index: int)

  /** The scan loop, resumed at position `i` with `index` found so far. */
  function ScanFrom(lines: seq<Line>, angle: real, i: nat, index: int): (r: Scan)
    requires i <= |lines|
    requires forall j :: 0 <= j < i ==> Abs(angle - Angle(lines[j])) >= EPSILON
    requires index == -1 ==> forall j :: 0 <= j < i ==> Angle(lines[j]) <= angle
    requires index != -1 ==> 0 <= index < i && Angle(lines[index]) > angle
    requires index != -1 ==> forall j :: 0 <= j < index ==> Angle(lines[j]) <= angle
    ensures r.SameNormalAt? ==>
      && r.at < |lines|
      && Abs(angle - Angle(lines[r.at])) < EPSILON
      && forall j :: 0 <= j < r.at ==> Abs(angle - Angle(lines[j])) >= EPSILON
    ensures r.Above? ==>
      && (forall j :: 0 <= j < |lines| ==> Abs(angle - Angle(lines[j])) >= EPSILON)
      && -1 <= r.index < |lines|
      && (r.index == -1 ==> forall j :: 0 <= j < |lines| ==> Angle(lines[j]) <= angle)
      && (r.index != -1 ==> Angle(lines[r.index]) > angle)
      && (r.index != -1 ==> forall j :: 0 <= j < r.index ==> Angle(lines[j]) <= angle)
    decreases |lines| - i
  {
    if i == |lines| then Above(index)
    else if Abs(angle - Angle(lines[i])) < EPSILON then SameNormalAt(i)
    else ScanFrom(lines, angle, i + 1, if Angle(lines[i]) > angle && index == -1 then i else index)
  }

  function ScanLines(lines: seq<Line>, angle: real): Scan {
    ScanFrom(lines, angle, 0, -1)
  }

  /** The result of `isWholePolygonBehindLine`: its return value and what it
      wrote through `indexOut` (None when it wrote nothing). */
  datatype BehindResult = BehindResult(behind: bool, indexOut: Option<int>)

  /** `isWholePolygonBehindLine`. */
  function IsWholePolygonBehindLine(lines: seq<Line>, line: Line): (r: BehindResult)
    ensures |lines| == 0 ==> r == BehindResult(false, None)
    ensures r.indexOut.None? <==>
      |lines| == 0 || exists k :: 0 <= k < |lines| && SameNormalAs(line, lines[k])
    ensures r.indexOut.Some? ==>
      && 0 <= r.indexOut.value <= |lines|
      && (Sorted(lines) ==> Sorted(Insert(lines, r.indexOut.value, line)))
    ensures ScanLines(lines, Angle(line)).SameNormalAt? ==>
      var k := ScanLines(lines, Angle(line)).at;
      r.behind <==> line.distance > lines[k].distance
  {
    if |lines| == 0 then BehindResult(false, None)
    else
      var angle := Angle(line);
      match ScanLines(lines, angle)
      case SameNormalAt(k) =>
        BehindResult(line.distance > lines[k].distance, None)
      case Above(index) =>
        assert forall k :: 0 <= k < |lines| ==> !SameNormalAs(line, lines[k]);
        var out := if index == -1 then |lines| else index;
        InsertAboveKeepsSorted(lines, out, line);
        if index == -1 then BehindResult(false, Some(out))
        else
          var prevIdx := PrevIndex(|lines|, index);
          if prevIdx == index then BehindResult(false, Some(out))
          else
            var prevLine, nextLine := lines[prevIdx], lines[index];
            if Dot(line.normal, prevLine.normal) < 0.0 || Dot(line.normal, nextLine.normal) < 0.0 then
              BehindResult(false, Some(out))
            else
              match IntersectionWith(nextLine, prevLine)
              case None => BehindResult(false, Some(out))
              case Some(p) => BehindResult(IsPointBehind(line, p), Some(out))
  }

  /** On a match with exactly the same normal, a line reported behind
      leaves every point of the polygon behind it: no part of the polygon
      lies in front of it. */
  lemma SameNormalBehindCoversPolygon(lines: seq<Line>, line: Line, p: Vec2)
    requires ScanLines(lines, Angle(line)).SameNormalAt?
    requires line.normal == lines[ScanLines(lines, Angle(line)).at].normal
    requires IsWholePolygonBehindLine(lines, line).behind
    requires ContainsPoint(lines, p)
    ensures IsPointBehind(line, p)
  {
    var k := ScanLines(lines, Angle(line)).at;
    assert IsPointBehind(lines[k], p);
  }

  /** The corner test: when the new normal lies in the cone of the two
      neighbours' normals and their common point is behind the new line,
      every point behind both neighbours is behind the new line too. */
  lemma {:induction false} CornerBehindCoversWedge(prev: Line, next: Line, line: Line, q: Vec2, a: real, b: real, p: Vec2)
    requires a >= 0.0 && b >= 0.0
    requires line.normal == Add(Scale(prev.normal, a), Scale(next.normal, b))
    requires OnLine(prev, q) && OnLine(next, q) && IsPointBehind(line, q)
    requires IsPointBehind(prev, p) && IsPointBehind(next, p)
    ensures IsPointBehind(line, p)
  {
    DotCone(p, prev.normal, next.normal, a, b);
    DotCone(q, prev.normal, next.normal, a, b);
    ScaledAtMost(a, Dot(p, prev.normal), prev.distance);
    ScaledAtMost(b, Dot(p, next.normal), next.distance);
  }

  /** The projection on a combination of two normals is the same
      combination of the projections. */
  lemma DotCone(p: Vec2, u: Vec2, v: Vec2, a: real, b: real)
    ensures Dot(p, Add(Scale(u, a), Scale(v, b))) == a * Dot(p, u) + b * Dot(p, v)
  {
  }

  lemma ScaledAtMost(a: real, x: real, y: real)
    requires a >= 0.0 && x <= y
    ensures a * x <= a * y
  {
  }

  /** Inserting a line before the first larger angle keeps the order. */
  lemma InsertAboveKeepsSorted(lines: seq<Line>, k: int, line: Line)
    requires 0 <= k <= |lines|
    requires forall j :: 0 <= j < k ==> Angle(lines[j]) <= Angle(line)
    requires k < |lines| ==> Angle(lines[k]) > Angle(line)
    ensures Sorted(lines) ==> Sorted(Insert(lines, k, line))
  {
    if Sorted(lines) {
      var r := Insert(lines, k, line);
      forall j, m | 0 <= j < m < |r|
        ensures Angle(r[j]) <= Angle(r[m])
      {
        if m > k && j != k {
          assert r[m] == lines[m - 1];
        }
      }
    }
  }

  // ---------------------------------------------------------------------
  // removeExcessLines

  /** The first loop of `removeExcessLines`, resumed at `i`: a line with the
      same normal as its successor absorbs it, keeping the smaller distance. */
  function MergeFrom(lines: seq<Line>, i: nat): (r: seq<Line>)
    ensures |r| <= |lines|
    ensures multiset(r) <= multiset(lines)
    ensures |lines| > 0 ==> |r| > 0
    decreases |lines| - i
  {
    if i >= |lines| then lines
    else
      var nextI := NextIndex(|lines|, i);
      if i == nextI then lines
      else if SameNormalAs(lines[i], lines[nextI]) then
        var kept := if lines[nextI].distance < lines[i].distance then lines[i := lines[nextI]] else lines;
        MergeStepShrinks(lines, i, nextI, kept);
        var r := MergeFrom(Erase(kept, nextI), i);
        SubMultisetTransitive(multiset(r), multiset(Erase(kept, nextI)), multiset(lines));
        r
      else MergeFrom(lines, i + 1)
  }

  /** No merge moves the polygon's boundary outward: every line has a line
      kept by the merge loop at most as far out, since each merged pair
      keeps its nearer line. */
  lemma {:induction false} MergeFromKeepsNearer(lines: seq<Line>, i: nat)
    ensures forall x :: x in lines ==> exists y :: y in MergeFrom(lines, i) && y.distance <= x.distance
    decreases |lines| - i
  {
    if i < |lines| {
      var nextI := NextIndex(|lines|, i);
      if i != nextI && SameNormalAs(lines[i], lines[nextI]) {
        var kept := if lines[nextI].distance < lines[i].distance then lines[i := lines[nextI]] else lines;
        MergeStepShrinks(lines, i, nextI, kept);
        var next := Erase(kept, nextI);
        MergeFromKeepsNearer(next, i);
        var k := if nextI < i then i - 1 else i;
        forall x | x in lines
          ensures exists y :: y in MergeFrom(lines, i) && y.distance <= x.distance
        {
          var z := if x == lines[i] || x == lines[nextI] then next[k] else x;
          assert z in next && z.distance <= x.distance;
        }
      } else if i != nextI {
        MergeFromKeepsNearer(lines, i + 1);
      } else {
        forall x | x in lines
          ensures exists y :: y in MergeFrom(lines, i) && y.distance <= x.distance
        {
          assert x in MergeFrom(lines, i);
        }
      }
    } else {
      forall x | x in lines
        ensures exists y :: y in MergeFrom(lines, i) && y.distance <= x.distance
      {
        assert x in MergeFrom(lines, i);
      }
    }
  }

  /** Merging a pair keeps one of its lines in place of the two: the one
      with the smaller distance, in the place of the first line of the
      pair. Every other line stays. */
  lemma MergeStepShrinks(lines: seq<Line>, i: nat, nextI: nat, kept: seq<Line>)
    requires i < |lines| && nextI < |lines| && i != nextI
    requires kept == if lines[nextI].distance < lines[i].distance then lines[i := lines[nextI]] else lines
    ensures multiset(Erase(kept, nextI)) <= multiset(lines)
    ensures var r := Erase(kept, nextI); var k := if nextI < i then i - 1 else i;
      && |r| == |lines| - 1 && k < |r|
      && (r[k] == lines[i] || r[k] == lines[nextI])
      && r[k].distance <= lines[i].distance && r[k].distance <= lines[nextI].distance
    ensures forall x :: x in lines && x != lines[i] && x != lines[nextI] ==> x in Erase(kept, nextI)
  {
    var r := Erase(kept, nextI);
    var k := if nextI < i then i - 1 else i;
    assert |kept| == |lines| && |r| == |lines| - 1;
    if nextI < i {
      assert r[k] == kept[k + 1];
    } else {
      assert r[k] == kept[k];
    }
    assert r[k] == kept[i];
    MergeStepKeepsOthers(lines, i, nextI, kept);
    if lines[nextI].distance < lines[i].distance {
      assert multiset(kept) == multiset(lines) - multiset{lines[i]} + multiset{lines[nextI]};
    }
  }

  /** Merging a pair leaves every line outside the pair in place. */
  lemma MergeStepKeepsOthers(lines: seq<Line>, i: nat, nextI: nat, kept: seq<Line>)
    requires i < |lines| && nextI < |lines| && i != nextI
    requires kept == if lines[nextI].distance < lines[i].distance then lines[i := lines[nextI]] else lines
    ensures forall x :: x in lines && x != lines[i] && x != lines[nextI] ==> x in Erase(kept, nextI)
  {
    var r := Erase(kept, nextI);
    forall x | x in lines && x != lines[i] && x != lines[nextI]
      ensures x in r
    {
      var j :| 0 <= j < |lines| && lines[j] == x;
      assert kept[j] == x;
      if j < nextI {
        assert r[j] == x;
      } else {
        assert r[j - 1] == x;
      }
    }
  }

  lemma SubMultisetTransitive<T>(a: multiset<T>, b: multiset<T>, c: multiset<T>)
    requires a <= b && b <= c
    ensures a <= c
  {
  }

  /** The condition under which the second loop of `removeExcessLines`
      erases line `i`: both neighbours face the same way as it and their
      intersection is behind it. */
  predicate Redundant(lines: seq<Line>, i: int)
    requires 0 <= i < |lines|
  {
    var prevLine, nextLine := lines[PrevIndex(|lines|, i)], lines[NextIndex(|lines|, i)];
    var line := lines[i];
    && Dot(line.normal, prevLine.normal) > 0.0
    && Dot(line.normal, nextLine.normal) > 0.0
    && match IntersectionWith(nextLine, prevLine)
       case Some(p) => IsPointBehind(line, p)
       case None => false
  }

  /** The second loop of `removeExcessLines`, resumed at `i`: it erases
      redundant lines but stops once fewer than three lines remain. */
  function PruneFrom(lines: seq<Line>, i: nat): (r: seq<Line>)
    ensures |r| <= |lines|
    ensures multiset(r) <= multiset(lines)
    ensures |lines| >= 2 ==> |r| >= 2
    ensures |lines| <= 2 ==> r == lines
    ensures Separated(lines) ==> Separated(r)
    decreases |lines| - i
  {
    if i >= |lines| then lines
    else
      var prevI, nextI := PrevIndex(|lines|, i), NextIndex(|lines|, i);
      if prevI == i || nextI == i || prevI == nextI then lines
      else if Redundant(lines, i) then
        EraseKeepsSeparated(lines, i);
        PruneFrom(Erase(lines, i), i)
      else PruneFrom(lines, i + 1)
  }

  /** `removeExcessLines`. */
  function RemoveExcessLines(lines: seq<Line>): (r: seq<Line>)
    ensures |r| <= |lines|
    ensures multiset(r) <= multiset(lines)
    ensures |lines| > 0 ==> |r| > 0
    ensures Sorted(lines) ==> Separated(r)
  {
    var merged := MergeFrom(lines, 0);
    MergeFromSeparates(lines, 0);
    PruneFrom(merged, 0)
  }

  /** Resumed on sorted lines whose adjacent pairs before `i` are already
      apart, the merge loop leaves every pair of lines EPSILON apart. */
  lemma {:induction false} MergeFromSeparates(lines: seq<Line>, i: nat)
    ensures Sorted(lines) && GapsBefore(lines, i) ==> Separated(MergeFrom(lines, i))
    decreases |lines| - i
  {
    if !(Sorted(lines) && GapsBefore(lines, i)) {
    } else if i >= |lines| {
      GapsSeparate(lines);
    } else {
      var nextI := NextIndex(|lines|, i);
      if i == nextI {
        assert |lines| == 1;
      } else if SameNormalAs(lines[i], lines[nextI]) {
        var next := MergeStepResult(lines, i);
        MergeFromSeparates(next, i);
      } else {
        GapsExtend(lines, i);
        MergeFromSeparates(lines, i + 1);
      }
    }
  }

  /** One merge step on sorted lines apart before `i`: the line after the
      step is still sorted and apart before `i`. */
  lemma MergeStepResult(lines: seq<Line>, i: nat) returns (next: seq<Line>)
    requires Sorted(lines) && GapsBefore(lines, i) && i < |lines|
    requires i != NextIndex(|lines|, i) && SameNormalAs(lines[i], lines[NextIndex(|lines|, i)])
    ensures var nextI := NextIndex(|lines|, i);
      var kept := if lines[nextI].distance < lines[i].distance then lines[i := lines[nextI]] else lines;
      next == Erase(kept, nextI)
    ensures Sorted(next) && GapsBefore(next, i)
  {
    var n := |lines|;
    var nextI := NextIndex(n, i);
    if i == n - 1 {
      WrapPairApart(lines, i);
      assert false;
    }
    var c := if lines[nextI].distance < lines[i].distance then lines[nextI] else lines[i];
    var kept := if lines[nextI].distance < lines[i].distance then lines[i := lines[nextI]] else lines;
    MergeStepKeepsOrder(lines, i, c);
    next := Erase(kept, nextI);
    assert next == lines[..i] + [c] + lines[i + 2..];
  }

  /** A pair that does not share a normal extends the gaps by one. */
  lemma GapsExtend(lines: seq<Line>, i: nat)
    requires Sorted(lines) && GapsBefore(lines, i) && i < |lines|
    requires i != NextIndex(|lines|, i) && !SameNormalAs(lines[i], lines[NextIndex(|lines|, i)])
    ensures GapsBefore(lines, i + 1)
  {
    if i + 1 < |lines| {
      assert Angle(lines[i]) <= Angle(lines[i + 1]);
    }
  }

  /** In sorted lines whose first gap is at least EPSILON, the last and
      the first line never share a normal. */
  lemma WrapPairApart(lines: seq<Line>, i: nat)
    requires Sorted(lines) && GapsBefore(lines, i)
    requires 0 < i == |lines| - 1
    ensures !SameNormalAs(lines[i], lines[0])
  {
    assert Angle(lines[0]) + EPSILON <= Angle(lines[1]) <= Angle(lines[i]);
  }

  /** Replacing a same-normal adjacent pair by one of its lines keeps the
      order and the gaps already established before it. */
  lemma MergeStepKeepsOrder(lines: seq<Line>, i: nat, c: Line)
    requires Sorted(lines) && GapsBefore(lines, i)
    requires i + 1 < |lines|
    requires c == lines[i] || c == lines[i + 1]
    ensures Sorted(lines[..i] + [c] + lines[i + 2..])
    ensures GapsBefore(lines[..i] + [c] + lines[i + 2..], i)
  {
    var next := lines[..i] + [c] + lines[i + 2..];
    assert forall j :: 0 <= j < |next| ==> next[j] == if j < i then lines[j] else if j == i then c else lines[j + 1];
    assert Angle(lines[i]) <= Angle(c) <= Angle(lines[i + 1]);
  }

  /** Lines with no adjacent pair sharing a normal pass the merge loop
      unchanged. */
  lemma {:induction false} MergeKeepsApartLines(lines: seq<Line>, i: nat)
    requires forall j :: i <= j < |lines| ==> !SameNormalAs(lines[j], lines[NextIndex(|lines|, j)])
    ensures MergeFrom(lines, i) == lines
    decreases |lines| - i
  {
    if i < |lines| && i != NextIndex(|lines|, i) {
      MergeKeepsApartLines(lines, i + 1);
    }
  }

  /** Lines that each face away from their predecessor pass the pruning
      loop unchanged. */
  lemma {:induction false} PruneKeepsOpposedLines(lines: seq<Line>, i: nat)
    requires forall j :: i <= j < |lines| ==> Dot(lines[j].normal, lines[PrevIndex(|lines|, j)].normal) <= 0.0
    ensures PruneFrom(lines, i) == lines
    decreases |lines| - i
  {
    if i < |lines| {
      NotRedundantWhenPrevOpposes(lines, i);
      PruneKeepsOpposedLines(lines, i + 1);
    }
  }

  // ---------------------------------------------------------------------
  // addLine

  /** `addLine` as written: when the scan stops at a line with the same
      normal and the new line is the tighter one, `indexOut` is never
      written and the line is inserted at position 0. */
  function AddLine(lines: seq<Line>, line: Line): seq<Line> {
    var b := IsWholePolygonBehindLine(lines, line);
    if b.behind then lines
    else
      var index := b.indexOut.GetOr(0);
      if 0 <= index <= |lines| then RemoveExcessLines(Insert(lines, index, line)) else lines
  }

  /** `addLine` with the tighter same-normal line taking the place of the
      line it matches, so the ordering invariant is kept. */
  function AddLineFixed(lines: seq<Line>, line: Line): (r: seq<Line>)
    ensures |lines| == 0 ==> r == [line]
    ensures (ScanLines(lines, Angle(line)).SameNormalAt? &&
      line.distance > lines[ScanLines(lines, Angle(line)).at].distance) ==> r == lines
    ensures Separated(lines) ==> Separated(r)
  {
    var b := IsWholePolygonBehindLine(lines, line);
    if b.behind then lines
    else match b.indexOut
      case Some(index) =>
        SeparatedIsSorted(lines);
        RemoveExcessLines(Insert(lines, index, line))
      case None =>
        if |lines| == 0 then [line]
        else
          var k := ScanLines(lines, Angle(line)).at;
          ReplaceSameNormalKeepsSorted(lines, k, line);
          RemoveExcessLines(lines[k := line])
  }

  /** Replacing a line of a separated polygon by one with the same normal
      keeps the lines sorted. */
  lemma ReplaceSameNormalKeepsSorted(lines: seq<Line>, k: int, line: Line)
    requires 0 <= k < |lines|
    requires Abs(Angle(line) - Angle(lines[k])) < EPSILON
    ensures Separated(lines) ==> Sorted(lines[k := line])
  {
  }

  /** Without a same-normal line in the polygon the two versions agree. */
  lemma AddLineAgreesWithoutSameNormal(lines: seq<Line>, line: Line)
    requires forall k :: 0 <= k < |lines| ==> !SameNormalAs(line, lines[k])
    ensures AddLine(lines, line) == AddLineFixed(lines, line)
  {
    var b := IsWholePolygonBehindLine(lines, line);
    if |lines| > 0 {
      assert b.indexOut.Some?;
    }
  }

  /** `addLine`: adding to an empty polygon gives exactly the new line; a
      line with the same normal as a line of the polygon but farther out is
      rejected, leaving the polygon unchanged; in every case the result
      holds only lines of the polygon and the new line. */
  lemma AddLineContents(lines: seq<Line>, line: Line)
    ensures |lines| == 0 ==> AddLine(lines, line) == [line]
    ensures (ScanLines(lines, Angle(line)).SameNormalAt? &&
      line.distance > lines[ScanLines(lines, Angle(line)).at].distance) ==> AddLine(lines, line) == lines
    ensures forall x :: x in AddLine(lines, line) ==> x in lines || x == line
  {
    var b := IsWholePolygonBehindLine(lines, line);
    var index := b.indexOut.GetOr(0);
    if !b.behind && 0 <= index <= |lines| {
      InsertThenRemoveDrawsFrom(lines, index, line);
    }
  }

  /** Inserting `line` and removing the excess lines leaves only lines of
      `lines` and `line` itself. */
  lemma InsertThenRemoveDrawsFrom(lines: seq<Line>, index: int, line: Line)
    requires 0 <= index <= |lines|
    ensures forall x :: x in RemoveExcessLines(Insert(lines, index, line)) ==> x in lines || x == line
  {
    var ins := Insert(lines, index, line);
    forall x | x in RemoveExcessLines(ins)
      ensures x in lines || x == line
    {
      assert x in multiset(RemoveExcessLines(ins));
      assert x in multiset(ins);
    }
  }

  /** `addLine` as written, applied to each line of `ls` in turn. */
  function AddLines(lines: seq<Line>, ls: seq<Line>): seq<Line>
    decreases |ls|
  {
    if |ls| == 0 then lines else AddLines(AddLine(lines, ls[0]), ls[1..])
  }

  /** The corrected `addLine`, applied to each line of `ls` in turn. */
  function AddLinesFixed(lines: seq<Line>, ls: seq<Line>): (r: seq<Line>)
    ensures Separated(lines) ==> Separated(r)
    decreases |ls|
  {
    if |ls| == 0 then lines else AddLinesFixed(AddLineFixed(lines, ls[0]), ls[1..])
  }

  /** No two lines of `ls` have the same normal. */
  predicate NormalsApart(ls: seq<Line>) {
    forall i, j :: 0 <= i < j < |ls| ==> !SameNormalAs(ls[i], ls[j])
  }

  /** No line of `lines` has the normal of a line of `ls`. */
  predicate NormalsApartFrom(lines: seq<Line>, ls: seq<Line>) {
    forall k, j :: 0 <= k < |lines| && 0 <= j < |ls| ==> !SameNormalAs(lines[k], ls[j])
  }

  /** Adding the first of lines with pairwise different normals, none
      shared with the polygon: both versions agree, and the rest of the
      lines still share no normal with the result. */
  lemma AddLineKeepsApart(lines: seq<Line>, ls: seq<Line>)
    requires |ls| > 0 && NormalsApart(ls) && NormalsApartFrom(lines, ls)
    ensures AddLine(lines, ls[0]) == AddLineFixed(lines, ls[0])
    ensures NormalsApart(ls[1..]) && NormalsApartFrom(AddLine(lines, ls[0]), ls[1..])
  {
    var line := ls[0];
    forall k | 0 <= k < |lines|
      ensures !SameNormalAs(line, lines[k])
    {
      assert !SameNormalAs(lines[k], ls[0]);
    }
    AddLineAgreesWithoutSameNormal(lines, line);
    var next := AddLine(lines, line);
    AddLineContents(lines, line);
    forall k, j | 0 <= k < |next| && 0 <= j < |ls[1..]|
      ensures !SameNormalAs(next[k], ls[1..][j])
    {
      assert ls[1..][j] == ls[j + 1];
      assert next[k] in next;
      if next[k] != line {
        var m :| 0 <= m < |lines| && lines[m] == next[k];
      }
    }
    forall i, j | 0 <= i < j < |ls[1..]|
      ensures !SameNormalAs(ls[1..][i], ls[1..][j])
    {
      assert ls[1..][i] == ls[i + 1] && ls[1..][j] == ls[j + 1];
    }
  }

  /** When no two of the added lines share a normal, and none shares one
      with the polygon, `addLine` as written and the corrected `addLine`
      build the same polygon: the scan never meets a same-normal line, so
      `indexOut` is always written. */
  lemma {:induction false} AddLinesAgree(lines: seq<Line>, ls: seq<Line>)
    requires NormalsApart(ls) && NormalsApartFrom(lines, ls)
    ensures AddLines(lines, ls) == AddLinesFixed(lines, ls)
    decreases |ls|
  {
    if |ls| > 0 {
      AddLineKeepsApart(lines, ls);
      AddLinesAgree(AddLine(lines, ls[0]), ls[1..]);
    }
  }

  /** A line whose angle exceeds every existing angle goes at the end. */
  lemma LargestAngleAppends(lines: seq<Line>, line: Line)
    requires forall k :: 0 <= k < |lines| ==> Angle(lines[k]) + EPSILON <= Angle(line)
    ensures |lines| > 0 ==> IsWholePolygonBehindLine(lines, line).indexOut == Some(|lines|)
    ensures !IsWholePolygonBehindLine(lines, line).behind
    ensures AddLine(lines, line) == RemoveExcessLines(lines + [line])
  {
    var angle := Angle(line);
    assert forall k :: 0 <= k < |lines| ==> !(Angle(lines[k]) > angle) && !SameNormalAs(line, lines[k]);
    var b := IsWholePolygonBehindLine(lines, line);
    if |lines| > 0 {
      var s := ScanLines(lines, angle);
      assert s.Above? && s.index == -1;
      assert b.indexOut == Some(|lines|);
    }
    assert Insert(lines, |lines|, line) == lines + [line];
  }

  // ---------------------------------------------------------------------
  // triangulate

  /** The intersection of line `k` with its successor. */
  function Ring(lines: seq<Line>, k: int): Option<Vec2>
    requires 0 <= k < |lines|
  {
    IntersectionWith(lines[k], lines[NextIndex(|lines|, k)])
  }

  /** The ring points of every position, in order. */
  function RingPoints(lines: seq<Line>): (r: seq<Option<Vec2>>)
    ensures |r| == |lines| && forall k :: 0 <= k < |lines| ==> r[k] == Ring(lines, k)
  {
    seq(|lines|, k requires 0 <= k < |lines| => Ring(lines, k))
  }

  /** The triangulation loop from position `i` over the ring points
      `ring`, with `first` the first ring point and `prev` the point found
      by the previous step. */
  function FanFrom(ring: seq<Option<Vec2>>, i: nat, first: Vec2, prev: Vec2): (r: seq<Triangle>)
    requires 2 <= i <= |ring|
    ensures |r| <= |ring| - i
    ensures (|r| == |ring| - i) <==> forall k :: i <= k < |ring| ==> ring[k].Some?
    ensures |r| < |ring| - i ==> ring[i + |r|].None?
    ensures forall k :: i <= k < i + |r| ==> ring[k].Some?
    ensures forall j :: 0 <= j < |r| ==> r[j].a == ring[i + j].value && r[j].b == first
    ensures forall j :: 0 < j < |r| ==> r[j].c == ring[i + j - 1].value
    ensures |r| > 0 ==> r[0].c == prev
    decreases |ring| - i
  {
    if i == |ring| then []
    else match ring[i]
      case None => []
      case Some(p) => [Triangle(p, first, prev)] + FanFrom(ring, i + 1, first, p)
  }

  /** `triangulate`: the fan of triangles (P_i, P_0, P_(i-1)) over the ring
      points P_k, cut short at the first pair of lines that do not meet. */
  function Triangulate(lines: seq<Line>): (r: seq<Triangle>)
    ensures |lines| <= 2 ==> r == []
    ensures r == [] || |r| <= |lines| - 2
    ensures |lines| >= 3 ==>
      (|r| == |lines| - 2 <==> forall k :: 0 <= k < |lines| ==> RingPoints(lines)[k].Some?)
    ensures |lines| >= 3 && |r| < |lines| - 2 ==>
      RingPoints(lines)[0].None? || RingPoints(lines)[1].None? || RingPoints(lines)[|r| + 2].None?
    ensures forall j :: 0 <= j < |r| ==>
      var ring := RingPoints(lines);
      && ring[0].Some? && ring[j + 1].Some? && ring[j + 2].Some?
      && r[j] == Triangle(ring[j + 2].value, ring[0].value, ring[j + 1].value)
  {
    if |lines| <= 2 then []
    else
      var ring := RingPoints(lines);
      match ring[0]
      case None => []
      case Some(firstPoint) =>
        match ring[1]
        case None => []
        case Some(secondPoint) =>
          var r := FanFrom(ring, 2, firstPoint, secondPoint);
          FanCoversRing(ring, r, firstPoint, secondPoint);
          r
  }

  /** A fan started from two present ring points covers the whole ring
      exactly when every ring point is present, and its triangles are
      `(P_(j+2), P_0, P_(j+1))`. */
  lemma FanCoversRing(ring: seq<Option<Vec2>>, r: seq<Triangle>, firstPoint: Vec2, secondPoint: Vec2)
    requires |ring| >= 3 && ring[0] == Some(firstPoint) && ring[1] == Some(secondPoint)
    requires r == FanFrom(ring, 2, firstPoint, secondPoint)
    ensures |r| == |ring| - 2 <==> forall k :: 0 <= k < |ring| ==> ring[k].Some?
    ensures |r| < |ring| - 2 ==> ring[|r| + 2].None?
    ensures forall j :: 0 <= j < |r| ==>
      && ring[0].Some? && ring[j + 1].Some? && ring[j + 2].Some?
      && r[j] == Triangle(ring[j + 2].value, ring[0].value, ring[j + 1].value)
  {
    forall j | 0 <= j < |r|
      ensures ring[j + 1].Some? && r[j] == Triangle(ring[j + 2].value, ring[0].value, ring[j + 1].value)
    {
      if j > 0 { assert ring[2 + j - 1] == ring[j + 1]; }
    }
  }

  // ---------------------------------------------------------------------
  // The lost index, on a concrete square

  /** The unit square around the origin, sorted by pseudo-angle: left (2),
      bottom (3), right (4), top (5). */
  function Square(): seq<Line> {
    [Line(Vec2(-1.0, 0.0), 1.0), Line(Vec2(0.0, -1.0), 1.0),
     Line(Vec2(1.0, 0.0), 1.0), Line(Vec2(0.0, 1.0), 1.0)]
  }

  /** The pseudo-angles of the four axis directions. */
  lemma AxisAngles()
    ensures PseudoAngle(Vec2(-1.0, 0.0)) == 2.0
    ensures PseudoAngle(Vec2(0.0, -1.0)) == 3.0
    ensures PseudoAngle(Vec2(1.0, 0.0)) == 4.0
    ensures PseudoAngle(Vec2(0.0, 1.0)) == 5.0
  {
  }

  /** A line facing away from its predecessor is never pruned. */
  lemma NotRedundantWhenPrevOpposes(lines: seq<Line>, i: int)
    requires 0 <= i < |lines|
    requires Dot(lines[i].normal, lines[PrevIndex(|lines|, i)].normal) <= 0.0
    ensures !Redundant(lines, i)
  {
  }

  /** Lines at least EPSILON apart in pseudo-angle do not share a normal. */
  lemma ApartAngles(a: Line, b: Line)
    requires Angle(a) + EPSILON <= Angle(b) || Angle(b) + EPSILON <= Angle(a)
    ensures !SameNormalAs(a, b)
  {
  }

  /** The square with its right edge at `right` is in pseudo-angle order. */
  lemma SquareAngles(right: Line)
    requires right.normal == Vec2(1.0, 0.0)
    ensures var sq := Square()[2 := right];
      && Angle(sq[0]) == 2.0 && Angle(sq[1]) == 3.0 && Angle(sq[2]) == 4.0 && Angle(sq[3]) == 5.0
      && Separated(sq)
  {
    AxisAngles();
  }

  /** No two neighbours in that square share a normal. */
  lemma SquareUntouched(right: Line)
    requires right.normal == Vec2(1.0, 0.0)
    ensures var sq := Square()[2 := right];
      forall j :: 0 <= j < 4 ==> !SameNormalAs(sq[j], sq[NextIndex(4, j)])
  {
    var sq := Square()[2 := right];
    SquareAngles(right);
    ApartAngles(sq[0], sq[1]);
    ApartAngles(sq[1], sq[2]);
    ApartAngles(sq[2], sq[3]);
    ApartAngles(sq[3], sq[0]);
  }

  /** The square with the tighter right edge in front: its angles are
      4, 2, 3, 4, 5, and no step of `removeExcessLines` touches it. */
  lemma InsertedFrontAngles(line: Line)
    requires line == Line(Vec2(1.0, 0.0), 0.5)
    ensures var ins := [line] + Square();
      && Angle(ins[0]) == 4.0 && Angle(ins[1]) == 2.0
      && forall j :: 0 <= j < 5 ==> !SameNormalAs(ins[j], ins[NextIndex(5, j)])
  {
    var ins := [line] + Square();
    AxisAngles();
    assert Angle(ins[0]) == 4.0 && Angle(ins[1]) == 2.0 && Angle(ins[2]) == 3.0 && Angle(ins[3]) == 4.0 && Angle(ins[4]) == 5.0;
    ApartAngles(ins[0], ins[1]);
    ApartAngles(ins[1], ins[2]);
    ApartAngles(ins[2], ins[3]);
    ApartAngles(ins[3], ins[4]);
    ApartAngles(ins[4], ins[0]);
  }

  /** Consecutive axis-aligned normals that turn by a right angle or more
      never have a positive dot product. */
  lemma AxisNeighboursOppose(lines: seq<Line>)
    requires forall j :: 0 <= j < |lines| ==> lines[j].normal in {Vec2(-1.0, 0.0), Vec2(0.0, -1.0), Vec2(1.0, 0.0), Vec2(0.0, 1.0)}
    requires forall j :: 0 <= j < |lines| ==> lines[j].normal != lines[PrevIndex(|lines|, j)].normal
    ensures forall j :: 0 <= j < |lines| ==> Dot(lines[j].normal, lines[PrevIndex(|lines|, j)].normal) <= 0.0
  {
  }

  /** The scan for a right-pointing line stops at the square's right edge. */
  lemma ScanStopsAtRightEdge()
    ensures ScanLines(Square(), 4.0) == SameNormalAt(2)
  {
    var sq := Square();
    SquareAngles(sq[2]);
    assert sq[2 := sq[2]] == sq;
    assert ScanFrom(sq, 4.0, 2, -1) == SameNormalAt(2);
    assert ScanFrom(sq, 4.0, 1, -1) == ScanFrom(sq, 4.0, 2, -1);
  }

  /** The tighter right edge, the line both versions of `addLine` are
      given in the example. */
  function TightRight(): Line {
    Line(Vec2(1.0, 0.0), 0.5)
  }

  /** `removeExcessLines` leaves the square, whatever its right edge,
      unchanged. */
  lemma SquareSurvivesRemoval(right: Line)
    requires right.normal == Vec2(1.0, 0.0)
    ensures RemoveExcessLines(Square()[2 := right]) == Square()[2 := right]
  {
    var sq := Square()[2 := right];
    SquareUntouched(right);
    MergeKeepsApartLines(sq, 0);
    AxisNeighboursOppose(sq);
    PruneKeepsOpposedLines(sq, 0);
  }

  /** ... and leaves the square with the tighter right edge in front
      unchanged too. */
  lemma FrontInsertSurvivesRemoval()
    ensures RemoveExcessLines([TightRight()] + Square()) == [TightRight()] + Square()
  {
    var ins := [TightRight()] + Square();
    InsertedFrontAngles(TightRight());
    MergeKeepsApartLines(ins, 0);
    AxisNeighboursOppose(ins);
    PruneKeepsOpposedLines(ins, 0);
  }

  /** The scan stops at the right edge without writing an index, and the
      tighter line is not rejected. */
  lemma TightRightNotRejected()
    ensures IsWholePolygonBehindLine(Square(), TightRight()) == BehindResult(false, None)
  {
    AxisAngles();
    ScanStopsAtRightEdge();
  }

  /** Tightening the right edge of the square with `addLine` as written puts
      the new line first, ahead of the lines with smaller angles. */
  lemma AddLineLosesOrder()
    ensures Separated(Square())
    ensures AddLine(Square(), TightRight()) == [TightRight()] + Square()
    ensures !Sorted(AddLine(Square(), TightRight()))
  {
    var sq := Square();
    SquareAngles(sq[2]);
    assert sq[2 := sq[2]] == sq;
    AddLineOnSquare();
    FrontInsertUnsorted();
  }

  /** `addLine` as written inserts the tighter right edge at the front. */
  lemma AddLineOnSquare()
    ensures AddLine(Square(), TightRight()) == [TightRight()] + Square()
  {
    TightRightNotRejected();
    assert Insert(Square(), 0, TightRight()) == [TightRight()] + Square();
    FrontInsertSurvivesRemoval();
  }

  /** The square with the tighter right edge in front is out of order. */
  lemma FrontInsertUnsorted()
    ensures !Sorted([TightRight()] + Square())
  {
    InsertedFrontAngles(TightRight());
  }

  /** The corrected `addLine` on the same input replaces the right edge. */
  lemma AddLineFixedTightens()
    ensures AddLineFixed(Square(), TightRight()) == Square()[2 := TightRight()]
  {
    TightRightNotRejected();
    ScanStopsAtRightEdge();
    SquareSurvivesRemoval(TightRight());
  }
}
