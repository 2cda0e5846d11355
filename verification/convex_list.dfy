/** `ConvexList` (src/math/ConvexList.hpp, .cpp): the convex pieces of one
    sprite mesh, triangulated one after another. */
module ConvexLists {
  import opened Geometry
  import opened ConvexPolygons

  datatype ConvexList = ConvexList(polygons: seq<ConvexPolygon>)

  /** The empty list a parse starts from. */
  function Empty(): (l: ConvexList)
    ensures |l.polygons| == 0
  {
    ConvexList([])
  }

  /** `addPolygon`: appends, leaving the polygons already there in place. */
  function AddPolygon(l: ConvexList, p: ConvexPolygon): (r: ConvexList)
    ensures |r.polygons| == |l.polygons| + 1
    ensures r.polygons[..|l.polygons|] == l.polygons
    ensures r.polygons[|l.polygons|] == p
  {
    ConvexList(l.polygons + [p])
  }

  /** The triangles of a sequence of polygons, each polygon's in turn. */
  function TriangulateAll(ps: seq<ConvexPolygon>): (r: seq<Triangle>)
    ensures |ps| == 0 ==> r == []
    ensures |r| <= LineCount(ps)
  {
    if |ps| == 0 then []
    else Triangulate(ps[0]) + TriangulateAll(ps[1..])
  }

  /** The total number of lines in a sequence of polygons. */
  function LineCount(ps: seq<ConvexPolygon>): nat {
    if |ps| == 0 then 0 else |ps[0]| + LineCount(ps[1..])
  }

  /** `ConvexList::triangulate`. */
  function TriangulateList(l: ConvexList): seq<Triangle> {
    TriangulateAll(l.polygons)
  }

  /** Triangulating two runs of polygons is triangulating each in turn. */
  lemma {:induction false} TriangulateAllSplits(a: seq<ConvexPolygon>, b: seq<ConvexPolygon>)
    ensures TriangulateAll(a + b) == TriangulateAll(a) + TriangulateAll(b)
    decreases |a|
  {
    if |a| == 0 {
      assert a + b == b;
    } else {
      assert (a + b)[1..] == a[1..] + b;
      TriangulateAllSplits(a[1..], b);
    }
  }

  /** After `addPolygon` the list emits its old triangles followed by those
      of the new polygon. */
  lemma TriangulateAfterAdd(l: ConvexList, p: ConvexPolygon)
    ensures TriangulateList(AddPolygon(l, p)) == TriangulateList(l) + Triangulate(p)
  {
    TriangulateAllSplits(l.polygons, [p]);
    assert TriangulateAll([p]) == Triangulate(p) + TriangulateAll([]);
  }

  /** The number of triangles emitted by the list is the sum of the counts
      of its polygons. */
  function TriangleCount(ps: seq<ConvexPolygon>): nat {
    if |ps| == 0 then 0 else |Triangulate(ps[0])| + TriangleCount(ps[1..])
  }

  lemma {:induction false} TriangleCountIsSum(ps: seq<ConvexPolygon>)
    ensures |TriangulateAll(ps)| == TriangleCount(ps)
    decreases |ps|
  {
    if |ps| > 0 {
      TriangleCountIsSum(ps[1..]);
    }
  }
}
