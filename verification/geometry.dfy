/** Vectors, the pseudo-angle ordering key and oriented lines (src/math/Line.hpp,
    src/math/Line.cpp). Floats are idealised as `real`; `glm::normalize` is not
    modelled, so a line carries whatever non-zero normal its builder supplies. */
module Geometry {
  import opened Wrappers

  datatype Vec2 = Vec2(x: real, y: real)

  function Add(a: Vec2, b: Vec2): Vec2 { Vec2(a.x + b.x, a.y + b.y) }
  function Sub(a: Vec2, b: Vec2): Vec2 { Vec2(a.x - b.x, a.y - b.y) }
  function Neg(a: Vec2): Vec2 { Vec2(-a.x, -a.y) }
  function Scale(a: Vec2, k: real): Vec2 { Vec2(a.x * k, a.y * k) }
  function Dot(a: Vec2, b: Vec2): real { a.x * b.x + a.y * b.y }
  function Cross(a: Vec2, b: Vec2): real { a.x * b.y - b.x * a.y }
  function NormSq(a: Vec2): real { a.x * a.x + a.y * a.y }
  function Abs(r: real): real { if r < 0.0 then -r else r }

  /** A direction: any vector other than the zero vector. */
  type Normal = v: Vec2 | v.x != 0.0 || v.y != 0.0 witness Vec2(1.0, 0.0)

  /** The tolerance under which two pseudo-angles count as the same normal. */
  const EPSILON: real := 0.00001

  /** Orders directions without trigonometry: directions pointing left map
      into (1, 3), the others into [3, 5]. */
  function PseudoAngle(v: Normal): (a: real)
    ensures v.x < 0.0 ==> 1.0 < a < 3.0
    ensures v.x >= 0.0 ==> 3.0 <= a <= 5.0
  {
    var den := Abs(v.x) + Abs(v.y);
    var r := v.y / den;
    RatioBounded(v.y, den);
    if v.x < 0.0 then
      assert Abs(v.y) < den;
      StrictRatioBounded(v.y, den);
      2.0 - r
    else 4.0 + r
  }

  lemma RatioBounded(y: real, den: real)
    requires den > 0.0 && Abs(y) <= den
    ensures -1.0 <= y / den <= 1.0
  {
    var r := y / den;
    assert r * den == y;
  }

  lemma StrictRatioBounded(y: real, den: real)
    requires den > 0.0 && Abs(y) < den
    ensures -1.0 < y / den < 1.0
  {
    assert -den < y < den;
    var r := y / den;
    assert r * den == y;
    PositiveFactor(1.0 - r, den);
    PositiveFactor(1.0 + r, den);
  }

  lemma PositiveFactor(u: real, d: real)
    requires d > 0.0 && u * d > 0.0
    ensures u > 0.0
  {
    assert u == (u * d) / d;
  }

  /** An oriented line: the points p with `Dot(p, normal) == distance`. Its
      front is the side the normal points to. */
  datatype Line = Line(normal: Normal, distance: real)

  /** `Line(float distance, vec2 normal)`: the line of the points whose
      projection on `normal` is `distance`; rebuilding it through any of
      its points with the same normal gives it back. */
  function LineFromDistance(distance: real, normal: Normal): (l: Line)
    ensures l.normal == normal && l.distance == distance
    ensures forall p :: OnLine(l, p) ==> LineThrough(p, normal) == l
  {
    Line(normal, distance)
  }

  /** The two constructors agree: the line through `p` is the line at
      `p`'s projection on the normal. */
  lemma LineThroughIsFromDistance(p: Vec2, n: Normal)
    ensures LineFromDistance(Dot(p, n), n) == LineThrough(p, n)
    ensures OnLine(LineFromDistance(Dot(p, n), n), p)
  {
  }

  /** `Line(vec2 point, vec2 normal)`: the line through `point`. */
  function LineThrough(point: Vec2, normal: Normal): (l: Line)
    ensures l.normal == normal
    ensures OnLine(l, point)
  {
    Line(normal, Dot(point, normal))
  }

  ghost predicate OnLine(l: Line, p: Vec2) {
    Dot(p, l.normal) == l.distance
  }

  predicate IsPointInFront(l: Line, p: Vec2) {
    Dot(p, l.normal) > l.distance
  }

  /** The negation of `IsPointInFront`; points on the line count as behind. */
  predicate IsPointBehind(l: Line, p: Vec2)
    ensures IsPointBehind(l, p) <==> Dot(p, l.normal) <= l.distance
    ensures IsPointBehind(l, p) <==> !IsPointInFront(l, p)
  {
    !IsPointInFront(l, p)
  }

  function Angle(l: Line): real {
    PseudoAngle(l.normal)
  }

  function FirstPoint(l: Line): Vec2 {
    Scale(l.normal, l.distance)
  }

  function SecondPoint(l: Line): Vec2 {
    Add(Vec2(l.normal.y, -l.normal.x), FirstPoint(l))
  }

  /** With a unit normal both defining points lie on the line, and they are
      distinct. */
  lemma DefiningPointsOnLine(l: Line)
    requires NormSq(l.normal) == 1.0
    ensures OnLine(l, FirstPoint(l)) && OnLine(l, SecondPoint(l))
    ensures FirstPoint(l) != SecondPoint(l)
  {
    var n, d := l.normal, l.distance;
    assert Dot(FirstPoint(l), n) == d * NormSq(n);
    assert Dot(SecondPoint(l), n) == n.y * n.x - n.x * n.y + d * NormSq(n);
  }

  predicate SameNormalAs(a: Line, b: Line) {
    Abs(Angle(a) - Angle(b)) < EPSILON
  }

  lemma SameNormalReflexiveSymmetric(a: Line, b: Line)
    ensures SameNormalAs(a, a)
    ensures SameNormalAs(a, b) <==> SameNormalAs(b, a)
  {
  }

  /** The line equation a x + b y == c. */
  datatype Equation = Equation(a: real, b: real, c: real)

  ghost predicate Satisfies(e: Equation, v: Vec2) {
    e.a * v.x + e.b * v.y == e.c
  }

  /** The equation of the line through p and q, as `doIntersect` builds it. */
  function EquationThrough(p: Vec2, q: Vec2): (e: Equation)
    ensures Satisfies(e, p) && Satisfies(e, q)
    ensures forall v :: Satisfies(e, v) <==> Cross(Sub(q, p), Sub(v, p)) == 0.0
  {
    var a := q.y - p.y;
    var b := p.x - q.x;
    Equation(a, b, a * p.x + b * p.y)
  }

  function Determinant(e1: Equation, e2: Equation): real {
    e1.a * e2.b - e2.a * e1.b
  }

  /** The solution of two line equations by Cramer's rule; none when the
      determinant is zero. */
  function Solve(e1: Equation, e2: Equation): (r: Option<Vec2>)
    ensures r.None? <==> Determinant(e1, e2) == 0.0
  {
    var det := Determinant(e1, e2);
    if det != 0.0 then
      Some(Vec2((e1.c * e2.b - e2.c * e1.b) / det, (e1.a * e2.c - e2.a * e1.c) / det))
    else None
  }

  /** A solution satisfies both equations. */
  lemma SolveSatisfiesBoth(e1: Equation, e2: Equation)
    ensures Solve(e1, e2).Some? ==> Satisfies(e1, Solve(e1, e2).value) && Satisfies(e2, Solve(e1, e2).value)
  {
    if Determinant(e1, e2) != 0.0 {
      Cramer(e1.a, e1.b, e1.c, e2.a, e2.b, e2.c);
    }
  }

  /** With a non-zero determinant two line equations have at most one
      common solution. */
  lemma UniqueSolution(e1: Equation, e2: Equation, p: Vec2, q: Vec2)
    requires Determinant(e1, e2) != 0.0
    requires Satisfies(e1, p) && Satisfies(e2, p) && Satisfies(e1, q) && Satisfies(e2, q)
    ensures p == q
  {
    var dx, dy := p.x - q.x, p.y - q.y;
    assert e1.a * dx + e1.b * dy == 0.0;
    assert e2.a * dx + e2.b * dy == 0.0;
    assert Determinant(e1, e2) * dx == e2.b * (e1.a * dx + e1.b * dy) - e1.b * (e2.a * dx + e2.b * dy);
    assert Determinant(e1, e2) * dy == e1.a * (e2.a * dx + e2.b * dy) - e2.a * (e1.a * dx + e1.b * dy);
    ZeroProduct(Determinant(e1, e2), dx);
    ZeroProduct(Determinant(e1, e2), dy);
  }

  lemma ZeroProduct(k: real, u: real)
    requires k != 0.0 && k * u == 0.0
    ensures u == 0.0
  {
  }

  /** Swapping the two equations does not change the solution. */
  lemma SolveSymmetric(e1: Equation, e2: Equation)
    ensures Solve(e1, e2) == Solve(e2, e1)
  {
    assert Determinant(e2, e1) == -Determinant(e1, e2);
    SolveSatisfiesBoth(e1, e2);
    SolveSatisfiesBoth(e2, e1);
    if Determinant(e1, e2) != 0.0 {
      UniqueSolution(e1, e2, Solve(e1, e2).value, Solve(e2, e1).value);
    }
  }

  /** `doIntersect`: the intersection of the line through p1, q1 with the
      line through p2, q2. */
  function DoIntersect(p1: Vec2, q1: Vec2, p2: Vec2, q2: Vec2): (r: Option<Vec2>)
    ensures r.None? <==> Cross(Sub(q1, p1), Sub(q2, p2)) == 0.0
    ensures r.Some? ==>
      && Cross(Sub(q1, p1), Sub(r.value, p1)) == 0.0
      && Cross(Sub(q2, p2), Sub(r.value, p2)) == 0.0
  {
    var e1, e2 := EquationThrough(p1, q1), EquationThrough(p2, q2);
    assert Determinant(e1, e2) == Cross(Sub(q1, p1), Sub(q2, p2));
    SolveSatisfiesBoth(e1, e2);
    Solve(e1, e2)
  }

  /** `doIntersect` does not depend on the order of the two lines. */
  lemma DoIntersectSymmetric(p1: Vec2, q1: Vec2, p2: Vec2, q2: Vec2)
    ensures DoIntersect(p1, q1, p2, q2) == DoIntersect(p2, q2, p1, q1)
  {
    SolveSymmetric(EquationThrough(p1, q1), EquationThrough(p2, q2));
  }

  /** Cramer's rule for a 2x2 system solves both of its equations. */
  lemma Cramer(a1: real, b1: real, c1: real, a2: real, b2: real, c2: real)
    requires a1 * b2 - a2 * b1 != 0.0
    ensures var det := a1 * b2 - a2 * b1;
      var x := (c1 * b2 - c2 * b1) / det;
      var y := (a1 * c2 - a2 * c1) / det;
      a1 * x + b1 * y == c1 && a2 * x + b2 * y == c2
  {
    var det := a1 * b2 - a2 * b1;
    var x := (c1 * b2 - c2 * b1) / det;
    var y := (a1 * c2 - a2 * c1) / det;
    assert x * det == c1 * b2 - c2 * b1;
    assert y * det == a1 * c2 - a2 * c1;
    assert (a1 * x + b1 * y) * det == c1 * det by {
      calc {
        (a1 * x + b1 * y) * det;
        a1 * (x * det) + b1 * (y * det);
        a1 * (c1 * b2 - c2 * b1) + b1 * (a1 * c2 - a2 * c1);
        c1 * det;
      }
    }
    assert (a2 * x + b2 * y) * det == c2 * det by {
      calc {
        (a2 * x + b2 * y) * det;
        a2 * (x * det) + b2 * (y * det);
        a2 * (c1 * b2 - c2 * b1) + b2 * (a1 * c2 - a2 * c1);
        c2 * det;
      }
    }
    CancelFactor(a1 * x + b1 * y, c1, det);
    CancelFactor(a2 * x + b2 * y, c2, det);
  }

  lemma CancelFactor(u: real, v: real, k: real)
    requires k != 0.0 && u * k == v * k
    ensures u == v
  {
    assert (u - v) * k == 0.0;
  }

  /** `Line::intersectionWith`. */
  function IntersectionWith(a: Line, b: Line): Option<Vec2> {
    DoIntersect(FirstPoint(a), SecondPoint(a), FirstPoint(b), SecondPoint(b))
  }

  /** The intersection exists exactly when the normals are not parallel, and
      a returned point satisfies both line equations (scaled by the squared
      length of each normal, which is 1 for the unit normals the renderer
      builds). */
  lemma IntersectionSolvesBoth(a: Line, b: Line)
    ensures IntersectionWith(a, b).None? <==> Cross(a.normal, b.normal) == 0.0
    ensures IntersectionWith(a, b).Some? ==>
      var p := IntersectionWith(a, b).value;
      && Dot(p, a.normal) == a.distance * NormSq(a.normal)
      && Dot(p, b.normal) == b.distance * NormSq(b.normal)
  {
    var da := Vec2(a.normal.y, -a.normal.x);
    var db := Vec2(b.normal.y, -b.normal.x);
    assert Sub(SecondPoint(a), FirstPoint(a)) == da;
    assert Sub(SecondPoint(b), FirstPoint(b)) == db;
    assert Cross(da, db) == Cross(a.normal, b.normal);
    var r := IntersectionWith(a, b);
    if r.Some? {
      var p := r.value;
      OnDirectionLine(a, p);
      OnDirectionLine(b, p);
    }
  }

  /** A point on the line through `FirstPoint(l)` along `SecondPoint(l)`
      satisfies the scaled line equation. */
  lemma OnDirectionLine(l: Line, p: Vec2)
    requires Cross(Sub(SecondPoint(l), FirstPoint(l)), Sub(p, FirstPoint(l))) == 0.0
    ensures Dot(p, l.normal) == l.distance * NormSq(l.normal)
  {
    var n, f := l.normal, FirstPoint(l);
    assert Sub(SecondPoint(l), f) == Vec2(n.y, -n.x);
    assert Cross(Vec2(n.y, -n.x), Sub(p, f)) == -(Dot(p, n) - Dot(f, n));
    assert Dot(f, n) == l.distance * NormSq(n);
  }

  /** Intersection does not depend on the order of the two lines. */
  lemma IntersectionSymmetric(a: Line, b: Line)
    ensures IntersectionWith(a, b) == IntersectionWith(b, a)
  {
    DoIntersectSymmetric(FirstPoint(a), SecondPoint(a), FirstPoint(b), SecondPoint(b));
  }

  /** Lines whose normals are parallel (same or opposite direction) never
      intersect. */
  lemma ParallelLinesDoNotIntersect(a: Line, b: Line, k: real)
    requires b.normal == Scale(a.normal, k)
    ensures IntersectionWith(a, b).None?
  {
    IntersectionSolvesBoth(a, b);
    CrossScaled(a.normal, k);
  }

  /** A vector is parallel to any multiple of itself. */
  lemma CrossScaled(v: Vec2, k: real)
    ensures Cross(v, Scale(v, k)) == 0.0
  {
    assert v.x * (v.y * k) == (v.x * k) * v.y;
  }
}
