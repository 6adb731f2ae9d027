/** What the ray test of `point_in_polygon` decides, in terms of sides of lines. */
module Polygons {
  import opened Geometry
  import opened Zones

  /** An edge is met exactly when it passes the height of p with p strictly on its left going up, on its
      right going down; the lower end counts, the upper one does not. */
  lemma RayMeetsExact(p: Point, a: Point, b: Point)
    ensures RayMeets(p, a, b) <==>
      || (a.y <= p.y < b.y && Cross(a, b, p) > 0.0)
      || (b.y <= p.y < a.y && Cross(a, b, p) < 0.0)
  {
    if (a.y > p.y) != (b.y > p.y) {
      var dy := b.y - a.y;
      var x := (b.x - a.x) * (p.y - a.y) / dy;
      assert x * dy == (b.x - a.x) * (p.y - a.y);
      assert Cross(a, b, p) == x * dy - (p.x - a.x) * dy == (x + a.x - p.x) * dy;
      SignOfProduct(x + a.x - p.x, dy);
    }
  }

  lemma SignOfProduct(u: real, v: real)
    requires v != 0.0
    ensures v > 0.0 ==> (u * v > 0.0 <==> u > 0.0)
    ensures v < 0.0 ==> (u * v < 0.0 <==> u > 0.0)
  {
  }

  lemma {:induction false} ParityCons(p: Point, from: Point, a: Point, rest: seq<Point>)
    ensures Parity(p, from, [a] + rest) == (RayMeets(p, from, a) != Parity(p, a, rest))
  {
    assert ([a] + rest)[1..] == rest;
  }

  lemma {:induction false} TriangleEdges(p: Point, a: Point, b: Point, c: Point)
    ensures Parity(p, c, [a, b, c]) == (RayMeets(p, c, a) != (RayMeets(p, a, b) != RayMeets(p, b, c)))
    ensures PointInPolygon(p, [a, b, c]) == Parity(p, c, [a, b, c])
  {
    hide RayMeets;
    assert [a, b, c] == [a] + [b, c] && [b, c] == [b] + [c] && [c] == [c] + [];
    ParityCons(p, c, a, [b, c]);
    ParityCons(p, a, b, [c]);
    ParityCons(p, b, c, []);
  }

  /** A polygon may be cut along any diagonal: a point is inside exactly if it is inside one of the two
      parts and not the other. */
  lemma CutAlongDiagonal(p: Point, a: seq<Point>, b: seq<Point>)
    requires |a| >= 2 && |b| >= 2
    ensures PointInPolygon(p, a + b) == (PointInPolygon(p, a + [b[0]]) != PointInPolygon(p, b + [a[0]]))
  {
    var lastA, lastB := a[|a| - 1], b[|b| - 1];
    ParityConcat(p, lastB, a, b);
    ParityConcat(p, b[0], a, [b[0]]);
    ParityConcat(p, a[0], b, [a[0]]);
    RayMeetsSymmetric(p, a[0], b[0]);
    assert [b[0]][1..] == [] && [a[0]][1..] == [];
  }

  /** The test of an upright rectangle: the left and lower sides belong to it, the others do not. */
  lemma RectangleExact(p: Point, x1: real, y1: real, x2: real, y2: real)
    requires x1 < x2 && y1 < y2
    ensures PointInPolygon(p, [Point(x1, y1), Point(x2, y1), Point(x2, y2), Point(x1, y2)]) <==>
      x1 <= p.x < x2 && y1 <= p.y < y2
  {
    var a, b, c, d := Point(x1, y1), Point(x2, y1), Point(x2, y2), Point(x1, y2);
    assert [a, b, c, d] == [a, b] + [c, d] && [a, b] + [c] == [a, b, c] && [c, d] + [a] == [c, d, a];
    CutAlongDiagonal(p, [a, b], [c, d]);
    TriangleEdges(p, a, b, c);
    TriangleEdges(p, c, d, a);
    hide PointInPolygon, Parity;
    RayMeetsSymmetric(p, a, c);
  }

  // ----- triangles -----

  /** p lies strictly on the left of the line a-b. */
  predicate LeftOf(p: Point, a: Point, b: Point) { Cross(a, b, p) > 0.0 }

  /** The three sides weigh the corners into p. */
  lemma Weights(p: Point, a: Point, b: Point, c: Point)
    ensures Cross(b, c, p) + Cross(c, a, p) + Cross(a, b, p) == Cross(a, b, c)
    ensures Cross(b, c, p) * (a.y - p.y) + Cross(c, a, p) * (b.y - p.y) + Cross(a, b, p) * (c.y - p.y) == 0.0
  {
  }

  lemma SumOfSigns(u: real, v: real, w: real, x: real, y: real, z: real)
    requires u * x + v * y + w * z == 0.0 && u + v + w > 0.0 && u != 0.0 && v != 0.0 && w != 0.0
    ensures x > 0.0 && y > 0.0 && z > 0.0 ==> !(u > 0.0 && v > 0.0 && w > 0.0)
    ensures x > 0.0 && y <= 0.0 && z <= 0.0 && v > 0.0 && w > 0.0 ==> u > 0.0
    ensures x > 0.0 && y <= 0.0 && z <= 0.0 && w < 0.0 ==> v > 0.0
    ensures x > 0.0 && y <= 0.0 && z <= 0.0 && v < 0.0 ==> w > 0.0
    ensures x <= 0.0 && y > 0.0 && z > 0.0 && v > 0.0 && w > 0.0 ==> u > 0.0
    ensures x <= 0.0 && y > 0.0 && z > 0.0 && w < 0.0 ==> v > 0.0
    ensures x <= 0.0 && y > 0.0 && z > 0.0 && v < 0.0 ==> w > 0.0
  {
  }

  /** p lies on none of the three side lines of a triangle drawn counterclockwise. */
  ghost predicate OffSides(p: Point, a: Point, b: Point, c: Point) {
    Cross(a, b, c) > 0.0 && Cross(a, b, p) != 0.0 && Cross(b, c, p) != 0.0 && Cross(c, a, p) != 0.0
  }

  predicate Inside(p: Point, a: Point, b: Point, c: Point) { LeftOf(p, a, b) && LeftOf(p, b, c) && LeftOf(p, c, a) }

  predicate Above(a: Point, p: Point) { a.y > p.y }

  /** One corner on its own side of the ray's height. */
  lemma OneApart(p: Point, a: Point, b: Point, c: Point)
    requires OffSides(p, a, b, c) && Above(a, p) != Above(b, p) && Above(b, p) == Above(c, p)
    ensures PointInPolygon(p, [a, b, c]) == Inside(p, a, b, c)
  {
    TriangleEdges(p, a, b, c);
    RayMeetsExact(p, a, b);
    RayMeetsExact(p, b, c);
    RayMeetsExact(p, c, a);
    Weights(p, a, b, c);
    hide PointInPolygon, Parity, RayMeets;
    SumOfSigns(Cross(b, c, p), Cross(c, a, p), Cross(a, b, p), a.y - p.y, b.y - p.y, c.y - p.y);
    hide Cross;
  }

  /** All corners on one side: no edge is met, and p is outside. */
  lemma AllTogether(p: Point, a: Point, b: Point, c: Point)
    requires OffSides(p, a, b, c) && Above(a, p) == Above(b, p) == Above(c, p)
    ensures !PointInPolygon(p, [a, b, c]) && !Inside(p, a, b, c)
  {
    assert !PointInPolygon(p, [a, b, c]) by { TriangleEdges(p, a, b, c); }
    hide PointInPolygon;
    if Inside(p, a, b, c) {
      Weights(p, a, b, c);
      Heavy(Cross(b, c, p), Cross(c, a, p), Cross(a, b, p), a.y - p.y, b.y - p.y, c.y - p.y);
      Flat(a, b, c);
    }
  }

  lemma Flat(a: Point, b: Point, c: Point)
    ensures a.y == b.y == c.y ==> Cross(a, b, c) == 0.0
  {
  }

  /** Positive weights balance only heights of both signs, or none. */
  lemma Heavy(u: real, v: real, w: real, x: real, y: real, z: real)
    requires u > 0.0 && v > 0.0 && w > 0.0 && u * x + v * y + w * z == 0.0
    ensures !(x > 0.0 && y > 0.0 && z > 0.0)
    ensures x <= 0.0 && y <= 0.0 && z <= 0.0 ==> x == y == z == 0.0
  {
  }

  /** Main result for triangles: off the side lines the ray test holds exactly inside, that is on the left of
      all three sides. */
  lemma TriangleExact(p: Point, a: Point, b: Point, c: Point)
    requires OffSides(p, a, b, c)
    ensures PointInPolygon(p, [a, b, c]) == Inside(p, a, b, c)
  {
    if Above(a, p) == Above(b, p) == Above(c, p) {
      AllTogether(p, a, b, c);
    } else if Above(b, p) == Above(c, p) {
      OneApart(p, a, b, c);
    } else if Above(c, p) == Above(a, p) {
      OneApart(p, b, c, a);
      Turned(p, a, b, c);
    } else {
      OneApart(p, c, a, b);
      Turned(p, c, a, b);
    }
  }

  lemma Turned(p: Point, a: Point, b: Point, c: Point)
    ensures PointInPolygon(p, [b, c, a]) == PointInPolygon(p, [a, b, c])
    ensures Cross(b, c, a) == Cross(a, b, c)
  {
    assert [a, b, c][1..] + [a, b, c][..1] == [b, c, a];
    PolygonRotation(p, [a, b, c], 1);
  }
}
