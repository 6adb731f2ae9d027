/** The exact segment test behind line zones: `segments_intersect` decides whether two closed
    segments share a point. Coordinates are `real`; rounding of binary floats is not modelled. */
module Geometry {

  datatype Point = Point(x: real, y: real)

  /** Twice the signed area of the triangle p, q, r. */
  function Cross(p: Point, q: Point, r: Point): real {
    (q.x - p.x) * (r.y - p.y) - (q.y - p.y) * (r.x - p.x)
  }

  function Orientation(p: Point, q: Point, r: Point): int {
    var value := (q.y - p.y) * (r.x - q.x) - (q.x - p.x) * (r.y - q.y);
    if value > 0.0 then 1 else if value < 0.0 then -1 else 0
  }

  function Min(a: real, b: real): real { if b < a then b else a }

  function Max(a: real, b: real): real { if b > a then b else a }

  /** q lies in the bounding box of p and r. */
  predicate OnSegment(p: Point, q: Point, r: Point) {
    Min(p.x, r.x) <= q.x <= Max(p.x, r.x) && Min(p.y, r.y) <= q.y <= Max(p.y, r.y)
  }

  predicate SegmentsIntersect(p1: Point, p2: Point, p3: Point, p4: Point) {
    var o1 := Orientation(p1, p2, p3);
    var o2 := Orientation(p1, p2, p4);
    var o3 := Orientation(p3, p4, p1);
    var o4 := Orientation(p3, p4, p2);
    || (o1 != o2 && o3 != o4)
    || (o1 == 0 && OnSegment(p1, p3, p2))
    || (o2 == 0 && OnSegment(p1, p4, p2))
    || (o3 == 0 && OnSegment(p3, p1, p4))
    || (o4 == 0 && OnSegment(p3, p2, p4))
  }

  /** Signed side of `point` relative to the drawn line l1 -> l2. */
  function CrossingSide(point: Point, l1: Point, l2: Point): real {
    (l2.x - l1.x) * (point.y - l1.y) - (l2.y - l1.y) * (point.x - l1.x)
  }

  // ----- what the test means -----

  function Along(a: real, b: real, s: real): real { a + s * (b - a) }

  /** The point a fraction s of the way from p to q. */
  function At(p: Point, q: Point, s: real): Point {
    Point(Along(p.x, q.x, s), Along(p.y, q.y, s))
  }

  predicate Meets(p1: Point, p2: Point, p3: Point, p4: Point, s: real, t: real) {
    0.0 <= s <= 1.0 && 0.0 <= t <= 1.0 && At(p1, p2, s) == At(p3, p4, t)
  }

  /** The closed segments p1-p2 and p3-p4 have a point in common. */
  ghost predicate SharePoint(p1: Point, p2: Point, p3: Point, p4: Point) {
    exists s: real, t: real :: Meets(p1, p2, p3, p4, s, t)
  }

  lemma OrientationIsCrossSign(p: Point, q: Point, r: Point)
    ensures Orientation(p, q, r) == 1 <==> Cross(p, q, r) < 0.0
    ensures Orientation(p, q, r) == -1 <==> Cross(p, q, r) > 0.0
    ensures Orientation(p, q, r) == 0 <==> Cross(p, q, r) == 0.0
  {
    assert (q.y - p.y) * (r.x - q.x) - (q.x - p.x) * (r.y - q.y) == -Cross(p, q, r);
  }

  /** Which side of a drawn line is which: going a fraction s along the line and t times its length to the left of
      it (the y axis pointing up) gives a side of t times the squared length. */
  lemma SideExact(l1: Point, l2: Point, s: real, t: real)
    ensures var dx, dy := l2.x - l1.x, l2.y - l1.y;
      CrossingSide(Point(l1.x + s * dx - t * dy, l1.y + s * dy + t * dx), l1, l2) == t * (dx * dx + dy * dy)
  {
    var dx, dy := l2.x - l1.x, l2.y - l1.y;
    assert dx * (s * dy + t * dx) - dy * (s * dx - t * dy) == t * (dx * dx + dy * dy);
  }

  lemma ShareSymmetric(p1: Point, p2: Point, p3: Point, p4: Point)
    requires SharePoint(p1, p2, p3, p4)
    ensures SharePoint(p3, p4, p1, p2)
  {
    var s, t :| Meets(p1, p2, p3, p4, s, t);
    assert Meets(p3, p4, p1, p2, t, s);
  }

  lemma AtReversed(p: Point, q: Point, s: real)
    ensures At(q, p, 1.0 - s) == At(p, q, s)
  {
    assert q.x + (1.0 - s) * (p.x - q.x) == p.x + s * (q.x - p.x);
    assert q.y + (1.0 - s) * (p.y - q.y) == p.y + s * (q.y - p.y);
  }

  lemma ShareReversed(p1: Point, p2: Point, p3: Point, p4: Point)
    requires SharePoint(p1, p2, p3, p4)
    ensures SharePoint(p1, p2, p4, p3)
  {
    var s, t :| Meets(p1, p2, p3, p4, s, t);
    AtReversed(p3, p4, t);
    assert Meets(p1, p2, p4, p3, s, 1.0 - t);
  }

  // ----- the test is sound -----

  /** Multiplication keeps or flips an order, by the sign of the factor. */
  lemma Scale(u: real, v: real, c: real)
    requires u <= v
    ensures c >= 0.0 ==> u * c <= v * c
    ensures c <= 0.0 ==> v * c <= u * c
  {
    var gap := v - u;
    assert c >= 0.0 ==> gap * c >= 0.0;
    assert c <= 0.0 ==> gap * c <= 0.0;
    assert gap * c == v * c - u * c;
  }

  lemma Cancel(a: real, b: real, c: real)
    requires c != 0.0 && a * c == b * c
    ensures a == b
  {
    assert (a - b) * c == 0.0;
  }

  lemma Quotient(a: real, b: real)
    requires b != 0.0 && ((0.0 <= a <= b) || (b <= a <= 0.0))
    ensures 0.0 <= a / b <= 1.0 && (a / b) * b == a
  {
    var q := a / b;
    assert q * b == a;
    if !(0.0 <= q) {
      Scale(q, 0.0, b);
      Cancel(q, 0.0, b);
      assert false;
    }
    if !(q <= 1.0) {
      Scale(1.0, q, b);
      Cancel(q, 1.0, b);
      assert false;
    }
  }

  /** A vector parallel to (dx, dy), dx not zero, is a multiple of it. */
  lemma Parallel(dx: real, dy: real, ex: real, ey: real)
    requires dx != 0.0 && dx * ey == dy * ex
    ensures (ex / dx) * dx == ex && (ex / dx) * dy == ey
  {
    var s := ex / dx;
    assert s * dx == ex;
    assert dy * (s * dx) == (s * dy) * dx;
    Cancel(ey, s * dy, dx);
  }

  /** Cramer's rule: the two lines meet where the signed areas say they do. */
  lemma Cramer(p1: Point, p2: Point, p3: Point, p4: Point)
    ensures
      var d1 := Cross(p1, p2, p3);
      var d2 := Cross(p1, p2, p4);
      var d3 := Cross(p3, p4, p1);
      var d4 := Cross(p3, p4, p2);
      var d := d2 - d1;
      && d == d3 - d4
      && Balanced(d, p1.x, p2.x, d3, p3.x, p4.x, -d1)
      && Balanced(d, p1.y, p2.y, d3, p3.y, p4.y, -d1)
  {
  }

  lemma ProperCrossingMeets(p1: Point, p2: Point, p3: Point, p4: Point)
    requires Orientation(p1, p2, p3) != Orientation(p1, p2, p4)
    requires Orientation(p3, p4, p1) != Orientation(p3, p4, p2)
    ensures SharePoint(p1, p2, p3, p4)
  {
    var d1 := Cross(p1, p2, p3);
    var d2 := Cross(p1, p2, p4);
    var d3 := Cross(p3, p4, p1);
    var d4 := Cross(p3, p4, p2);
    OrientationIsCrossSign(p1, p2, p3);
    OrientationIsCrossSign(p1, p2, p4);
    OrientationIsCrossSign(p3, p4, p1);
    OrientationIsCrossSign(p3, p4, p2);
    Cramer(p1, p2, p3, p4);
    MeetAtFractions(p1, p2, p3, p4, d3, -d1, d2 - d1);
  }

  predicate Balanced(d: real, p: real, q: real, a: real, r: real, s: real, b: real) {
    d * p + a * (q - p) == d * r + b * (s - r)
  }

  lemma MeetAtFractions(p1: Point, p2: Point, p3: Point, p4: Point, a: real, b: real, d: real)
    requires d != 0.0
    requires 0.0 <= a <= d || d <= a <= 0.0
    requires 0.0 <= b <= d || d <= b <= 0.0
    requires Balanced(d, p1.x, p2.x, a, p3.x, p4.x, b)
    requires Balanced(d, p1.y, p2.y, a, p3.y, p4.y, b)
    ensures SharePoint(p1, p2, p3, p4)
  {
    Quotient(a, d);
    Quotient(b, d);
    var s, t := a / d, b / d;
    Divide(d, p1.x, p2.x, a, p3.x, p4.x, b);
    Divide(d, p1.y, p2.y, a, p3.y, p4.y, b);
    assert Meets(p1, p2, p3, p4, s, t);
  }

  lemma Divide(d: real, p: real, q: real, a: real, r: real, s: real, b: real)
    requires d != 0.0 && Balanced(d, p, q, a, r, s, b)
    ensures Along(p, q, a / d) == Along(r, s, b / d)
  {
    var u, v := a / d, b / d;
    assert u * d == a && v * d == b;
    assert Along(p, q, u) * d == d * p + (u * d) * (q - p);
    assert Along(r, s, v) * d == d * r + (v * d) * (s - r);
    Cancel(Along(p, q, u), Along(r, s, v), d);
  }

  /** A collinear point is the point at some (unbounded) fraction of a non-degenerate segment. */
  lemma Coordinate(p: Point, q: Point, r: Point) returns (u: real)
    requires p != q && Cross(p, q, r) == 0.0
    ensures At(p, q, u) == r
  {
    if q.x != p.x {
      Parallel(q.x - p.x, q.y - p.y, r.x - p.x, r.y - p.y);
      u := (r.x - p.x) / (q.x - p.x);
    } else {
      Parallel(q.y - p.y, q.x - p.x, r.y - p.y, r.x - p.x);
      u := (r.y - p.y) / (q.y - p.y);
    }
  }

  /** A collinear point in the bounding box of a segment is a point of the segment. */
  lemma OnSegmentMeets(p: Point, q: Point, r: Point) returns (s: real)
    requires Cross(p, r, q) == 0.0 && OnSegment(p, q, r)
    ensures 0.0 <= s <= 1.0 && At(p, r, s) == q
  {
    if r == p {
      s := 0.0;
    } else {
      s := Coordinate(p, r, q);
      if r.x != p.x {
        Quotient(q.x - p.x, r.x - p.x);
        Cancel(s, (q.x - p.x) / (r.x - p.x), r.x - p.x);
      } else {
        Quotient(q.y - p.y, r.y - p.y);
        Cancel(s, (q.y - p.y) / (r.y - p.y), r.y - p.y);
      }
    }
  }

  lemma EndpointMeets(p1: Point, p2: Point, p3: Point, p4: Point)
    requires Orientation(p1, p2, p3) == 0 && OnSegment(p1, p3, p2)
    ensures SharePoint(p1, p2, p3, p4)
  {
    OrientationIsCrossSign(p1, p2, p3);
    var s := OnSegmentMeets(p1, p3, p2);
    assert Meets(p1, p2, p3, p4, s, 0.0);
  }

  // ----- the test is complete -----

  lemma CrossAlong(p: Point, q: Point, a: Point, b: Point, t: real)
    ensures Cross(p, q, At(a, b, t)) == (1.0 - t) * Cross(p, q, a) + t * Cross(p, q, b)
  {
  }

  /** A meeting point puts p3 and p4 weakly on opposite sides of the line p1-p2. */
  lemma MeetingSeparates(p1: Point, p2: Point, p3: Point, p4: Point, s: real, t: real)
    requires Meets(p1, p2, p3, p4, s, t)
    ensures Orientation(p1, p2, p3) == Orientation(p1, p2, p4) ==> Orientation(p1, p2, p3) == 0
  {
    var d1, d2 := Cross(p1, p2, p3), Cross(p1, p2, p4);
    OrientationIsCrossSign(p1, p2, p3);
    OrientationIsCrossSign(p1, p2, p4);
    CrossAlong(p1, p2, p1, p2, s);
    CrossAlong(p1, p2, p3, p4, t);
    assert Cross(p1, p2, p1) == 0.0 && Cross(p1, p2, p2) == 0.0;
    assert (1.0 - t) * d1 + t * d2 == 0.0;
    if d1 > 0.0 && d2 > 0.0 {
      ConvexPositive(d1, d2, t);
    } else if d1 < 0.0 && d2 < 0.0 {
      ConvexPositive(-d1, -d2, t);
    }
  }

  lemma ConvexPositive(a: real, b: real, t: real)
    requires a > 0.0 && b > 0.0 && 0.0 <= t <= 1.0
    ensures (1.0 - t) * a + t * b > 0.0
  {
    if t < 1.0 {
      assert (1.0 - t) * a > 0.0;
      assert t * b >= 0.0;
    }
  }

  lemma AlongMonotone(a: real, b: real, u: real, v: real)
    requires u <= v
    ensures a <= b ==> Along(a, b, u) <= Along(a, b, v)
    ensures b <= a ==> Along(a, b, v) <= Along(a, b, u)
  {
    Scale(u, v, b - a);
  }

  lemma AlongBetween(a: real, b: real, v: real, u: real, w: real)
    requires v <= u <= w || w <= u <= v
    ensures Min(Along(a, b, v), Along(a, b, w)) <= Along(a, b, u) <= Max(Along(a, b, v), Along(a, b, w))
  {
    if v <= u <= w {
      AlongMonotone(a, b, v, u);
      AlongMonotone(a, b, u, w);
    } else {
      AlongMonotone(a, b, w, u);
      AlongMonotone(a, b, u, v);
    }
  }

  lemma BetweenOnSegment(p: Point, q: Point, v: real, u: real, w: real)
    requires v <= u <= w || w <= u <= v
    ensures OnSegment(At(p, q, v), At(p, q, u), At(p, q, w))
  {
    AlongBetween(p.x, q.x, v, u, w);
    AlongBetween(p.y, q.y, v, u, w);
  }

  lemma SameFraction(p: Point, q: Point, s: real, u: real)
    requires p != q && At(p, q, s) == At(p, q, u)
    ensures s == u
  {
    if p.x != q.x {
      Cancel(s, u, q.x - p.x);
    } else {
      Cancel(s, u, q.y - p.y);
    }
  }

  lemma Blend(p: Point, q: Point, a: real, b: real, t: real)
    ensures At(At(p, q, a), At(p, q, b), t) == At(p, q, Along(a, b, t))
  {
    AlongAlong(p.x, q.x, a, b, t);
    AlongAlong(p.y, q.y, a, b, t);
  }

  lemma AlongAlong(p: real, q: real, a: real, b: real, t: real)
    ensures Along(Along(p, q, a), Along(p, q, b), t) == Along(p, q, Along(a, b, t))
  {
  }

  /** Two overlapping collinear segments: some end point of one lies on the other. */
  lemma CollinearDetected(p1: Point, p2: Point, p3: Point, p4: Point, s: real, t: real)
    requires Meets(p1, p2, p3, p4, s, t)
    requires Orientation(p1, p2, p3) == 0 && Orientation(p1, p2, p4) == 0
    ensures SegmentsIntersect(p1, p2, p3, p4)
  {
    OrientationIsCrossSign(p1, p2, p3);
    OrientationIsCrossSign(p1, p2, p4);
    OrientationIsCrossSign(p3, p4, p1);
    if p1 == p2 {
      assert At(p3, p4, t) == p1;
      CrossAlong(p3, p4, p3, p4, t);
      assert Cross(p3, p4, p3) == 0.0 && Cross(p3, p4, p4) == 0.0;
      BetweenOnSegment(p3, p4, 0.0, t, 1.0);
    } else {
      var a := Coordinate(p1, p2, p3);
      var b := Coordinate(p1, p2, p4);
      Blend(p1, p2, a, b, t);
      var m := Along(a, b, t);
      SameFraction(p1, p2, s, m);
      AlongBetween(a, b, 0.0, t, 1.0);
      assert Along(a, b, 0.0) == a && Along(a, b, 1.0) == b;
      assert At(p1, p2, 0.0) == p1 && At(p1, p2, 1.0) == p2;
      if 0.0 <= a <= 1.0 {
        BetweenOnSegment(p1, p2, 0.0, a, 1.0);
      } else if 0.0 <= b <= 1.0 {
        BetweenOnSegment(p1, p2, 0.0, b, 1.0);
      } else {
        BetweenOnSegment(p1, p2, a, 0.0, b);
        CollinearAll(p1, p2, a, b);
      }
    }
  }

  lemma CollinearAll(p: Point, q: Point, a: real, b: real)
    ensures Cross(At(p, q, a), At(p, q, b), p) == 0.0
  {
    var ux, uy := q.x - p.x, q.y - p.y;
    assert Cross(At(p, q, a), At(p, q, b), p)
        == ((b - a) * ux) * (-(a * uy)) - ((b - a) * uy) * (-(a * ux));
  }

  /** Main result: the test is true exactly when the closed segments share a point. */
  lemma SegmentsIntersectExact(p1: Point, p2: Point, p3: Point, p4: Point)
    ensures SegmentsIntersect(p1, p2, p3, p4) <==> SharePoint(p1, p2, p3, p4)
  {
    var o1 := Orientation(p1, p2, p3);
    var o2 := Orientation(p1, p2, p4);
    var o3 := Orientation(p3, p4, p1);
    var o4 := Orientation(p3, p4, p2);
    if SegmentsIntersect(p1, p2, p3, p4) {
      if o1 != o2 && o3 != o4 {
        ProperCrossingMeets(p1, p2, p3, p4);
      } else if o1 == 0 && OnSegment(p1, p3, p2) {
        EndpointMeets(p1, p2, p3, p4);
      } else if o2 == 0 && OnSegment(p1, p4, p2) {
        EndpointMeets(p1, p2, p4, p3);
        ShareReversed(p1, p2, p4, p3);
      } else if o3 == 0 && OnSegment(p3, p1, p4) {
        EndpointMeets(p3, p4, p1, p2);
        ShareSymmetric(p3, p4, p1, p2);
      } else {
        EndpointMeets(p3, p4, p2, p1);
        ShareReversed(p3, p4, p2, p1);
        ShareSymmetric(p3, p4, p1, p2);
      }
    }
    if SharePoint(p1, p2, p3, p4) {
      var s, t :| Meets(p1, p2, p3, p4, s, t);
      assert Meets(p3, p4, p1, p2, t, s);
      MeetingSeparates(p1, p2, p3, p4, s, t);
      MeetingSeparates(p3, p4, p1, p2, t, s);
      if o1 == o2 {
        CollinearDetected(p1, p2, p3, p4, s, t);
      } else if o3 == o4 {
        CollinearDetected(p3, p4, p1, p2, t, s);
      }
    }
  }
}
