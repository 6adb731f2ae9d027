/** Zones drawn on a camera picture, and the include/exclude filter. */
module Zones {
  import opened Wrappers
  import opened Geometry
  import Boxes
  import Tracking

  datatype Mode = Line | Loiter | Include | Exclude | Other

  /** `classes` empty (or missing) means every class; `minDwell` missing or zero means 10 seconds. */
  datatype Zone = Zone(id: int, mode: Mode, points: seq<Point>, classes: seq<string>, minDwell: Option<real>)

  predicate Concerns(zone: Zone, key: string) { zone.classes == [] || key in zone.classes }

  function Centroid(b: Boxes.Box): Point { Point((b.x1 + b.x2) / 2.0, (b.y1 + b.y2) / 2.0) }

  /** The horizontal ray to the right of p meets the polygon edge a-b. */
  predicate RayMeets(p: Point, a: Point, b: Point) {
    (a.y > p.y) != (b.y > p.y) && p.x < (b.x - a.x) * (p.y - a.y) / (b.y - a.y) + a.x
  }

  /** Parity of the edges met among the first n, starting from the vertex `from`. */
  function Parity(p: Point, from: Point, polygon: seq<Point>): bool
    decreases |polygon|
  {
    if polygon == [] then false
    else RayMeets(p, from, polygon[0]) != Parity(p, polygon[0], polygon[1..])
  }

  predicate PointInPolygon(p: Point, polygon: seq<Point>) {
    |polygon| >= 3 && Parity(p, polygon[|polygon| - 1], polygon)
  }

  // ----- the polygon is a closed curve: neither the first vertex nor the direction matters -----

  lemma RayMeetsSymmetric(p: Point, a: Point, b: Point)
    ensures RayMeets(p, a, b) == RayMeets(p, b, a)
  {
    if (a.y > p.y) != (b.y > p.y) {
      var dx, dy := b.x - a.x, b.y - a.y;
      var u, v := dx * (p.y - a.y) / dy + a.x, -dx * (p.y - b.y) / -dy + b.x;
      assert (a.x - b.x) == -dx && (a.y - b.y) == -dy;
      assert dx * (p.y - a.y) / dy * dy == dx * (p.y - a.y);
      assert -dx * (p.y - b.y) / -dy * -dy == -dx * (p.y - b.y);
      assert u * dy == dx * (p.y - a.y) + a.x * dy;
      assert v * dy == dx * (p.y - b.y) + b.x * dy;
      assert dx * (p.y - a.y) - dx * (p.y - b.y) == dx * dy;
      Cancel(u, v, dy);
    }
  }

  lemma {:induction false} ParityConcat(p: Point, from: Point, a: seq<Point>, b: seq<Point>)
    ensures Parity(p, from, a + b) == (Parity(p, from, a) != Parity(p, if a == [] then from else a[|a| - 1], b))
    decreases |a|
  {
    if a == [] {
      assert a + b == b;
    } else {
      assert (a + b)[1..] == a[1..] + b;
      ParityConcat(p, a[0], a[1..], b);
    }
  }

  /** Drawing may start at any vertex. */
  lemma PolygonRotation(p: Point, polygon: seq<Point>, k: nat)
    requires k <= |polygon|
    ensures PointInPolygon(p, polygon[k..] + polygon[..k]) == PointInPolygon(p, polygon)
  {
    var a, b := polygon[..k], polygon[k..];
    assert polygon == a + b;
    if |polygon| >= 3 {
      ParityConcat(p, polygon[|polygon| - 1], a, b);
      ParityConcat(p, (b + a)[|polygon| - 1], b, a);
    }
  }

  function Reverse(s: seq<Point>): (r: seq<Point>)
    ensures |r| == |s|
  {
    if s == [] then [] else Reverse(s[1..]) + [s[0]]
  }

  /** Edges walked backwards from `to`, ending at `from`. */
  lemma {:induction false} ParityReversed(p: Point, from: Point, s: seq<Point>)
    requires s != []
    ensures Reverse(s)[0] == s[|s| - 1]
    ensures Parity(p, s[|s| - 1], Reverse(s)[1..] + [from]) == Parity(p, from, s)
    decreases |s|
  {
    var rest := s[1..];
    RayMeetsSymmetric(p, from, s[0]);
    assert [from][1..] == [];
    if rest == [] {
      assert Reverse(s) == [s[0]];
      assert Reverse(s)[1..] + [from] == [from];
    } else {
      ParityReversed(p, s[0], rest);
      assert Reverse(s)[1..] + [from] == (Reverse(rest)[1..] + [s[0]]) + [from];
      ParityConcat(p, s[|s| - 1], Reverse(rest)[1..] + [s[0]], [from]);
    }
  }

  /** Nor does the drawing direction matter. */
  lemma {:induction false} PolygonReversal(p: Point, polygon: seq<Point>)
    ensures PointInPolygon(p, Reverse(polygon)) == PointInPolygon(p, polygon)
  {
    if |polygon| >= 3 {
      var last := polygon[|polygon| - 1];
      var r := Reverse(polygon);
      ParityReversed(p, last, polygon);
      assert r == [r[0]] + r[1..];
      PolygonRotation(p, r, 1);
      assert r[1..] + r[..1] == r[1..] + [last];
    }
  }

  // ----- include and exclude zones -----

  predicate Excluded(d: Tracking.Tracked, zones: seq<Zone>) {
    exists z :: z in zones && z.mode == Exclude && Concerns(z, d.key) && PointInPolygon(Centroid(d.box), z.points)
  }

  predicate Restricted(d: Tracking.Tracked, zones: seq<Zone>) {
    exists z :: z in zones && z.mode == Include && Concerns(z, d.key)
  }

  predicate Included(d: Tracking.Tracked, zones: seq<Zone>) {
    exists z :: z in zones && z.mode == Include && Concerns(z, d.key) && PointInPolygon(Centroid(d.box), z.points)
  }

  /** `filter_detections_by_zones` */
  function Filter(s: seq<Tracking.Tracked>, zones: seq<Zone>): seq<Tracking.Tracked> {
    if s == [] then []
    else
      var n := |s| - 1;
      if Excluded(s[n], zones) || (Restricted(s[n], zones) && !Included(s[n], zones)) then Filter(s[..n], zones)
      else Filter(s[..n], zones) + [s[n]]
  }

  lemma {:induction false} FilterMember(s: seq<Tracking.Tracked>, zones: seq<Zone>, d: Tracking.Tracked)
    ensures d in Filter(s, zones) <==>
      d in s && !Excluded(d, zones) && (Restricted(d, zones) ==> Included(d, zones))
  {
    if s != [] {
      var n := |s| - 1;
      FilterMember(s[..n], zones, d);
      assert d in s <==> d in s[..n] || d == s[n];
    }
  }

  /** The middle of a box lies in the zone, and the zone lists the class or no class at all. */
  predicate Holds(z: Zone, d: Tracking.Tracked) {
    && (|z.classes| > 0 ==> exists i :: 0 <= i < |z.classes| && z.classes[i] == d.key)
    && PointInPolygon(At(Point(d.box.x1, d.box.y1), Point(d.box.x2, d.box.y2), 0.5), z.points)
  }

  /** The centroid is the point half way between two corners of the box; an empty class list concerns every class. */
  lemma HoldsExact(z: Zone, d: Tracking.Tracked)
    ensures Holds(z, d) <==> Concerns(z, d.key) && PointInPolygon(Centroid(d.box), z.points)
    ensures Concerns(z, d.key) <==> |z.classes| == 0 || exists i :: 0 <= i < |z.classes| && z.classes[i] == d.key
  {
    hide PointInPolygon;
  }

  /** Main result for the filter, in coordinates: a detection stays exactly if no exclude zone holds it and either no
      include zone is for its class or one of those holds it. */
  lemma {:induction false} FilterExactly(s: seq<Tracking.Tracked>, zones: seq<Zone>, d: Tracking.Tracked)
    ensures d in Filter(s, zones) <==>
      && d in s
      && (forall i :: 0 <= i < |zones| && zones[i].mode == Exclude ==> !Holds(zones[i], d))
      && ((forall i :: 0 <= i < |zones| && zones[i].mode == Include ==> zones[i].classes != [] && d.key !in zones[i].classes)
          || exists i :: 0 <= i < |zones| && zones[i].mode == Include && Holds(zones[i], d))
  {
    hide Holds, PointInPolygon;
    FilterMember(s, zones, d);
    forall z: Zone ensures Holds(z, d) <==> Concerns(z, d.key) && PointInPolygon(Centroid(d.box), z.points) { HoldsExact(z, d); }
  }

  /** The filter decides detection by detection and keeps their order. */
  lemma {:induction false} FilterConcat(a: seq<Tracking.Tracked>, b: seq<Tracking.Tracked>, zones: seq<Zone>)
    ensures Filter(a + b, zones) == Filter(a, zones) + Filter(b, zones) && |Filter(a, zones)| <= |a|
    decreases |a| + |b|
  {
    hide Excluded, Restricted, Included;
    if b != [] {
      var n := |b| - 1;
      assert (a + b)[..|a| + n] == a + b[..n];
      FilterConcat(a, b[..n], zones);
    } else if a != [] {
      assert a + b == a;
      FilterConcat(a[..|a| - 1], [], zones);
    }
  }
}
