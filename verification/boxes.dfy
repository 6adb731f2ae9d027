/** Bounding boxes and their overlap ratio, as computed for track matching. */
module Boxes {
  import opened Geometry

  datatype Box = Box(x1: real, y1: real, x2: real, y2: real)

  function Width(b: Box): real { Max(0.0, b.x2 - b.x1) }

  function Height(b: Box): real { Max(0.0, b.y2 - b.y1) }

  function Area(b: Box): real { Width(b) * Height(b) }

  function Overlap(a: Box, b: Box): Box {
    Box(Max(a.x1, b.x1), Max(a.y1, b.y1), Min(a.x2, b.x2), Min(a.y2, b.y2))
  }

  /** Intersection over union; 0 when the boxes do not overlap in a set of positive area. */
  function IoU(a: Box, b: Box): real {
    var inter := Area(Overlap(a, b));
    if inter <= 0.0 then 0.0
    else
      var union := Area(a) + Area(b) - inter;
      if union > 0.0 then inter / union else 0.0
  }

  lemma ProductMonotone(w: real, h: real, w': real, h': real)
    requires 0.0 <= w <= w' && 0.0 <= h <= h'
    ensures 0.0 <= w * h <= w' * h'
    ensures w * h == w' * h' && w * h > 0.0 ==> w == w' && h == h'
  {
    Scale(0.0, w, h);
    Scale(w, w', h);
    Scale(h, h', w');
    if w * h == w' * h' && w * h > 0.0 {
      assert w' * h == w' * h';
      assert w' == 0.0 ==> w == 0.0;
      Cancel(h, h', w');
      Cancel(w, w', h);
    }
  }

  lemma OverlapInside(a: Box, b: Box)
    ensures 0.0 <= Width(Overlap(a, b)) <= Width(a) && 0.0 <= Height(Overlap(a, b)) <= Height(a)
    ensures 0.0 <= Area(Overlap(a, b)) <= Area(a)
  {
    ProductMonotone(Width(Overlap(a, b)), Height(Overlap(a, b)), Width(a), Height(a));
  }

  lemma IoUSymmetric(a: Box, b: Box)
    ensures IoU(a, b) == IoU(b, a)
  {
    assert Overlap(a, b) == Overlap(b, a);
  }

  lemma IoURange(a: Box, b: Box)
    ensures 0.0 <= IoU(a, b) <= 1.0
  {
    OverlapInside(a, b);
    OverlapInside(b, a);
    assert Overlap(a, b) == Overlap(b, a);
    var inter := Area(Overlap(a, b));
    if inter > 0.0 {
      Quotient(inter, Area(a) + Area(b) - inter);
    }
  }

  /** The ratio is 1 exactly for equal boxes of positive area. */
  lemma IoUOneExact(a: Box, b: Box)
    ensures IoU(a, b) == 1.0 <==> a == b && Area(a) > 0.0
  {
    var o := Overlap(a, b);
    var inter := Area(o);
    OverlapInside(a, b);
    OverlapInside(b, a);
    assert o == Overlap(b, a);
    if IoU(a, b) == 1.0 {
      var union := Area(a) + Area(b) - inter;
      assert inter / union == 1.0;
      Cancel(inter / union, 1.0, union);
      assert inter == union;
      ProductMonotone(Width(o), Height(o), Width(a), Height(a));
      ProductMonotone(Width(o), Height(o), Width(b), Height(b));
      assert Width(a) > 0.0 && Height(a) > 0.0 by { PositiveArea(a); }
    }
    if a == b && Area(a) > 0.0 {
      assert o == a;
      assert inter / inter == 1.0;
    }
  }

  lemma PositiveArea(a: Box)
    requires Area(a) > 0.0
    ensures Width(a) > 0.0 && Height(a) > 0.0
  {
    assert Width(a) == 0.0 ==> Area(a) == 0.0;
    assert Height(a) == 0.0 ==> Area(a) == 0.0;
  }

  // ----- what the ratio is, in terms of points and coordinates -----

  /** The point (x, y) lies in the closed box. */
  predicate Holds(b: Box, x: real, y: real) { b.x1 <= x <= b.x2 && b.y1 <= y <= b.y2 }

  /** o is the common part of a and b. */
  ghost predicate CommonPart(a: Box, b: Box, o: Box) {
    forall x: real, y: real :: Holds(o, x, y) <==> Holds(a, x, y) && Holds(b, x, y)
  }

  predicate Proper(b: Box) { b.x1 < b.x2 && b.y1 < b.y2 }

  /** Length times width, by the coordinates. */
  function Extent(b: Box): real { (b.x2 - b.x1) * (b.y2 - b.y1) }

  lemma OverlapIsCommon(a: Box, b: Box)
    ensures CommonPart(a, b, Overlap(a, b))
  {
  }

  /** A proper common part is unique. */
  lemma CommonUnique(a: Box, b: Box, o: Box)
    requires Proper(o) && CommonPart(a, b, o)
    ensures o == Overlap(a, b)
  {
    var w := Overlap(a, b);
    assert Holds(o, o.x1, o.y1) && Holds(o, o.x2, o.y2);
    assert Holds(a, w.x1, w.y1) && Holds(b, w.x1, w.y1) && Holds(a, w.x2, w.y2) && Holds(b, w.x2, w.y2);
    assert Holds(o, w.x1, w.y1) && Holds(o, w.x2, w.y2);
  }

  lemma AreaIsExtent(b: Box)
    ensures Proper(b) ==> Area(b) == Extent(b) > 0.0
    ensures !Proper(b) ==> Area(b) == 0.0
  {
    if Proper(b) { ProductPositive(b.x2 - b.x1, b.y2 - b.y1); }
  }

  lemma ProductPositive(u: real, v: real)
    requires u > 0.0 && v > 0.0
    ensures u * v > 0.0
  {
  }

  /** Boxes with a common part of positive area are proper, and at least as large. */
  lemma CommonInside(a: Box, b: Box)
    requires Proper(Overlap(a, b))
    ensures Proper(a) && Proper(b) && Extent(a) + Extent(b) - Extent(Overlap(a, b)) >= Extent(Overlap(a, b)) > 0.0
  {
    var o := Overlap(a, b);
    OverlapInside(a, b);
    OverlapInside(b, a);
    assert o == Overlap(b, a);
    AreaIsExtent(a);
    AreaIsExtent(b);
    AreaIsExtent(o);
  }

  /** Main result: the ratio times the area covered by either box is the area of their common part; without a
      common part of positive area it is 0. */
  lemma IoUExact(a: Box, b: Box, o: Box)
    ensures Proper(o) && CommonPart(a, b, o) ==>
      IoU(a, b) * (Extent(a) + Extent(b) - Extent(o)) == Extent(o) && Extent(a) + Extent(b) - Extent(o) > 0.0
    ensures (forall c :: CommonPart(a, b, c) ==> !Proper(c)) ==> IoU(a, b) == 0.0
  {
    var w := Overlap(a, b);
    AreaIsExtent(w);
    OverlapIsCommon(a, b);
    if Proper(o) && CommonPart(a, b, o) {
      CommonUnique(a, b, o);
      CommonInside(a, b);
      AreaIsExtent(a);
      AreaIsExtent(b);
      Quotient(Extent(o), Extent(a) + Extent(b) - Extent(o));
    }
  }

  /** The boxes share at least the fraction t of the area they cover together. */
  predicate ShareEnough(a: Box, b: Box, t: real) {
    var w, h := Min(a.x2, b.x2) - Max(a.x1, b.x1), Min(a.y2, b.y2) - Max(a.y1, b.y1);
    w > 0.0 && h > 0.0 && w * h >= t * ((a.x2 - a.x1) * (a.y2 - a.y1) + (b.x2 - b.x1) * (b.y2 - b.y1) - w * h)
  }

  /** The ratio reaches a threshold exactly if the coordinates say so. */
  lemma ThresholdExact(a: Box, b: Box, t: real)
    ensures IoU(a, b) >= t <==> t <= 0.0 || ShareEnough(a, b, t)
  {
    IoURange(a, b);
    hide ShareEnough, Overlap, CommonPart, Extent;
    var o := Overlap(a, b);
    ShareUnfolded(a, b, t);
    AreaIsExtent(o);
    hide Area;
    if Proper(o) {
      OverlapIsCommon(a, b);
      IoUExact(a, b, o);
      hide IoU;
      CompareScaled(IoU(a, b), t, Extent(a) + Extent(b) - Extent(o));
    }
  }

  lemma ShareUnfolded(a: Box, b: Box, t: real)
    ensures var o := Overlap(a, b);
      ShareEnough(a, b, t) <==> Proper(o) && Extent(o) >= t * (Extent(a) + Extent(b) - Extent(o))
  {
  }

  lemma CompareScaled(u: real, v: real, c: real)
    requires c > 0.0
    ensures u >= v <==> u * c >= v * c
  {
    if u >= v { Scale(v, u, c); }
    if u * c >= v * c && u < v {
      ProductPositive(v - u, c);
    }
  }
}
