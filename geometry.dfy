/** Box and segment geometry used by the tracker, the line counter and the
    offline evaluation: intersection-over-union of two axis-aligned boxes,
    box area, centre and foot point, and the parametric segment-intersection
    test. Coordinates are exact reals; floating-point rounding is not modelled. */
module Geometry {

  /** An axis-aligned box [x1, y1, x2, y2] in pixel coordinates (y grows downwards). */
  datatype Box = Box(x1: real, y1: real, x2: real, y2: real)

  datatype Point = Point(x: real, y: real)

  /** One row [x1, y1, x2, y2, track_id, conf] that the tracker emits and the line counter reads. */
  datatype TrackedObject = TrackedObject(box: Box, id: int, conf: real)

  /** A well-formed box: positive width and height. */
  predicate Proper(b: Box) {
    b.x1 < b.x2 && b.y1 < b.y2
  }

  function Max(a: real, b: real): (r: real)
    ensures r >= a && r >= b && (r == a || r == b)
  {
    if a >= b then a else b
  }

  function Min(a: real, b: real): (r: real)
    ensures r <= a && r <= b && (r == a || r == b)
  {
    if a <= b then a else b
  }

  function Abs(a: real): (r: real)
    ensures r >= 0.0 && (r == a || r == -a)
  {
    if a < 0.0 then -a else a
  }

  /** Width and height of the overlap of two boxes, clamped at zero. */
  function OverlapWidth(b1: Box, b2: Box): real {
    Max(0.0, Min(b1.x2, b2.x2) - Max(b1.x1, b2.x1))
  }

  function OverlapHeight(b1: Box, b2: Box): real {
    Max(0.0, Min(b1.y2, b2.y2) - Max(b1.y1, b2.y1))
  }

  function Intersection(b1: Box, b2: Box): real {
    OverlapWidth(b1, b2) * OverlapHeight(b1, b2)
  }

  /** bbox_area: width times height. */
  function Area(b: Box): (r: real)
    ensures Proper(b) ==> r > 0.0
  {
    (b.x2 - b.x1) * (b.y2 - b.y1)
  }

  function Union(b1: Box, b2: Box): real {
    Area(b1) + Area(b2) - Intersection(b1, b2)
  }

  /** calculate_iou: overlap area over union area, and 0 when the union is not positive
      (no division happens then). */
  function Iou(b1: Box, b2: Box): (r: real)
    ensures Union(b1, b2) <= 0.0 ==> r == 0.0
  {
    var u := Union(b1, b2);
    if u > 0.0 then Intersection(b1, b2) / u else 0.0
  }

  /** The interiors of two boxes overlap. */
  predicate Overlap(b1: Box, b2: Box) {
    Max(b1.x1, b2.x1) < Min(b1.x2, b2.x2) && Max(b1.y1, b2.y1) < Min(b1.y2, b2.y2)
  }

  /** bbox_center: the point halfway between opposite edges. */
  function Center(b: Box): (p: Point)
    ensures p.x - b.x1 == b.x2 - p.x && p.y - b.y1 == b.y2 - p.y
    ensures Proper(b) ==> b.x1 < p.x < b.x2 && b.y1 < p.y < b.y2
  {
    Point((b.x1 + b.x2) / 2.0, (b.y1 + b.y2) / 2.0)
  }

  /** get_bbox_bottom_center: the foot point, the centre moved down to the bottom edge. */
  function BottomCenter(b: Box): (p: Point)
    ensures p.x == Center(b).x && p.y == b.y2
  {
    Point((b.x1 + b.x2) / 2.0, b.y2)
  }

  /** Determinants below this magnitude count as parallel (the source's 1e-10). */
  const ParallelCutoff: real := 0.0000000001

  /** The determinant of the two-line system of line_intersection. */
  function Denom(p1: Point, p2: Point, q1: Point, q2: Point): real {
    (p1.x - p2.x) * (q1.y - q2.y) - (p1.y - p2.y) * (q1.x - q2.x)
  }

  function TNumer(p1: Point, p2: Point, q1: Point, q2: Point): real {
    (p1.x - q1.x) * (q1.y - q2.y) - (p1.y - q1.y) * (q1.x - q2.x)
  }

  function UNumer(p1: Point, p2: Point, q1: Point, q2: Point): real {
    -((p1.x - p2.x) * (p1.y - q1.y) - (p1.y - p2.y) * (p1.x - q1.x))
  }

  /** line_intersection: does the movement p1 -> p2 cross the segment q1 -- q2?
      Near-parallel systems (|denom| < 1e-10) never intersect. */
  function LineIntersection(p1: Point, p2: Point, q1: Point, q2: Point): (r: bool)
    ensures Abs(Denom(p1, p2, q1, q2)) < ParallelCutoff ==> !r
  {
    var denom := Denom(p1, p2, q1, q2);
    if Abs(denom) < ParallelCutoff then false
    else
      var t := TNumer(p1, p2, q1, q2) / denom;
      var u := UNumer(p1, p2, q1, q2) / denom;
      0.0 <= t <= 1.0 && 0.0 <= u <= 1.0
  }

  /** The point a fraction t of the way from a to b. */
  function PointAt(a: Point, b: Point, t: real): Point {
    Point(a.x + t * (b.x - a.x), a.y + t * (b.y - a.y))
  }

  /** The closed segments p1 -- p2 and q1 -- q2 share a point. */
  ghost predicate SegmentsMeet(p1: Point, p2: Point, q1: Point, q2: Point) {
    exists t: real, u: real :: 0.0 <= t <= 1.0 && 0.0 <= u <= 1.0 && PointAt(p1, p2, t) == PointAt(q1, q2, u)
  }

  // ---------------------------------------------------------------------------
  // IoU

  lemma IntersectionSymmetric(b1: Box, b2: Box)
    ensures Intersection(b1, b2) == Intersection(b2, b1)
  {
    assert OverlapWidth(b1, b2) == OverlapWidth(b2, b1);
    assert OverlapHeight(b1, b2) == OverlapHeight(b2, b1);
  }

  /** IoU does not depend on the order of its arguments. */
  lemma IouSymmetric(b1: Box, b2: Box)
    ensures Iou(b1, b2) == Iou(b2, b1)
  {
    IntersectionSymmetric(b1, b2);
  }

  lemma MulMono(a: real, b: real, c: real, d: real)
    requires 0.0 <= a <= c && 0.0 <= b <= d
    ensures a * b <= c * d
  {
    calc {
      a * b;
    <= { assert a * b <= a * d by { assert a * (d - b) >= 0.0; } }
      a * d;
    <= { assert (c - a) * d >= 0.0; }
      c * d;
    }
  }

  /** The overlap never exceeds either box's area. */
  lemma IntersectionBounded(b1: Box, b2: Box)
    requires Proper(b1) && Proper(b2)
    ensures 0.0 <= Intersection(b1, b2) <= Area(b1)
    ensures Intersection(b1, b2) <= Area(b2)
  {
    var w, h := OverlapWidth(b1, b2), OverlapHeight(b1, b2);
    assert 0.0 <= w <= b1.x2 - b1.x1 && w <= b2.x2 - b2.x1;
    assert 0.0 <= h <= b1.y2 - b1.y1 && h <= b2.y2 - b2.y1;
    MulMono(w, h, b1.x2 - b1.x1, b1.y2 - b1.y1);
    MulMono(w, h, b2.x2 - b2.x1, b2.y2 - b2.y1);
    MulMono(0.0, 0.0, w, h);
  }

  /** IoU always lies in [0, 1]; for proper boxes the union is also positive. A box that is
      not proper leaves no overlap, so its IoU is 0. */
  lemma IouRange(b1: Box, b2: Box)
    ensures Proper(b1) && Proper(b2) ==> Union(b1, b2) > 0.0
    ensures 0.0 <= Iou(b1, b2) <= 1.0
  {
    if Proper(b1) && Proper(b2) {
      IntersectionBounded(b1, b2);
      var i, u := Intersection(b1, b2), Union(b1, b2);
      assert u >= Area(b1) > 0.0;
      assert 0.0 <= i <= u;
      DivUnit(i, u);
    } else {
      var w, h := OverlapWidth(b1, b2), OverlapHeight(b1, b2);
      if !(b1.x1 < b1.x2 && b2.x1 < b2.x2) {
        assert w == 0.0;
      } else {
        assert h == 0.0;
      }
      assert Intersection(b1, b2) == 0.0;
    }
  }

  lemma DivUnit(i: real, u: real)
    requires 0.0 <= i <= u && u > 0.0
    ensures 0.0 <= i / u <= 1.0
  {
    assert i / u * u == i;
  }

  /** A proper box has IoU 1 with itself. */
  lemma IouSelf(b: Box)
    requires Proper(b)
    ensures Iou(b, b) == 1.0
  {
    assert OverlapWidth(b, b) == b.x2 - b.x1;
    assert OverlapHeight(b, b) == b.y2 - b.y1;
    assert Intersection(b, b) == Area(b);
    assert Union(b, b) == Area(b) > 0.0;
    assert Area(b) / Area(b) == 1.0;
  }

  /** Boxes whose interiors do not overlap have IoU 0, because the clamp makes the overlap empty. */
  lemma IouDisjoint(b1: Box, b2: Box)
    requires !Overlap(b1, b2)
    ensures Iou(b1, b2) == 0.0
  {
    assert OverlapWidth(b1, b2) == 0.0 || OverlapHeight(b1, b2) == 0.0;
    assert Intersection(b1, b2) == 0.0;
  }

  /** For proper boxes, IoU is positive exactly when the interiors overlap. */
  lemma IouPositiveIffOverlap(b1: Box, b2: Box)
    requires Proper(b1) && Proper(b2)
    ensures Iou(b1, b2) > 0.0 <==> Overlap(b1, b2)
  {
    if Overlap(b1, b2) {
      var w, h := OverlapWidth(b1, b2), OverlapHeight(b1, b2);
      assert w > 0.0 && h > 0.0;
      assert Intersection(b1, b2) > 0.0 by { assert w * h > 0.0; }
      IouRange(b1, b2);
      assert Intersection(b1, b2) / Union(b1, b2) > 0.0;
    } else {
      IouDisjoint(b1, b2);
    }
  }

  // ---------------------------------------------------------------------------
  // Foot point

  /** The foot point ignores the top edge. */
  lemma BottomCenterIgnoresTop(b: Box, top: real)
    ensures BottomCenter(b.(y1 := top)) == BottomCenter(b)
  {
  }

  // ---------------------------------------------------------------------------
  // Segment intersection

  lemma DivMul(a: real, d: real)
    requires d != 0.0
    ensures (a / d) * d == a
  {
  }

  /** With t = TNumer/denom, the crossing point on the movement coincides with the one on the line. */
  lemma CramerIdentity(p1: Point, p2: Point, q1: Point, q2: Point)
    ensures p1.x * Denom(p1, p2, q1, q2) + TNumer(p1, p2, q1, q2) * (p2.x - p1.x)
         == q1.x * Denom(p1, p2, q1, q2) + UNumer(p1, p2, q1, q2) * (q2.x - q1.x)
    ensures p1.y * Denom(p1, p2, q1, q2) + TNumer(p1, p2, q1, q2) * (p2.y - p1.y)
         == q1.y * Denom(p1, p2, q1, q2) + UNumer(p1, p2, q1, q2) * (q2.y - q1.y)
  {
  }

  lemma ScaledEq(a: real, b: real, d: real)
    requires d != 0.0 && a * d == b * d
    ensures a == b
  {
    assert (a - b) * d == 0.0;
  }

  /** One coordinate of the crossing point: from the scaled identity to the parametric one. */
  lemma ParamCoordinate(o1: real, dp: real, o2: real, dq: real, d: real, a: real, b: real)
    requires d != 0.0
    requires o1 * d + a * dp == o2 * d + b * dq
    ensures o1 + (a / d) * dp == o2 + (b / d) * dq
  {
    var t, u := a / d, b / d;
    DivMul(a, d);
    DivMul(b, d);
    assert (o1 + t * dp) * d == o1 * d + (t * d) * dp;
    assert (o2 + u * dq) * d == o2 * d + (u * d) * dq;
    ScaledEq(o1 + t * dp, o2 + u * dq, d);
  }

  /** When line_intersection says yes, the movement and the line really share a point:
      the parameters t and u it computes name that point on both segments. */
  lemma LineIntersectionSound(p1: Point, p2: Point, q1: Point, q2: Point)
    requires LineIntersection(p1, p2, q1, q2)
    ensures SegmentsMeet(p1, p2, q1, q2)
  {
    var d := Denom(p1, p2, q1, q2);
    var a, b := TNumer(p1, p2, q1, q2), UNumer(p1, p2, q1, q2);
    assert d != 0.0 && 0.0 <= a / d <= 1.0 && 0.0 <= b / d <= 1.0;
    assert PointAt(p1, p2, a / d) == PointAt(q1, q2, b / d) by {
      CramerIdentity(p1, p2, q1, q2);
      ParamCoordinate(p1.x, p2.x - p1.x, q1.x, q2.x - q1.x, d, a, b);
      ParamCoordinate(p1.y, p2.y - p1.y, q1.y, q2.y - q1.y, d, a, b);
    }
  }

  /** Conversely, when the system is not near-parallel, any common point of the two closed
      segments makes line_intersection say yes: its parameters are the ones the code computes. */
  lemma LineIntersectionComplete(p1: Point, p2: Point, q1: Point, q2: Point, t: real, u: real)
    requires Abs(Denom(p1, p2, q1, q2)) >= ParallelCutoff
    requires 0.0 <= t <= 1.0 && 0.0 <= u <= 1.0
    requires PointAt(p1, p2, t) == PointAt(q1, q2, u)
    ensures LineIntersection(p1, p2, q1, q2)
  {
    var d := Denom(p1, p2, q1, q2);
    var a, b := TNumer(p1, p2, q1, q2), UNumer(p1, p2, q1, q2);
    assert d != 0.0;
    CommonPointScaled(p1, p2, q1, q2, t, u);
    assert t == a / d by {
      DivMul(a, d);
      ScaledEq(t, a / d, d);
    }
    assert u == b / d by {
      DivMul(b, d);
      ScaledEq(u, b / d, d);
    }
  }

  /** The parameters of a common point, scaled by the determinant, are the two numerators. */
  lemma CommonPointScaled(p1: Point, p2: Point, q1: Point, q2: Point, t: real, u: real)
    requires PointAt(p1, p2, t) == PointAt(q1, q2, u)
    ensures t * Denom(p1, p2, q1, q2) == TNumer(p1, p2, q1, q2)
    ensures u * Denom(p1, p2, q1, q2) == UNumer(p1, p2, q1, q2)
  {
    var ex := p1.x + t * (p2.x - p1.x) == q1.x + u * (q2.x - q1.x);
    var ey := p1.y + t * (p2.y - p1.y) == q1.y + u * (q2.y - q1.y);
    assert ex && ey;
    assert t * Denom(p1, p2, q1, q2) == TNumer(p1, p2, q1, q2) by {
      assert (p1.x + t * (p2.x - p1.x)) * (q1.y - q2.y) == (q1.x + u * (q2.x - q1.x)) * (q1.y - q2.y);
      assert (p1.y + t * (p2.y - p1.y)) * (q1.x - q2.x) == (q1.y + u * (q2.y - q1.y)) * (q1.x - q2.x);
    }
    assert u * Denom(p1, p2, q1, q2) == UNumer(p1, p2, q1, q2) by {
      assert (p1.x + t * (p2.x - p1.x)) * (p1.y - p2.y) == (q1.x + u * (q2.x - q1.x)) * (p1.y - p2.y);
      assert (p1.y + t * (p2.y - p1.y)) * (p1.x - p2.x) == (q1.y + u * (q2.y - q1.y)) * (p1.x - p2.x);
    }
  }

  /** Away from the near-parallel cutoff, line_intersection decides exactly whether the
      two closed segments meet. */
  lemma LineIntersectionIff(p1: Point, p2: Point, q1: Point, q2: Point)
    requires Abs(Denom(p1, p2, q1, q2)) >= ParallelCutoff
    ensures LineIntersection(p1, p2, q1, q2) <==> SegmentsMeet(p1, p2, q1, q2)
  {
    if LineIntersection(p1, p2, q1, q2) {
      LineIntersectionSound(p1, p2, q1, q2);
    }
    if SegmentsMeet(p1, p2, q1, q2) {
      var t: real, u: real :| 0.0 <= t <= 1.0 && 0.0 <= u <= 1.0 && PointAt(p1, p2, t) == PointAt(q1, q2, u);
      LineIntersectionComplete(p1, p2, q1, q2, t, u);
    }
  }

  /** A movement from (0,100) to (20,100) crosses the vertical segment (10,0) -- (10,200). */
  lemma LineIntersectionExample()
    ensures LineIntersection(Point(0.0, 100.0), Point(20.0, 100.0), Point(10.0, 0.0), Point(10.0, 200.0))
  {
    var p1, p2, q1, q2 := Point(0.0, 100.0), Point(20.0, 100.0), Point(10.0, 0.0), Point(10.0, 200.0);
    assert Denom(p1, p2, q1, q2) == 4000.0;
    assert TNumer(p1, p2, q1, q2) == 2000.0;
    assert UNumer(p1, p2, q1, q2) == 2000.0;
  }

  /** A zero-length movement never crosses anything (its determinant is 0). */
  lemma NoMovementNoCrossing(p: Point, q1: Point, q2: Point)
    ensures !LineIntersection(p, p, q1, q2)
  {
    assert Denom(p, p, q1, q2) == 0.0;
  }
}
