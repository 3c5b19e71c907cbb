/** Plane geometry used by the simulation: points, squared distances, the
    segment/circle test behind placement, and the path scaled to the canvas.

    Distances are never taken with a square root. A comparison `dist <= b`
    with `dist = sqrt(q)` is stated as `Within(q, b)` and `dist < b` as
    `Below(q, b)`; since `sqrt(q)` is non-negative, each is exactly the
    comparison of the distance itself. */
module Geometry {

  datatype Point = Point(x: real, y: real)

  /** Squared Euclidean distance (dx * dx + dy * dy). */
  function SqDist(a: Point, b: Point): real
  {
    (a.x - b.x) * (a.x - b.x) + (a.y - b.y) * (a.y - b.y)
  }

  /** `sqrt(q) <= b`, written without the root. */
  predicate Within(q: real, b: real)
  {
    0.0 <= b && q <= b * b
  }

  /** `sqrt(q) < b`, written without the root. */
  predicate Below(q: real, b: real)
  {
    0.0 < b && q < b * b
  }

  /** A move of the given length from one point toward another along the
      normalised direction (the source's `x += dx / dist * moveDist`). The
      square root it needs is outside the model, so callers receive it. */
  type Mover = (Point, Point, real) -> Point

  function Clamp01(t: real): (r: real)
    ensures 0.0 <= r <= 1.0
    ensures 0.0 <= t <= 1.0 ==> r == t
  {
    if t < 0.0 then 0.0 else if t > 1.0 then 1.0 else t
  }

  /** The point `p1 + s * (p2 - p1)` of the segment from p1 to p2. */
  function PointAt(p1: Point, p2: Point, s: real): Point
  {
    Point(p1.x + s * (p2.x - p1.x), p1.y + s * (p2.y - p1.y))
  }

  /** The segment parameter of the point closest to c, clamped to [0, 1];
      a degenerate segment uses its first end. */
  function ClosestParam(c: Point, p1: Point, p2: Point): (t: real)
    ensures 0.0 <= t <= 1.0
    ensures SegLenSq(p1, p2) == 0.0 ==> t == 0.0
  {
    var lenSq := SegLenSq(p1, p2);
    var t := if lenSq != 0.0 then SegDot(c, p1, p2) / lenSq else 0.0;
    Clamp01(t)
  }

  /** `dx * dx + dy * dy` for the segment from p1 to p2. */
  function SegLenSq(p1: Point, p2: Point): real
  {
    (p2.x - p1.x) * (p2.x - p1.x) + (p2.y - p1.y) * (p2.y - p1.y)
  }

  /** `(cx - x1) * dx + (cy - y1) * dy` for the segment from p1 to p2. */
  function SegDot(c: Point, p1: Point, p2: Point): real
  {
    (c.x - p1.x) * (p2.x - p1.x) + (c.y - p1.y) * (p2.y - p1.y)
  }

  /** `circleLineIntersect(cx, cy, r, x1, y1, x2, y2)`: the distance from c
      to the closest point of the segment is less than r + 40. */
  predicate CircleLineIntersect(c: Point, r: real, p1: Point, p2: Point)
  {
    Below(SqDist(c, PointAt(p1, p2, ClosestParam(c, p1, p2))), r + 40.0)
  }

  /** (u - s * d)^2 expanded, for one coordinate. */
  lemma SquareExpand(u: real, d: real, s: real)
    ensures (u - s * d) * (u - s * d) == u * u - 2.0 * s * (u * d) + s * s * (d * d)
  {
  }

  /** The squared distance from c to the point of parameter s is a
      quadratic in s whose coefficients are the segment's dot product and
      squared length. */
  lemma DistQuadratic(c: Point, p1: Point, p2: Point, s: real)
    ensures SqDist(c, PointAt(p1, p2, s)) ==
              SqDist(c, p1) - 2.0 * s * SegDot(c, p1, p2) + s * s * SegLenSq(p1, p2)
  {
    var ux, dx := c.x - p1.x, p2.x - p1.x;
    var uy, dy := c.y - p1.y, p2.y - p1.y;
    assert c.x - PointAt(p1, p2, s).x == ux - s * dx;
    assert c.y - PointAt(p1, p2, s).y == uy - s * dy;
    SquareExpand(ux, dx, s);
    SquareExpand(uy, dy, s);
  }

  lemma DistDifference(c: Point, p1: Point, p2: Point, s: real, t: real)
    ensures SqDist(c, PointAt(p1, p2, s)) - SqDist(c, PointAt(p1, p2, t)) ==
              (s - t) * ((s + t) * SegLenSq(p1, p2) - 2.0 * SegDot(c, p1, p2))
  {
    DistQuadratic(c, p1, p2, s);
    DistQuadratic(c, p1, p2, t);
  }

  lemma ProductNonNegative(a: real, b: real)
    requires (a >= 0.0 && b >= 0.0) || (a <= 0.0 && b <= 0.0)
    ensures a * b >= 0.0
  {
  }

  /** A projection before the segment's start is clamped to 0, which is at
      least as near as any point of the segment. */
  lemma BeforeStart(l: real, d: real, s: real)
    requires l > 0.0 && d / l < 0.0 && 0.0 <= s
    ensures (s - 0.0) * ((s + 0.0) * l - 2.0 * d) >= 0.0
  {
    assert d < 0.0;
    ProductNonNegative(s, s * l - 2.0 * d);
  }

  /** A projection past the segment's end is clamped to 1, which is at
      least as near as any point of the segment. */
  lemma PastEnd(l: real, d: real, s: real)
    requires l > 0.0 && d / l > 1.0 && s <= 1.0
    ensures (s - 1.0) * ((s + 1.0) * l - 2.0 * d) >= 0.0
  {
    assert d > l;
    ProductNonNegative(s - 1.0, (s + 1.0) * l - 2.0 * d);
  }

  /** A projection inside the segment is the vertex of the quadratic. */
  lemma AtVertex(l: real, d: real, s: real)
    requires l > 0.0
    ensures (s - d / l) * ((s + d / l) * l - 2.0 * d) >= 0.0
  {
    var t := d / l;
    assert t * l == d;
    assert (s + t) * l - 2.0 * d == (s - t) * l;
    ProductNonNegative((s - t) * (s - t), l);
    assert (s - t) * ((s - t) * l) == ((s - t) * (s - t)) * l;
  }

  /** The clamped projection is the point of the segment nearest to c. */
  lemma ClosestIsNearest(c: Point, p1: Point, p2: Point, s: real)
    requires SegLenSq(p1, p2) > 0.0 && 0.0 <= s <= 1.0
    ensures SqDist(c, PointAt(p1, p2, ClosestParam(c, p1, p2))) <= SqDist(c, PointAt(p1, p2, s))
  {
    var l := SegLenSq(p1, p2);
    var d := SegDot(c, p1, p2);
    var t := ClosestParam(c, p1, p2);
    DistDifference(c, p1, p2, s, t);
    if d / l < 0.0 {
      BeforeStart(l, d, s);
    } else if d / l > 1.0 {
      PastEnd(l, d, s);
    } else {
      AtVertex(l, d, s);
    }
  }

  /** The test is exact: a segment hits the circle of radius r + 40 around
      c exactly when some point of the segment lies strictly inside it. A
      hit always has such a point; a degenerate segment is measured from
      p1. */
  lemma CircleLineIntersectWitness(c: Point, r: real, p1: Point, p2: Point)
    ensures CircleLineIntersect(c, r, p1, p2) ==>
      exists s :: 0.0 <= s <= 1.0 && Below(SqDist(c, PointAt(p1, p2, s)), r + 40.0)
    ensures SegLenSq(p1, p2) > 0.0 ==>
      (CircleLineIntersect(c, r, p1, p2) <==>
         exists s :: 0.0 <= s <= 1.0 && Below(SqDist(c, PointAt(p1, p2, s)), r + 40.0))
    ensures SegLenSq(p1, p2) == 0.0 ==>
      (CircleLineIntersect(c, r, p1, p2) <==> Below(SqDist(c, p1), r + 40.0))
  {
    var t := ClosestParam(c, p1, p2);
    if SegLenSq(p1, p2) == 0.0 {
      assert PointAt(p1, p2, t) == p1;
    } else if SegLenSq(p1, p2) > 0.0 &&
              exists s :: 0.0 <= s <= 1.0 && Below(SqDist(c, PointAt(p1, p2, s)), r + 40.0) {
      var s :| 0.0 <= s <= 1.0 && Below(SqDist(c, PointAt(p1, p2, s)), r + 40.0);
      ClosestIsNearest(c, p1, p2, s);
    }
  }

  /** `isCollidingWithPath`: some pair of consecutive waypoints makes a hit. */
  ghost predicate PathHit(c: Point, r: real, path: seq<Point>)
  {
    exists i :: 0 <= i < |path| - 1 && CircleLineIntersect(c, r, path[i], path[i + 1])
  }

  /** `getAbsoluteWaypoints`: each normalised waypoint scaled by the canvas
      width and height, in the same order. */
  function AbsoluteWaypoints(points: seq<Point>, width: real, height: real): (r: seq<Point>)
    ensures |r| == |points|
    ensures forall i :: 0 <= i < |points| ==> r[i] == Point(points[i].x * width, points[i].y * height)
  {
    seq(|points|, i requires 0 <= i < |points| => Point(points[i].x * width, points[i].y * height))
  }
}
