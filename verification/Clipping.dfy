/** Polygon clipping and intersection over union (evaluation/metrics.py). Coordinates are exact reals; the
    area tolerance of the source is kept. */
module Clipping {
  import opened Reals

  datatype Point = Point(x: real, y: real)

  type Polygon = seq<Point>

  const AREA_EPS: real := 0.000000000000000001

  // ----- area ------------------------------------------------------------------------------------------------

  /** `_open_ring` */
  function OpenRing(p: Polygon): Polygon {
    if |p| >= 2 && p[0] == p[|p| - 1] then p[..|p| - 1] else p
  }

  function Wedge(a: Point, b: Point): real {
    a.x * b.y - b.x * a.y
  }

  function LastOf(prev: Point, p: Polygon): Point {
    if p == [] then prev else p[|p| - 1]
  }

  /** The shoelace terms of the steps from prev through p. */
  function Trail(prev: Point, p: Polygon): real {
    if p == [] then 0.0
    else Trail(prev, p[..|p| - 1]) + Wedge(LastOf(prev, p[..|p| - 1]), p[|p| - 1])
  }

  /** The shoelace sum of the closed polygon. */
  function Loop(p: Polygon): real {
    if p == [] then 0.0 else Trail(p[|p| - 1], p)
  }

  /** `_signed_area` */
  function SignedArea(p: Polygon): real {
    var ring := OpenRing(p);
    if |ring| < 3 then 0.0 else Loop(ring) / 2.0
  }

  /** `_polygon_area` */
  function PolygonArea(p: Polygon): real {
    if SignedArea(p) < 0.0 then -SignedArea(p) else SignedArea(p)
  }

  function Reverse(p: Polygon): Polygon {
    if p == [] then [] else [p[|p| - 1]] + Reverse(p[..|p| - 1])
  }

  /** `_oriented_ccw` */
  function Oriented(p: Polygon): Polygon {
    var ring := OpenRing(p);
    if SignedArea(ring) < 0.0 then Reverse(ring) else ring
  }

  // ----- one half-plane --------------------------------------------------------------------------------------

  /** Positive to the left of the directed edge. */
  function Cross(s: Point, e: Point, p: Point): real {
    (e.x - s.x) * (p.y - s.y) - (e.y - s.y) * (p.x - s.x)
  }

  function Between(a: Point, b: Point, t: real): Point {
    Point(a.x + t * (b.x - a.x), a.y + t * (b.y - a.y))
  }

  /** `_intersect`; a step of almost no height across the edge stays where it started. */
  function Meet(s: Point, e: Point, a: Point, b: Point): Point {
    var da, db := Cross(s, e, a), Cross(s, e, b);
    if -AREA_EPS < da - db < AREA_EPS then a else Between(a, b, Max(0.0, Min(1.0, da / (da - db))))
  }

  predicate Inside(s: Point, e: Point, p: Point) {
    Cross(s, e, p) >= 0.0
  }

  /** What one vertex adds to the result. */
  function Emit(s: Point, e: Point, prev: Point, cur: Point): Polygon {
    if Inside(s, e, cur) then (if Inside(s, e, prev) then [cur] else [Meet(s, e, prev, cur), cur])
    else if Inside(s, e, prev) then [Meet(s, e, prev, cur)]
    else []
  }

  function Emits(s: Point, e: Point, prev: Point, p: Polygon): Polygon {
    if p == [] then []
    else Emits(s, e, prev, p[..|p| - 1]) + Emit(s, e, LastOf(prev, p[..|p| - 1]), p[|p| - 1])
  }

  function Clip(s: Point, e: Point, p: Polygon): Polygon {
    if p == [] then [] else Emits(s, e, p[|p| - 1], p)
  }

  /** `_clip_by_halfplane` */
  method ClipByHalfplane(polygon: Polygon, s: Point, e: Point) returns (result: Polygon)
    ensures result == Clip(s, e, polygon)
  {
    hide Meet; hide Inside;
    result := [];
    for i := 0 to |polygon|
      invariant polygon != [] ==> result == Emits(s, e, polygon[|polygon| - 1], polygon[..i])
      invariant polygon == [] ==> result == []
    {
      var current := polygon[i];
      var previous := if i == 0 then polygon[|polygon| - 1] else polygon[i - 1];
      assert polygon[..i + 1][..i] == polygon[..i];
      if Inside(s, e, current) {
        if !Inside(s, e, previous) {
          result := result + [Meet(s, e, previous, current)];
        }
        result := result + [current];
      } else if Inside(s, e, previous) {
        result := result + [Meet(s, e, previous, current)];
      }
    }
    assert polygon[..|polygon|] == polygon;
  }

  // ----- all half-planes of a ring --------------------------------------------------------------------------

  function Next(ring: Polygon, k: nat): Point
    requires k < |ring|
  {
    ring[if k + 1 == |ring| then 0 else k + 1]
  }

  function ClipAll(p: Polygon, ring: Polygon, n: nat): Polygon
    requires n <= |ring|
  {
    if n == 0 then p else Clip(ring[n - 1], Next(ring, n - 1), ClipAll(p, ring, n - 1))
  }

  function Intersection(subject: Polygon, clip: Polygon): Polygon {
    var ring := Oriented(clip);
    if |ring| < 3 then [] else ClipAll(subject, ring, |ring|)
  }

  lemma {:induction false} EmptyStays(p: Polygon, ring: Polygon, n: nat, m: nat)
    requires n <= m <= |ring| && ClipAll(p, ring, n) == []
    ensures ClipAll(p, ring, m) == []
  {
    hide Emits;
    if n < m {
      EmptyStays(p, ring, n, m - 1);
    }
  }

  /** `_intersect_polygons` */
  method IntersectPolygons(subject: Polygon, clip: Polygon) returns (output: Polygon)
    ensures output == Intersection(subject, clip)
  {
    hide Clip; hide Oriented;
    output := subject;
    var ring := Oriented(clip);
    if |ring| < 3 {
      return [];
    }
    for i := 0 to |ring|
      invariant output == ClipAll(subject, ring, i)
    {
      if output == [] {
        EmptyStays(subject, ring, i, |ring|);
        return [];
      }
      output := ClipByHalfplane(output, ring[i], Next(ring, i));
    }
  }

  /** `iou`; every real is finite. */
  function IoU(a: Polygon, b: Polygon): real {
    var left, right := Oriented(a), Oriented(b);
    var areaA, areaB := PolygonArea(left), PolygonArea(right);
    if areaA <= AREA_EPS || areaB <= AREA_EPS then 0.0
    else
      var inter := PolygonArea(Intersection(left, right));
      var union_ := areaA + areaB - inter;
      if union_ <= AREA_EPS then 0.0 else Max(0.0, Min(1.0, inter / union_))
  }

  // ----- soundness of clipping -------------------------------------------------------------------------------

  /** The points with a * x + b * y >= c. */
  datatype HalfPlane = HalfPlane(a: real, b: real, c: real)

  predicate Holds(h: HalfPlane, p: Point) {
    h.a * p.x + h.b * p.y >= h.c
  }

  ghost predicate AllHold(h: HalfPlane, p: Polygon) {
    forall q | q in p :: Holds(h, q)
  }

  lemma BetweenHolds(h: HalfPlane, a: Point, b: Point, t: real)
    requires Holds(h, a) && Holds(h, b) && 0.0 <= t <= 1.0
    ensures Holds(h, Between(a, b, t))
  {
    var va, vb := h.a * a.x + h.b * a.y, h.a * b.x + h.b * b.y;
    var q := Between(a, b, t);
    ProductNonNegative(1.0 - t, va - h.c);
    ProductNonNegative(t, vb - h.c);
    assert h.a * q.x + h.b * q.y - h.c == (1.0 - t) * (va - h.c) + t * (vb - h.c);
  }

  lemma MeetHolds(h: HalfPlane, s: Point, e: Point, a: Point, b: Point)
    requires Holds(h, a) && Holds(h, b)
    ensures Holds(h, Meet(s, e, a, b))
  {
    hide Holds; hide Cross; hide Between;
    var da, db := Cross(s, e, a), Cross(s, e, b);
    if !(-AREA_EPS < da - db < AREA_EPS) {
      BetweenHolds(h, a, b, Max(0.0, Min(1.0, da / (da - db))));
    }
  }

  /** The half-plane of an edge, widened by the tolerance. */
  function EdgePlane(s: Point, e: Point): HalfPlane {
    HalfPlane(s.y - e.y, e.x - s.x, (e.x - s.x) * s.y - (e.y - s.y) * s.x - AREA_EPS)
  }

  lemma EdgePlaneMeaning(s: Point, e: Point, p: Point)
    ensures Holds(EdgePlane(s, e), p) <==> Cross(s, e, p) >= -AREA_EPS
  {
  }

  lemma CrossBetween(s: Point, e: Point, a: Point, b: Point, t: real)
    ensures Cross(s, e, Between(a, b, t)) == Cross(s, e, a) - t * (Cross(s, e, a) - Cross(s, e, b))
  {
    var q := Between(a, b, t);
    var ex, ey := e.x - s.x, e.y - s.y;
    assert q.y - s.y == (a.y - s.y) + t * (b.y - a.y);
    assert q.x - s.x == (a.x - s.x) + t * (b.x - a.x);
    assert ex * (q.y - s.y) == ex * (a.y - s.y) + t * (ex * (b.y - a.y));
    assert ey * (q.x - s.x) == ey * (a.x - s.x) + t * (ey * (b.x - a.x));
    assert Cross(s, e, b) - Cross(s, e, a) == ex * (b.y - a.y) - ey * (b.x - a.x);
  }

  lemma RatioInside(da: real, db: real)
    requires (da < 0.0 <= db) || (db < 0.0 <= da)
    ensures da != db && 0.0 <= da / (da - db) <= 1.0 && (da / (da - db)) * (da - db) == da
  {
    var t, d := da / (da - db), da - db;
    assert t * d == da;
    assert (1.0 - t) * d == d - t * d;
    if da < 0.0 {
      SignOfFactor(t, -d);
      SignOfFactor(1.0 - t, -d);
      assert t * (-d) == -(t * d) && (1.0 - t) * (-d) == -((1.0 - t) * d);
    } else {
      SignOfFactor(t, d);
      SignOfFactor(1.0 - t, d);
    }
  }

  /** A step across the edge meets it exactly, or stays at a start within the tolerance. */
  lemma MeetOnEdge(s: Point, e: Point, a: Point, b: Point)
    requires Inside(s, e, a) != Inside(s, e, b)
    ensures var m := Meet(s, e, a, b);
            if -AREA_EPS < Cross(s, e, a) - Cross(s, e, b) < AREA_EPS then m == a && Cross(s, e, m) > -AREA_EPS
            else Cross(s, e, m) == 0.0
  {
    var da, db := Cross(s, e, a), Cross(s, e, b);
    RatioInside(da, db);
    CrossBetween(s, e, a, b, da / (da - db));
    hide Cross; hide Between;
  }

  /** Every vertex of the result lies in the half-plane of the edge, up to the tolerance. */
  lemma {:induction false} EmitsInside(s: Point, e: Point, prev: Point, p: Polygon)
    ensures AllHold(EdgePlane(s, e), Emits(s, e, prev, p))
  {
    hide Cross; hide Meet; hide Holds;
    if p != [] {
      var init, cur := p[..|p| - 1], p[|p| - 1];
      EmitsInside(s, e, prev, init);
      var before := LastOf(prev, init);
      if Inside(s, e, before) != Inside(s, e, cur) {
        MeetOnEdge(s, e, before, cur);
        EdgePlaneMeaning(s, e, Meet(s, e, before, cur));
      }
      EdgePlaneMeaning(s, e, cur);
    }
  }

  /** Clipping never leaves a half-plane that contains the whole subject. */
  lemma {:induction false} EmitsHold(h: HalfPlane, s: Point, e: Point, prev: Point, p: Polygon)
    requires AllHold(h, p) && Holds(h, prev)
    ensures AllHold(h, Emits(s, e, prev, p))
  {
    hide Inside; hide Meet; hide Holds;
    if p != [] {
      var init, cur := p[..|p| - 1], p[|p| - 1];
      assert cur in p && forall q | q in init :: q in p;
      EmitsHold(h, s, e, prev, init);
      var before := LastOf(prev, init);
      assert Holds(h, before) by {
        if init != [] { assert before in init; }
      }
      MeetHolds(h, s, e, before, cur);
    }
  }

  lemma ClipHolds(h: HalfPlane, s: Point, e: Point, p: Polygon)
    requires AllHold(h, p)
    ensures AllHold(h, Clip(s, e, p))
  {
    hide Holds; hide Emits;
    if p != [] {
      assert p[|p| - 1] in p;
      EmitsHold(h, s, e, p[|p| - 1], p);
    }
  }

  lemma ClipInside(s: Point, e: Point, p: Polygon)
    ensures AllHold(EdgePlane(s, e), Clip(s, e, p))
  {
    if p != [] {
      EmitsInside(s, e, p[|p| - 1], p);
    }
  }

  lemma {:induction false} ClipAllHolds(h: HalfPlane, p: Polygon, ring: Polygon, n: nat)
    requires n <= |ring| && AllHold(h, p)
    ensures AllHold(h, ClipAll(p, ring, n))
  {
    hide Clip; hide Holds;
    if n > 0 {
      ClipAllHolds(h, p, ring, n - 1);
      ClipHolds(h, ring[n - 1], Next(ring, n - 1), ClipAll(p, ring, n - 1));
    }
  }

  lemma {:induction false} ClipAllInside(p: Polygon, ring: Polygon, n: nat, k: nat)
    requires k < n <= |ring|
    ensures AllHold(EdgePlane(ring[k], Next(ring, k)), ClipAll(p, ring, n))
  {
    hide Clip; hide EdgePlane; hide AllHold;
    if k == n - 1 {
      ClipInside(ring[k], Next(ring, k), ClipAll(p, ring, n - 1));
    } else {
      ClipAllInside(p, ring, n - 1, k);
      ClipHolds(EdgePlane(ring[k], Next(ring, k)), ring[n - 1], Next(ring, n - 1), ClipAll(p, ring, n - 1));
    }
  }

  /** Every vertex of an intersection is left of every edge of the clip up to the tolerance, for concave
      clips too, and lies in every half-plane that contains the whole subject. */
  lemma IntersectionSound(subject: Polygon, clip: Polygon, q: Point)
    requires q in Intersection(subject, clip)
    ensures forall k | 0 <= k < |Oriented(clip)| :: Cross(Oriented(clip)[k], Next(Oriented(clip), k), q) >= -AREA_EPS
    ensures forall h :: AllHold(h, subject) ==> Holds(h, q)
  {
    var ring := Oriented(clip);
    hide Cross; hide Oriented; hide ClipAll; hide Holds; hide EdgePlane;
    forall k | 0 <= k < |ring| ensures Cross(ring[k], Next(ring, k), q) >= -AREA_EPS {
      ClipAllInside(subject, ring, |ring|, k);
      EdgePlaneMeaning(ring[k], Next(ring, k), q);
    }
    forall h | AllHold(h, subject) ensures Holds(h, q) {
      ClipAllHolds(h, subject, ring, |ring|);
    }
  }

  // ----- a convex ring and itself ------------------------------------------------------------------------------

  lemma {:induction false} AllInsideKept(s: Point, e: Point, prev: Point, p: Polygon)
    requires Inside(s, e, prev) && forall q | q in p :: Inside(s, e, q)
    ensures Emits(s, e, prev, p) == p
  {
    hide Inside; hide Meet;
    if p != [] {
      var init, cur := p[..|p| - 1], p[|p| - 1];
      assert cur in p && p == init + [cur];
      AllInsideKept(s, e, prev, init);
      assert init != [] ==> LastOf(prev, init) in init;
    }
  }

  lemma {:induction false} AllInsideUnchanged(p: Polygon, ring: Polygon, n: nat)
    requires n <= |ring| && forall k, q | 0 <= k < |ring| && q in p :: Inside(ring[k], Next(ring, k), q)
    ensures ClipAll(p, ring, n) == p
  {
    hide Inside; hide Emits;
    if n > 0 {
      AllInsideUnchanged(p, ring, n - 1);
      if p != [] {
        assert p[|p| - 1] in p;
        AllInsideKept(ring[n - 1], Next(ring, n - 1), p[|p| - 1], p);
      }
    }
  }
}
