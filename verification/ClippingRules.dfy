/** Closed rings and degenerate polygons in `iou` (element_match.py). */
module ClippingRules {
  import opened Clipping

  /** Repeating the first vertex at the end changes nothing: not the area, not the orientation, not the clipping,
      not the quotient. */
  lemma ClosingChangesNothing(p: Polygon, q: Polygon)
    requires p != [] && OpenRing(p) == p
    ensures var closed := p + [p[0]];
            && OpenRing(closed) == p && SignedArea(closed) == SignedArea(p) && PolygonArea(closed) == PolygonArea(p)
            && Oriented(closed) == Oriented(p) && Intersection(q, closed) == Intersection(q, p)
            && IoU(closed, q) == IoU(p, q) && IoU(q, closed) == IoU(q, p)
  {
    OpensToRing(p);
    hide OpenRing;
    SameRing(p + [p[0]], p);
    hide *;
    SameOriented(p + [p[0]], p, q);
  }

  lemma OpensToRing(p: Polygon)
    requires p != [] && OpenRing(p) == p
    ensures OpenRing(p + [p[0]]) == p
  {
    var closed := p + [p[0]];
    assert closed[..|closed| - 1] == p;
  }

  lemma SameRing(a: Polygon, b: Polygon)
    requires OpenRing(a) == OpenRing(b)
    ensures SignedArea(a) == SignedArea(b) && PolygonArea(a) == PolygonArea(b) && Oriented(a) == Oriented(b)
  {
    hide OpenRing; hide Loop; hide Reverse;
  }

  lemma SameOriented(a: Polygon, b: Polygon, q: Polygon)
    requires Oriented(a) == Oriented(b)
    ensures Intersection(q, a) == Intersection(q, b) && IoU(a, q) == IoU(b, q) && IoU(q, a) == IoU(q, b)
  {
    hide Oriented; hide PolygonArea; hide ClipAll;
  }

  /** A polygon is open when it has one vertex or ends elsewhere than it begins. */
  lemma OpenExactly(p: Polygon)
    ensures OpenRing(p) == p <==> |p| <= 1 || p[0] != p[|p| - 1]
    ensures OpenRing(p) != p ==> p == OpenRing(p) + [p[0]]
  {
    if |p| >= 2 && p[0] == p[|p| - 1] {
      assert |OpenRing(p)| == |p| - 1;
    }
  }

  /** The quotient: none for a polygon without area or a union without area, otherwise the common area over the area
      of the union, kept between zero and one. */
  lemma QuotientExactly(a: Polygon, b: Polygon)
    ensures var eps := 0.000000000000000001;
            var left, right := Oriented(a), Oriented(b);
            var common := PolygonArea(Intersection(left, right));
            var all := PolygonArea(left) + PolygonArea(right) - common;
            if PolygonArea(left) <= eps || PolygonArea(right) <= eps || all <= eps then IoU(a, b) == 0.0
            else if common < 0.0 then IoU(a, b) == 0.0
            else if common > all then IoU(a, b) == 1.0
            else IoU(a, b) * all == common && 0.0 <= IoU(a, b) <= 1.0
  {
    hide PolygonArea; hide Oriented; hide Intersection;
    var left, right := Oriented(a), Oriented(b);
    var common := PolygonArea(Intersection(left, right));
    var all := PolygonArea(left) + PolygonArea(right) - common;
    if all > AREA_EPS {
      Ratio(common, all);
    }
  }

  lemma Ratio(x: real, y: real)
    requires y > 0.0
    ensures (x / y) * y == x && (x < 0.0 <==> x / y < 0.0) && (x > y <==> x / y > 1.0)
  {
    var q := x / y;
    assert q * y == x;
    if q > 1.0 {
      assert (q - 1.0) * y > 0.0;
    }
    if q <= 1.0 {
      assert (1.0 - q) * y >= 0.0;
    }
    if q < 0.0 {
      assert (-q) * y > 0.0;
    }
  }

  /** Fewer than three vertices have no area and clip everything away. */
  lemma TooFewVertices(p: Polygon, q: Polygon)
    requires |OpenRing(p)| < 3
    ensures SignedArea(p) == 0.0 && PolygonArea(p) == 0.0 && Intersection(q, p) == []
    ensures IoU(p, q) == 0.0 && IoU(q, p) == 0.0
  {
    OrientedFew(p);
    hide ClipAll; hide Loop;
    assert PolygonArea(Oriented(p)) == 0.0;
  }

  lemma OrientedFew(p: Polygon)
    requires |OpenRing(p)| < 3
    ensures Oriented(p) == OpenRing(p) && SignedArea(Oriented(p)) == 0.0
  {
    var ring := OpenRing(p);
    assert |OpenRing(ring)| <= |ring|;
    hide Loop; hide Reverse;
  }
}
