/** A convex ring, in either orientation and open or closed, has an intersection over union of exactly one
    with itself and with its reversal. */
module ConvexRings {
  import opened Clipping

  // ----- the loop sum ----------------------------------------------------------------------------------------

  lemma {:induction false} TrailHead(x: Point, y: Point, p: Polygon)
    requires p != []
    ensures Trail(x, p) - Wedge(x, p[0]) == Trail(y, p) - Wedge(y, p[0])
  {
    hide Wedge;
    if |p| > 1 {
      TrailHead(x, y, p[..|p| - 1]);
    }
  }

  /** A repeated closing vertex adds nothing. */
  lemma LoopOfOpen(p: Polygon)
    ensures Loop(OpenRing(p)) == Loop(p)
  {
    if |p| >= 2 && p[0] == p[|p| - 1] {
      var init := p[..|p| - 1];
      TrailHead(p[|p| - 1], init[|init| - 1], init);
    }
  }

  lemma FewPoints(p: Polygon)
    requires |p| < 3
    ensures Loop(p) == 0.0
  {
    hide Wedge;
    if p != [] {
      var a := [p[0]];
      assert a[..0] == [];
      assert forall x :: Trail(x, a) == Wedge(x, p[0]);
      assert |p| == 1 ==> p == a;
      assert |p| == 2 ==> p[..1] == a;
      WedgeFlips(p[0], p[|p| - 1]);
      WedgeFlips(p[0], p[0]);
    }
  }

  /** The signed area is half the loop sum, whatever the number of vertices and however closed. */
  lemma AreaIsLoop(p: Polygon)
    ensures SignedArea(p) == Loop(p) / 2.0
  {
    LoopOfOpen(p);
    if |OpenRing(p)| < 3 {
      FewPoints(OpenRing(p));
    }
    hide Loop; hide OpenRing;
  }

  lemma {:induction false} TrailConcat(prev: Point, a: Polygon, b: Polygon)
    ensures Trail(prev, a + b) == Trail(prev, a) + Trail(LastOf(prev, a), b)
  {
    hide Wedge;
    if b == [] {
      assert a + b == a;
    } else {
      var init, last := b[..|b| - 1], b[|b| - 1];
      TrailConcat(prev, a, init);
      assert (a + b)[..|a + b| - 1] == a + init;
      assert LastOf(prev, a + init) == LastOf(LastOf(prev, a), init);
    }
  }

  lemma {:induction false} ReverseEnds(p: Polygon)
    requires p != []
    ensures |Reverse(p)| == |p| && Reverse(p)[0] == p[|p| - 1] && Reverse(p)[|p| - 1] == p[0]
  {
    if |p| > 1 {
      ReverseEnds(p[..|p| - 1]);
    }
  }

  lemma {:induction false} ReverseAt(p: Polygon, k: nat)
    requires k < |p|
    ensures |Reverse(p)| == |p| && Reverse(p)[k] == p[|p| - 1 - k]
  {
    ReverseEnds(p);
    if k > 0 {
      ReverseAt(p[..|p| - 1], k - 1);
    }
  }

  /** The steps inside the list, without the closing one. */
  function Inner(p: Polygon): real {
    if p == [] then 0.0 else Trail(p[0], p)
  }

  lemma LoopIsInner(p: Polygon)
    requires p != []
    ensures Loop(p) == Inner(p) + Wedge(p[|p| - 1], p[0])
  {
    TrailHead(p[|p| - 1], p[0], p);
  }

  lemma InnerCons(x: Point, p: Polygon)
    requires p != []
    ensures Inner([x] + p) == Wedge(x, p[0]) + Inner(p)
  {
    TrailConcat(x, [x], p);
    TrailHead(x, p[0], p);
    assert [x][..0] == [];
    assert Wedge(x, x) == 0.0 && Wedge(p[0], p[0]) == 0.0;
    hide Wedge;
  }

  lemma {:induction false} InnerReverse(p: Polygon)
    ensures Inner(Reverse(p)) == -Inner(p)
  {
    hide Wedge;
    if |p| > 1 {
      var init, last := p[..|p| - 1], p[|p| - 1];
      InnerReverse(init);
      ReverseEnds(init);
      InnerCons(last, Reverse(init));
      WedgeFlips(last, init[|init| - 1]);
    } else if |p| == 1 {
      WedgeFlips(p[0], p[0]);
      assert Reverse(p) == [p[0]] + Reverse(p[..0]);
      assert Reverse(p) == p;
      assert Inner(p) == Trail(p[0], p[..0]) + Wedge(p[0], p[0]);
    }
  }

  lemma WedgeFlips(a: Point, b: Point)
    ensures Wedge(a, b) == -Wedge(b, a)
  {
  }

  lemma LoopReverse(p: Polygon)
    ensures Loop(Reverse(p)) == -Loop(p)
  {
    if p != [] {
      ReverseEnds(p);
      LoopIsInner(p);
      LoopIsInner(Reverse(p));
      InnerReverse(p);
      WedgeFlips(p[0], p[|p| - 1]);
      hide Wedge; hide Loop; hide Inner; hide Reverse;
    }
  }

  // ----- sides of all edges -----------------------------------------------------------------------------------

  ghost predicate LeftOf(ring: Polygon, points: Polygon) {
    forall k, q | 0 <= k < |ring| && q in points :: Cross(ring[k], Next(ring, k), q) >= 0.0
  }

  ghost predicate RightOf(ring: Polygon, points: Polygon) {
    forall k, q | 0 <= k < |ring| && q in points :: Cross(ring[k], Next(ring, k), q) <= 0.0
  }

  /** No vertex on the wrong side of an edge, for one of the two orientations. */
  ghost predicate Convex(p: Polygon) {
    LeftOf(p, p) || RightOf(p, p)
  }

  lemma OpenSides(p: Polygon, points: Polygon)
    ensures LeftOf(p, points) ==> LeftOf(OpenRing(p), points)
    ensures RightOf(p, points) ==> RightOf(OpenRing(p), points)
  {
    hide Cross;
    var ring := OpenRing(p);
    forall k | 0 <= k < |ring| ensures ring[k] == p[k] && Next(ring, k) == Next(p, k) {}
  }

  lemma CrossFlips(a: Point, b: Point, q: Point)
    ensures Cross(b, a, q) == -Cross(a, b, q)
  {
    var ex, ey := b.x - a.x, b.y - a.y;
    assert Cross(a, b, q) == ex * (q.y - a.y) - ey * (q.x - a.x);
    assert q.y - b.y == (q.y - a.y) - ey && q.x - b.x == (q.x - a.x) - ex;
    assert Cross(b, a, q) == (-ex) * ((q.y - a.y) - ey) - (-ey) * ((q.x - a.x) - ex);
    assert (-ex) * ((q.y - a.y) - ey) == -(ex * (q.y - a.y)) + ex * ey;
    assert (-ey) * ((q.x - a.x) - ex) == -(ey * (q.x - a.x)) + ey * ex;
  }

  /** An edge of the reversal is an edge walked backwards. */
  lemma ReverseEdge(p: Polygon, k: nat) returns (j: nat)
    requires k < |p|
    ensures |Reverse(p)| == |p| && j < |p| && Reverse(p)[k] == Next(p, j) && Next(Reverse(p), k) == p[j]
  {
    ReverseAt(p, k);
    var n := |p|;
    if k + 1 == n {
      ReverseAt(p, 0);
      j := n - 1;
    } else {
      ReverseAt(p, k + 1);
      j := n - 2 - k;
    }
  }

  lemma ReverseSides(p: Polygon, points: Polygon)
    ensures RightOf(p, points) ==> LeftOf(Reverse(p), points)
    ensures LeftOf(p, points) ==> RightOf(Reverse(p), points)
  {
    hide Cross; hide Reverse;
    var r := Reverse(p);
    if p != [] { ReverseEnds(p); } else { ReverseNothing(); }
    forall k, q | 0 <= k < |r| && q in points
      ensures RightOf(p, points) ==> Cross(r[k], Next(r, k), q) >= 0.0
      ensures LeftOf(p, points) ==> Cross(r[k], Next(r, k), q) <= 0.0
    {
      var j := ReverseEdge(p, k);
      CrossFlips(p[j], Next(p, j), q);
    }
  }

  lemma ReverseNothing()
    ensures Reverse([]) == []
  {
  }

  /** The triangles of all steps with one point add up to the loop sum. */
  function Fan(v: Point, prev: Point, p: Polygon): real {
    if p == [] then 0.0
    else Fan(v, prev, p[..|p| - 1]) + Cross(LastOf(prev, p[..|p| - 1]), p[|p| - 1], v)
  }

  lemma CrossIsWedges(a: Point, b: Point, v: Point)
    ensures Cross(a, b, v) == Wedge(a, b) + Wedge(b, v) - Wedge(a, v)
  {
    assert (b.x - a.x) * (v.y - a.y) == b.x * v.y - b.x * a.y - a.x * v.y + a.x * a.y;
    assert (b.y - a.y) * (v.x - a.x) == b.y * v.x - b.y * a.x - a.y * v.x + a.y * a.x;
  }

  lemma {:induction false} FanIsTrail(v: Point, prev: Point, p: Polygon)
    ensures Fan(v, prev, p) == Trail(prev, p) + Wedge(LastOf(prev, p), v) - Wedge(prev, v)
  {
    hide Wedge; hide Cross;
    if p != [] {
      var init := p[..|p| - 1];
      FanIsTrail(v, prev, init);
      CrossIsWedges(LastOf(prev, init), p[|p| - 1], v);
    }
  }

  lemma {:induction false} FanSign(ring: Polygon, n: nat, v: Point, points: Polygon)
    requires n <= |ring| && v in points && ring != []
    ensures LeftOf(ring, points) ==> Fan(v, ring[|ring| - 1], ring[..n]) >= 0.0
    ensures RightOf(ring, points) ==> Fan(v, ring[|ring| - 1], ring[..n]) <= 0.0
  {
    hide Cross;
    if n > 0 {
      FanSign(ring, n - 1, v, points);
      var k := if n == 1 then |ring| - 1 else n - 2;
      assert ring[..n][..n - 1] == ring[..n - 1];
      assert LastOf(ring[|ring| - 1], ring[..n - 1]) == ring[k] && Next(ring, k) == ring[n - 1];
    }
  }

  lemma LoopSign(ring: Polygon, v: Point, points: Polygon)
    requires v in points
    ensures LeftOf(ring, points) ==> Loop(ring) >= 0.0
    ensures RightOf(ring, points) ==> Loop(ring) <= 0.0
  {
    if ring != [] {
      FanSign(ring, |ring|, v, points);
      assert ring[..|ring|] == ring;
      FanIsTrail(v, ring[|ring| - 1], ring);
      hide Fan; hide Trail; hide LeftOf; hide RightOf; hide Wedge;
    }
  }

  /** Orientation puts the points on the left of every edge, if they were on one side of all of them. */
  lemma OrientedLeft(p: Polygon, v: Point, points: Polygon)
    requires v in points && Loop(p) != 0.0 && (LeftOf(p, points) || RightOf(p, points))
    ensures LeftOf(Oriented(p), points)
    ensures Loop(Oriented(p)) == if Loop(p) < 0.0 then -Loop(p) else Loop(p)
  {
    var ring := OpenRing(p);
    OpenSides(p, points);
    LoopOfOpen(p);
    LoopSign(p, v, points);
    AreaIsLoop(ring);
    ReverseSides(ring, points);
    LoopReverse(ring);
    hide OpenRing; hide Loop; hide LeftOf; hide RightOf; hide Reverse; hide SignedArea;
  }

  lemma {:induction false} ReverseMembers(p: Polygon)
    ensures forall q :: q in Reverse(p) <==> q in p
  {
    if p != [] {
      ReverseMembers(p[..|p| - 1]);
      assert p == p[..|p| - 1] + [p[|p| - 1]];
    }
  }

  lemma OrientedMembers(p: Polygon, q: Point)
    requires q in Oriented(p)
    ensures q in p
  {
    ReverseMembers(OpenRing(p));
  }

  lemma ClippedByAround(left: Polygon, right: Polygon)
    requires LeftOf(Oriented(right), left) && |Oriented(right)| >= 3
    ensures Intersection(left, right) == left
  {
    var ring := Oriented(right);
    hide Cross; hide Oriented; hide ClipAll;
    assert forall k, q | 0 <= k < |ring| && q in left :: Inside(ring[k], Next(ring, k), q);
    AllInsideUnchanged(left, ring, |ring|);
  }

  lemma WideEnough(p: Polygon)
    requires Loop(p) != 0.0
    ensures |Oriented(p)| >= 3
  {
    LoopOfOpen(p);
    if |OpenRing(p)| < 3 {
      FewPoints(OpenRing(p));
    } else {
      ReverseEnds(OpenRing(p));
    }
    hide Loop; hide SignedArea;
  }

  lemma LeftOfPart(ring: Polygon, points: Polygon, part: Polygon)
    requires LeftOf(ring, points) && forall q | q in part :: q in points
    ensures LeftOf(ring, part)
  {
    hide Cross;
  }

  /** Same vertices, same loop sum up to sign, all vertices on one side of all edges of either: the
      intersection is the oriented ring itself, and the quotient is one. */
  lemma SameOutline(p: Polygon, q: Polygon)
    requires (LeftOf(q, p) || RightOf(q, p)) && (LeftOf(p, p) || RightOf(p, p))
    requires (Loop(q) == Loop(p) || Loop(q) == -Loop(p)) && PolygonArea(p) > AREA_EPS
    ensures Intersection(Oriented(p), Oriented(q)) == Oriented(p)
    ensures IoU(p, q) == 1.0
  {
    AreaIsLoop(p);
    hide *;
    SameIntersection(p, q);
    var left, right := Oriented(p), Oriented(q);
    SameAreas(p, q);
    QuotientOfSame(p, q, left, right);
  }

  lemma QuotientOfSame(p: Polygon, q: Polygon, left: Polygon, right: Polygon)
    requires left == Oriented(p) && right == Oriented(q) && Intersection(left, right) == left
    requires PolygonArea(left) == PolygonArea(right) > AREA_EPS
    ensures IoU(p, q) == 1.0
  {
    hide Oriented; hide PolygonArea; hide Intersection;
    FullQuotient(PolygonArea(left));
  }

  lemma SameAreas(p: Polygon, q: Polygon)
    requires (LeftOf(q, p) || RightOf(q, p)) && (LeftOf(p, p) || RightOf(p, p))
    requires (Loop(q) == Loop(p) || Loop(q) == -Loop(p)) && Loop(p) != 0.0
    ensures PolygonArea(Oriented(p)) == PolygonArea(Oriented(q)) == PolygonArea(p)
  {
    hide Loop; hide LeftOf; hide RightOf; hide Oriented; hide SignedArea;
    SomePoint(p);
    OrientedLeft(p, p[0], p);
    OrientedLeft(q, p[0], p);
    AreaIsLoop(p);
    AreaIsLoop(Oriented(p));
    AreaIsLoop(Oriented(q));
  }

  lemma SameIntersection(p: Polygon, q: Polygon)
    requires (LeftOf(q, p) || RightOf(q, p)) && (LeftOf(p, p) || RightOf(p, p))
    requires (Loop(q) == Loop(p) || Loop(q) == -Loop(p)) && PolygonArea(p) > AREA_EPS
    ensures Loop(p) != 0.0
    ensures Intersection(Oriented(p), Oriented(q)) == Oriented(p)
  {
    AreaIsLoop(p);
    assert Loop(p) != 0.0;
    SomePoint(p);
    var left, right, v := Oriented(p), Oriented(q), p[0];
    hide Loop; hide LeftOf; hide RightOf; hide Oriented; hide Intersection; hide SignedArea;
    OrientedLeft(q, v, p);
    OrientedLeft(right, v, p);
    WideEnough(right);
    forall x | x in left ensures x in p { OrientedMembers(p, x); }
    LeftOfPart(Oriented(right), p, left);
    ClippedByAround(left, right);
  }

  lemma FullQuotient(area: real)
    requires area > 0.0
    ensures area / (area + area - area) == 1.0
  {
  }

  lemma SomePoint(p: Polygon)
    requires Loop(p) != 0.0
    ensures p != [] && p[0] in p
  {
  }

  /** A convex ring of more than the tolerated area, clockwise or not, closed or not. */
  lemma ConvexRingMatchesItself(p: Polygon)
    requires Convex(p) && PolygonArea(p) > AREA_EPS
    ensures Intersection(Oriented(p), Oriented(p)) == Oriented(p)
    ensures IoU(p, p) == 1.0 && IoU(p, Reverse(p)) == 1.0
  {
    hide LeftOf; hide RightOf; hide Loop; hide IoU; hide Oriented; hide PolygonArea;
    ReverseSides(p, p);
    LoopReverse(p);
    SameOutline(p, p);
    SameOutline(p, Reverse(p));
  }
}
