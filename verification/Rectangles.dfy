/** On axis-aligned rectangles the clipping IoU (evaluation/metrics.py) equals the bounding-box IoU
    (application/element_match.py), for any first corner and either orientation. */
module Rectangles {
  import opened Clipping
  import opened Reals
  import opened ConvexRings

  /** The square root of the area tolerance. */
  const GAP: real := 0.000000001

  // ----- rotations of a vertex list ----------------------------------------------------------------------------

  ghost predicate IsRotation(q: Polygon, p: Polygon) {
    exists k :: 0 <= k <= |p| && q == p[k..] + p[..k]
  }

  lemma RotationMembers(q: Polygon, p: Polygon)
    requires IsRotation(q, p)
    ensures |q| == |p| && forall x :: x in q <==> x in p
  {
    var k :| 0 <= k <= |p| && q == p[k..] + p[..k];
    assert p == p[..k] + p[k..];
  }

  lemma {:induction false} EmitsConcat(s: Point, e: Point, prev: Point, a: Polygon, b: Polygon)
    ensures Emits(s, e, prev, a + b) == Emits(s, e, prev, a) + Emits(s, e, LastOf(prev, a), b)
  {
    hide Emit;
    if b == [] {
      assert a + b == a;
    } else {
      var init, last := b[..|b| - 1], b[|b| - 1];
      EmitsConcat(s, e, prev, a, init);
      assert (a + b)[..|a + b| - 1] == a + init;
      assert LastOf(prev, a + init) == LastOf(LastOf(prev, a), init);
    }
  }

  lemma RotationSplit(q: Polygon, p: Polygon) returns (a: Polygon, b: Polygon)
    requires IsRotation(q, p)
    ensures p == a + b && q == b + a && ((a != [] && b != []) || q == p)
  {
    var k :| 0 <= k <= |p| && q == p[k..] + p[..k];
    a, b := p[..k], p[k..];
  }

  lemma RotationJoin(a: Polygon, b: Polygon)
    ensures IsRotation(b + a, a + b)
  {
    var p := a + b;
    assert b + a == p[|a|..] + p[..|a|];
  }

  lemma SelfRotation(p: Polygon)
    ensures IsRotation(p, p)
  {
    assert p == p[0..] + p[..0];
  }

  lemma ClipRotation(s: Point, e: Point, q: Polygon, p: Polygon)
    requires IsRotation(q, p)
    ensures IsRotation(Clip(s, e, q), Clip(s, e, p))
  {
    var a, b := RotationSplit(q, p);
    hide IsRotation;
    if q == p {
      SelfRotation(Clip(s, e, p));
    } else {
      var la, lb := a[|a| - 1], b[|b| - 1];
      EmitsConcat(s, e, lb, a, b);
      EmitsConcat(s, e, la, b, a);
      RotationJoin(Emits(s, e, lb, a), Emits(s, e, la, b));
    }
  }

  lemma LoopRotation(q: Polygon, p: Polygon)
    requires IsRotation(q, p)
    ensures Loop(q) == Loop(p)
  {
    var a, b := RotationSplit(q, p);
    hide IsRotation; hide Wedge;
    if q != p {
      TrailConcat(b[|b| - 1], a, b);
      TrailConcat(a[|a| - 1], b, a);
    }
  }

  lemma {:induction false} ReverseConcat(a: Polygon, b: Polygon)
    ensures Reverse(a + b) == Reverse(b) + Reverse(a)
  {
    if b == [] {
      assert a + b == a;
    } else {
      assert (a + b)[..|a + b| - 1] == a + b[..|b| - 1];
      ReverseConcat(a, b[..|b| - 1]);
    }
  }

  lemma ReverseRotation(q: Polygon, p: Polygon)
    requires IsRotation(q, p)
    ensures IsRotation(Reverse(q), Reverse(p))
  {
    var a, b := RotationSplit(q, p);
    hide IsRotation; hide Reverse;
    ReverseConcat(a, b);
    ReverseConcat(b, a);
    RotationJoin(Reverse(b), Reverse(a));
    SelfRotation(Reverse(p));
  }

  lemma {:induction false} ReverseTwice(p: Polygon)
    ensures Reverse(Reverse(p)) == p
  {
    if p != [] {
      var init, last := p[..|p| - 1], p[|p| - 1];
      ReverseConcat([last], Reverse(init));
      ReverseTwice(init);
      ReverseOne(last);
      assert p == init + [last];
    }
  }

  lemma ReverseOne(x: Point)
    ensures Reverse([x]) == [x]
  {
    assert [x][..0] == [];
  }

  // ----- rectangles --------------------------------------------------------------------------------------------

  function Box(l: real, b: real, r: real, t: real): Polygon {
    [Point(l, b), Point(r, b), Point(r, t), Point(l, t)]
  }

  /** Four corners from any of them, in either orientation, with or without a repeated closing vertex. */
  ghost predicate IsRectangle(p: Polygon, l: real, b: real, r: real, t: real) {
    l < r && b < t && (IsRotation(OpenRing(p), Box(l, b, r, t)) || IsRotation(OpenRing(p), Reverse(Box(l, b, r, t))))
  }

  lemma Trail4(prev: Point, a: Point, b: Point, c: Point, d: Point)
    ensures Trail(prev, [a, b, c, d]) == Wedge(prev, a) + Wedge(a, b) + Wedge(b, c) + Wedge(c, d)
  {
    hide Wedge;
    var p := [a, b, c, d];
    assert p[..3] == [a, b, c] && [a, b, c][..2] == [a, b] && [a, b][..1] == [a] && [a][..0] == [];
    assert Trail(prev, [a]) == Wedge(prev, a);
    assert Trail(prev, [a, b]) == Trail(prev, [a]) + Wedge(a, b);
    assert Trail(prev, [a, b, c]) == Trail(prev, [a, b]) + Wedge(b, c);
  }

  function AreaBySides(width: real, height: real): real {
    width * height
  }

  function Size(l: real, b: real, r: real, t: real): real {
    AreaBySides(r - l, t - b)
  }

  lemma BoxLoop(l: real, b: real, r: real, t: real)
    requires l < r && b < t
    ensures Loop(Box(l, b, r, t)) == 2.0 * Size(l, b, r, t)
    ensures Size(l, b, r, t) > 0.0
  {
    ProductPositive(r - l, t - b);
    Trail4(Point(l, t), Point(l, b), Point(r, b), Point(r, t), Point(l, t));
    hide Trail;
    assert (r - l) * (t - b) == r * t - r * b - l * t + l * b;
  }

  /** Orientation leaves a counter-clockwise rectangle. */
  lemma OrientedRectangle(p: Polygon, l: real, b: real, r: real, t: real)
    requires IsRectangle(p, l, b, r, t)
    ensures IsRotation(Oriented(p), Box(l, b, r, t))
  {
    var box, ring := Box(l, b, r, t), OpenRing(p);
    BoxLoop(l, b, r, t);
    AreaIsLoop(ring);
    hide Size; hide Loop; hide IsRotation; hide OpenRing; hide SignedArea; hide Box; hide Reverse;
    if IsRotation(ring, box) {
      LoopRotation(ring, box);
    } else {
      LoopRotation(ring, Reverse(box));
      LoopReverse(box);
      ReverseRotation(ring, Reverse(box));
      ReverseTwice(box);
    }
  }

  /** An oriented rectangle is its own orientation. */
  lemma OrientedAgain(q: Polygon, l: real, b: real, r: real, t: real)
    requires l < r && b < t && IsRotation(q, Box(l, b, r, t))
    ensures Oriented(q) == q
  {
    BoxLoop(l, b, r, t);
    LoopRotation(q, Box(l, b, r, t));
    OpenBox(q, l, b, r, t);
    AreaIsLoop(q);
    hide Size; hide Loop; hide IsRotation; hide OpenRing; hide SignedArea;
  }

  lemma OpenBox(q: Polygon, l: real, b: real, r: real, t: real)
    requires l < r && b < t && IsRotation(q, Box(l, b, r, t))
    ensures OpenRing(q) == q
  {
    var box := Box(l, b, r, t);
    var k :| 0 <= k <= |box| && q == box[k..] + box[..k];
    assert k == 0 || k == 4 ==> q[0] == box[0] && q[3] == box[3];
    assert 0 < k < 4 ==> q[0] == box[k] && q[3] == box[k - 1];
  }

  lemma RectangleArea(p: Polygon, l: real, b: real, r: real, t: real)
    requires l < r && b < t && IsRotation(p, Box(l, b, r, t))
    ensures PolygonArea(p) == Size(l, b, r, t) > 0.0
  {
    BoxLoop(l, b, r, t);
    LoopRotation(p, Box(l, b, r, t));
    AreaIsLoop(p);
    hide Size; hide Loop; hide IsRotation; hide SignedArea;
  }

  // ----- the half-plane of one side ------------------------------------------------------------------------

  datatype Side = Bottom | Right | Top | Left

  datatype Frame = Frame(l: real, b: real, r: real, t: real)

  predicate Roomy(f: Frame) {
    f.r - f.l > GAP && f.t - f.b > GAP
  }

  function StartOf(side: Side, f: Frame): Point {
    match side
    case Bottom => Point(f.l, f.b)
    case Right => Point(f.r, f.b)
    case Top => Point(f.r, f.t)
    case Left => Point(f.l, f.t)
  }

  function After(side: Side): Side {
    match side case Bottom => Right case Right => Top case Top => Left case Left => Bottom
  }

  function EndOf(side: Side, f: Frame): Point {
    StartOf(After(side), f)
  }

  /** The distance of a point into the half-plane of a side. */
  function Depth(side: Side, f: Frame, p: Point): real {
    match side
    case Bottom => p.y - f.b
    case Right => f.r - p.x
    case Top => f.t - p.y
    case Left => p.x - f.l
  }

  function Length(side: Side, f: Frame): real {
    if side == Bottom || side == Top then f.r - f.l else f.t - f.b
  }

  lemma CrossIsDepth(side: Side, f: Frame, p: Point)
    ensures Cross(StartOf(side, f), EndOf(side, f), p) == Length(side, f) * Depth(side, f, p)
  {
    match side
    case Bottom => assert (f.b - f.b) * (p.x - f.l) == 0.0;
    case Right => assert (f.r - f.r) * (p.y - f.b) == 0.0;
    case Top => assert (f.t - f.t) * (p.x - f.r) == 0.0;
    case Left => assert (f.l - f.l) * (p.y - f.t) == 0.0;
  }

  lemma InsideIsDepth(side: Side, f: Frame, p: Point)
    requires Roomy(f)
    ensures Inside(StartOf(side, f), EndOf(side, f), p) <==> Depth(side, f, p) >= 0.0
  {
    CrossIsDepth(side, f, p);
    var m, d := Length(side, f), Depth(side, f, p);
    hide Cross; hide Depth;
    if d >= 0.0 {
      ProductNonNegative(m, d);
    } else {
      ProductPositive(m, -d);
    }
  }

  lemma BigProduct(m: real, d: real)
    requires m > GAP && d > GAP
    ensures m * d > AREA_EPS
  {
    ProductPositive(m - GAP, d - GAP);
    assert m * d - GAP * GAP == (m - GAP) * (d - GAP) + GAP * (m - GAP) + GAP * (d - GAP);
  }

  /** Along an edge of the box that crosses the side, the meeting point is exact. */
  lemma MeetOnSide(side: Side, f: Frame, a: Point, b: Point)
    requires Roomy(f)
    requires (Depth(side, f, a) >= 0.0) != (Depth(side, f, b) >= 0.0)
    requires Depth(side, f, a) - Depth(side, f, b) > GAP || Depth(side, f, b) - Depth(side, f, a) > GAP
    ensures Depth(side, f, Meet(StartOf(side, f), EndOf(side, f), a, b)) == 0.0
    ensures a.x == b.x ==> Meet(StartOf(side, f), EndOf(side, f), a, b).x == a.x
    ensures a.y == b.y ==> Meet(StartOf(side, f), EndOf(side, f), a, b).y == a.y
  {
    hide *;
    var s, e := StartOf(side, f), EndOf(side, f);
    InsideIsDepth(side, f, a);
    InsideIsDepth(side, f, b);
    MeetOnEdge(s, e, a, b);
    CrossIsDepth(side, f, a);
    CrossIsDepth(side, f, b);
    CrossIsDepth(side, f, Meet(s, e, a, b));
    LongEnough(side, f);
    FarApart(Length(side, f), Depth(side, f, a), Depth(side, f, b));
    MeetStays(s, e, a, b);
    ZeroFactor(Length(side, f), Depth(side, f, Meet(s, e, a, b)));
  }

  lemma LongEnough(side: Side, f: Frame)
    requires Roomy(f)
    ensures Length(side, f) > GAP > 0.0
  {
  }

  lemma ZeroFactor(m: real, d: real)
    requires m > 0.0
    ensures m * d == 0.0 ==> d == 0.0
  {
    if d > 0.0 { ProductPositive(m, d); }
    if d < 0.0 { ProductPositive(m, -d); }
  }

  lemma FarApart(m: real, da: real, db: real)
    requires m > GAP && (da - db > GAP || db - da > GAP)
    ensures m * da - m * db > AREA_EPS || m * db - m * da > AREA_EPS
  {
    if da - db > GAP {
      BigProduct(m, da - db);
      assert m * (da - db) == m * da - m * db;
    } else {
      BigProduct(m, db - da);
      assert m * (db - da) == m * db - m * da;
    }
  }

  lemma MeetStays(s: Point, e: Point, a: Point, b: Point)
    ensures a.x == b.x ==> Meet(s, e, a, b).x == a.x
    ensures a.y == b.y ==> Meet(s, e, a, b).y == a.y
  {
    hide Cross;
  }

  lemma Clip4(s: Point, e: Point, a: Point, b: Point, c: Point, d: Point)
    ensures Clip(s, e, [a, b, c, d]) == Emit(s, e, d, a) + Emit(s, e, a, b) + Emit(s, e, b, c) + Emit(s, e, c, d)
  {
    hide Emit;
    var p := [a, b, c, d];
    assert p[..3] == [a, b, c] && [a, b, c][..2] == [a, b] && [a, b][..1] == [a] && [a][..0] == [];
    assert Emits(s, e, d, [a]) == [] + Emit(s, e, d, a);
    assert Emits(s, e, d, [a, b]) == Emits(s, e, d, [a]) + Emit(s, e, a, b);
    assert Emits(s, e, d, [a, b, c]) == Emits(s, e, d, [a, b]) + Emit(s, e, b, c);
  }

  /** What a vertex adds, told by depths. */
  lemma EmitSide(side: Side, f: Frame, a: Point, b: Point)
    requires Roomy(f)
    ensures var s, e, da, db := StartOf(side, f), EndOf(side, f), Depth(side, f, a), Depth(side, f, b);
            Emit(s, e, a, b) ==
            if db >= 0.0 then (if da >= 0.0 then [b] else [Meet(s, e, a, b), b])
            else if da >= 0.0 then [Meet(s, e, a, b)] else []
  {
    InsideIsDepth(side, f, a);
    InsideIsDepth(side, f, b);
    hide Inside; hide Meet; hide Depth; hide StartOf; hide EndOf; hide Roomy;
  }

  // ----- cutting a box -----------------------------------------------------------------------------------------

  function Corners(f: Frame): Polygon {
    Box(f.l, f.b, f.r, f.t)
  }

  /** What is left of a box: a smaller box, or nothing with area. */
  datatype Region = Area(frame: Frame) | Gone

  function Cut(side: Side, f: Frame, g: Frame): Region {
    match side
    case Bottom => if g.t <= f.b then Gone else Area(g.(b := Max(g.b, f.b)))
    case Right => if f.r <= g.l then Gone else Area(g.(r := Min(g.r, f.r)))
    case Top => if f.t <= g.b then Gone else Area(g.(t := Min(g.t, f.t)))
    case Left => if g.r <= f.l then Gone else Area(g.(l := Max(g.l, f.l)))
  }

  ghost predicate OnLine(q: Polygon, upright: bool, v: real) {
    forall p | p in q :: (if upright then p.x else p.y) == v
  }

  ghost predicate IsFlat(q: Polygon) {
    exists upright, v :: OnLine(q, upright, v)
  }

  ghost predicate Shows(q: Polygon, g: Region) {
    match g
    case Area(f) => IsRotation(q, Corners(f))
    case Gone => IsFlat(q)
  }

  lemma NothingIsFlat()
    ensures IsFlat([])
  {
    assert OnLine([], true, 0.0);
  }

  lemma BoxEmits(side: Side, f: Frame, g: Frame)
    requires Roomy(f)
    ensures var s, e := StartOf(side, f), EndOf(side, f);
            var p, q, r, t := Point(g.l, g.b), Point(g.r, g.b), Point(g.r, g.t), Point(g.l, g.t);
            Clip(s, e, Corners(g)) == Emit(s, e, t, p) + Emit(s, e, p, q) + Emit(s, e, q, r) + Emit(s, e, r, t)
  {
    Clip4(StartOf(side, f), EndOf(side, f), Point(g.l, g.b), Point(g.r, g.b), Point(g.r, g.t), Point(g.l, g.t));
    hide Clip; hide Emit; hide StartOf; hide EndOf;
  }

  lemma CutBottom(f: Frame, g: Frame)
    requires Roomy(f) && Roomy(g)
    ensures Shows(Clip(StartOf(Bottom, f), EndOf(Bottom, f), Corners(g)), Cut(Bottom, f, g))
  {
    var s, e := StartOf(Bottom, f), EndOf(Bottom, f);
    var p, q, r, t := Point(g.l, g.b), Point(g.r, g.b), Point(g.r, g.t), Point(g.l, g.t);
    BoxEmits(Bottom, f, g);
    EmitSide(Bottom, f, t, p);
    EmitSide(Bottom, f, p, q);
    EmitSide(Bottom, f, q, r);
    EmitSide(Bottom, f, r, t);
    hide Clip; hide Emit; hide Meet; hide StartOf; hide EndOf; hide IsRotation; hide OnLine; hide IsFlat;
    if f.b <= g.b {
      SelfRotation(Corners(g));
    } else if f.b <= g.t {
      MeetOnSide(Bottom, f, t, p);
      MeetOnSide(Bottom, f, q, r);
      assert Clip(s, e, Corners(g)) == Box(g.l, f.b, g.r, g.t);
      FlatOrBox(g.l, f.b, g.r, g.t);
    } else {
      NothingIsFlat();
    }
  }

  lemma FlatOrBox(l: real, b: real, r: real, t: real)
    ensures IsRotation(Box(l, b, r, t), Box(l, b, r, t))
    ensures l == r || b == t ==> IsFlat(Box(l, b, r, t))
  {
    SelfRotation(Box(l, b, r, t));
    if l == r {
      assert OnLine(Box(l, b, r, t), true, l);
    }
    if b == t {
      assert OnLine(Box(l, b, r, t), false, b);
    }
  }

  lemma CutRight(f: Frame, g: Frame)
    requires Roomy(f) && Roomy(g)
    ensures Shows(Clip(StartOf(Right, f), EndOf(Right, f), Corners(g)), Cut(Right, f, g))
  {
    var s, e := StartOf(Right, f), EndOf(Right, f);
    var p, q, r, t := Point(g.l, g.b), Point(g.r, g.b), Point(g.r, g.t), Point(g.l, g.t);
    BoxEmits(Right, f, g);
    EmitSide(Right, f, t, p);
    EmitSide(Right, f, p, q);
    EmitSide(Right, f, q, r);
    EmitSide(Right, f, r, t);
    hide Clip; hide Emit; hide Meet; hide StartOf; hide EndOf; hide IsRotation; hide OnLine; hide IsFlat;
    if g.r <= f.r {
      SelfRotation(Corners(g));
    } else if g.l <= f.r {
      MeetOnSide(Right, f, p, q);
      MeetOnSide(Right, f, r, t);
      assert Clip(s, e, Corners(g)) == Box(g.l, g.b, f.r, g.t);
      FlatOrBox(g.l, g.b, f.r, g.t);
    } else {
      NothingIsFlat();
    }
  }

  lemma CutLeft(f: Frame, g: Frame)
    requires Roomy(f) && Roomy(g)
    ensures Shows(Clip(StartOf(Left, f), EndOf(Left, f), Corners(g)), Cut(Left, f, g))
  {
    var s, e := StartOf(Left, f), EndOf(Left, f);
    var p, q, r, t := Point(g.l, g.b), Point(g.r, g.b), Point(g.r, g.t), Point(g.l, g.t);
    BoxEmits(Left, f, g);
    EmitSide(Left, f, t, p);
    EmitSide(Left, f, p, q);
    EmitSide(Left, f, q, r);
    EmitSide(Left, f, r, t);
    hide Clip; hide Emit; hide Meet; hide StartOf; hide EndOf; hide IsRotation; hide OnLine; hide IsFlat;
    if f.l <= g.l {
      SelfRotation(Corners(g));
    } else if f.l <= g.r {
      MeetOnSide(Left, f, p, q);
      MeetOnSide(Left, f, r, t);
      assert Clip(s, e, Corners(g)) == Box(f.l, g.b, g.r, g.t);
      FlatOrBox(f.l, g.b, g.r, g.t);
    } else {
      NothingIsFlat();
    }
  }

  lemma CutTop(f: Frame, g: Frame)
    requires Roomy(f) && Roomy(g)
    ensures Shows(Clip(StartOf(Top, f), EndOf(Top, f), Corners(g)), Cut(Top, f, g))
  {
    var s, e := StartOf(Top, f), EndOf(Top, f);
    var p, q, r, t := Point(g.l, g.b), Point(g.r, g.b), Point(g.r, g.t), Point(g.l, g.t);
    BoxEmits(Top, f, g);
    EmitSide(Top, f, t, p);
    EmitSide(Top, f, p, q);
    EmitSide(Top, f, q, r);
    EmitSide(Top, f, r, t);
    hide Clip; hide Emit; hide Meet; hide StartOf; hide EndOf; hide IsRotation; hide OnLine; hide IsFlat;
    if g.t <= f.t {
      SelfRotation(Corners(g));
    } else if g.b <= f.t {
      MeetOnSide(Top, f, t, p);
      MeetOnSide(Top, f, q, r);
      assert Clip(s, e, Corners(g)) == [Point(g.l, f.t), p, q, Point(g.r, f.t)];
      TurnedBox(g.l, g.b, g.r, f.t);
      FlatOrBox(g.l, g.b, g.r, f.t);
    } else {
      NothingIsFlat();
    }
  }

  lemma TurnedBox(l: real, b: real, r: real, t: real)
    ensures var q := [Point(l, t), Point(l, b), Point(r, b), Point(r, t)];
            IsRotation(q, Box(l, b, r, t)) && (l == r || b == t ==> IsFlat(q))
  {
    var q := [Point(l, t), Point(l, b), Point(r, b), Point(r, t)];
    var box := Box(l, b, r, t);
    assert q == box[3..] + box[..3];
    if l == r {
      assert OnLine(q, true, l);
    }
    if b == t {
      assert OnLine(q, false, b);
    }
  }

  lemma FlatStays(s: Point, e: Point, q: Polygon)
    requires IsFlat(q)
    ensures IsFlat(Clip(s, e, q))
  {
    hide Clip;
    var upright, v :| OnLine(q, upright, v);
    var (a, b) := if upright then (1.0, 0.0) else (0.0, 1.0);
    var up, down := HalfPlane(a, b, v), HalfPlane(-a, -b, -v);
    ClipHolds(up, s, e, q);
    ClipHolds(down, s, e, q);
    assert OnLine(Clip(s, e, q), upright, v);
  }

  lemma FlatRotation(q: Polygon, p: Polygon)
    requires IsRotation(q, p) && IsFlat(p)
    ensures IsFlat(q)
  {
    RotationMembers(q, p);
    var upright, v :| OnLine(p, upright, v);
    assert OnLine(q, upright, v);
  }

  lemma RotationTwice(r: Polygon, q: Polygon, p: Polygon)
    requires IsRotation(r, q) && IsRotation(q, p)
    ensures IsRotation(r, p)
  {
    var a, b := RotationSplit(q, p);
    var c, d := RotationSplit(r, q);
    hide IsRotation;
    if |c| <= |b| {
      var x := SplitAgain(c, d, b, a);
      Regrouped(a, c, x);
    } else {
      var x := SplitAgain(b, a, c, d);
      Regrouped(x, d, b);
    }
  }

  lemma SplitAgain(c: Polygon, d: Polygon, b: Polygon, a: Polygon) returns (x: Polygon)
    requires c + d == b + a && |c| <= |b|
    ensures b == c + x && d == x + a
  {
    x := b[|c|..];
    assert c == (c + d)[..|c|];
    assert (b + a)[..|c|] == b[..|c|];
    assert d == (c + d)[|c|..];
    assert (b + a)[|c|..] == x + a;
  }

  lemma Regrouped(a: Polygon, c: Polygon, x: Polygon)
    ensures IsRotation((x + a) + c, a + (c + x))
    ensures IsRotation(c + (x + a), (a + c) + x)
  {
    hide IsRotation;
    RotationJoin(a + c, x);
    RotationJoin(a, c + x);
    assert (x + a) + c == x + (a + c);
    assert a + (c + x) == (a + c) + x;
    assert c + (x + a) == (c + x) + a;
  }

  function CutRegion(side: Side, f: Frame, g: Region): Region {
    match g case Gone => Gone case Area(frame) => Cut(side, f, frame)
  }

  predicate RoomyRegion(g: Region) {
    g.Gone? || Roomy(g.frame)
  }

  /** One clip by one side of the frame. */
  lemma CutShows(side: Side, f: Frame, q: Polygon, g: Region)
    requires Roomy(f) && RoomyRegion(g) && Shows(q, g)
    ensures Shows(Clip(StartOf(side, f), EndOf(side, f), q), CutRegion(side, f, g))
  {
    var s, e := StartOf(side, f), EndOf(side, f);
    hide Clip; hide Roomy; hide Cut; hide StartOf; hide EndOf; hide IsRotation; hide IsFlat; hide Corners;
    if g.Gone? {
      FlatStays(s, e, q);
    } else {
      match side {
        case Bottom => CutBottom(f, g.frame);
        case Right => CutRight(f, g.frame);
        case Top => CutTop(f, g.frame);
        case Left => CutLeft(f, g.frame);
      }
      ClipRotation(s, e, q, Corners(g.frame));
      ShowsRotation(Clip(s, e, q), Clip(s, e, Corners(g.frame)), Cut(side, f, g.frame));
    }
  }

  lemma ShowsRotation(q: Polygon, p: Polygon, g: Region)
    requires IsRotation(q, p) && Shows(p, g)
    ensures Shows(q, g)
  {
    hide IsRotation; hide IsFlat; hide Corners;
    if g.Gone? {
      FlatRotation(q, p);
    } else {
      RotationTwice(q, p, Corners(g.frame));
    }
  }

  // ----- all four sides ------------------------------------------------------------------------------------------

  /** Equal, or further apart than the gap. */
  predicate Apart(u: real, v: real) {
    u == v || u - v > GAP || v - u > GAP
  }

  predicate AllApart(f: Frame, g: Frame) {
    && Apart(f.l, g.l) && Apart(f.l, g.r) && Apart(f.r, g.l) && Apart(f.r, g.r)
    && Apart(f.b, g.b) && Apart(f.b, g.t) && Apart(f.t, g.b) && Apart(f.t, g.t)
  }

  function FourCuts(side: Side, f: Frame, g: Region): Region {
    CutRegion(After(After(After(side))), f,
              CutRegion(After(After(side)), f, CutRegion(After(side), f, CutRegion(side, f, g))))
  }

  function Common(f: Frame, g: Frame): Region {
    var l, r, b, t := Max(f.l, g.l), Min(f.r, g.r), Max(f.b, g.b), Min(f.t, g.t);
    if l < r && b < t then Area(Frame(l, b, r, t)) else Gone
  }

  /** Made of the bounds of two frames. */
  predicate Mixed(f: Frame, g: Frame, h: Region) {
    h.Area? ==>
      && (h.frame.l == f.l || h.frame.l == g.l) && (h.frame.r == f.r || h.frame.r == g.r)
      && (h.frame.b == f.b || h.frame.b == g.b) && (h.frame.t == f.t || h.frame.t == g.t)
      && Roomy(h.frame)
  }

  lemma CutMixed(side: Side, f: Frame, g: Frame, h: Region)
    requires AllApart(f, g) && Roomy(f) && Mixed(f, g, h)
    ensures Mixed(f, g, CutRegion(side, f, h))
  {
  }

  lemma CommonFromBottom(f: Frame, g: Frame)
    requires f.l < f.r && f.b < f.t && g.l < g.r && g.b < g.t
    ensures FourCuts(Bottom, f, Area(g)) == Common(f, g)
  {
  }

  lemma CommonFromRight(f: Frame, g: Frame)
    requires f.l < f.r && f.b < f.t && g.l < g.r && g.b < g.t
    ensures FourCuts(Right, f, Area(g)) == Common(f, g)
  {
  }

  lemma CommonFromTop(f: Frame, g: Frame)
    requires f.l < f.r && f.b < f.t && g.l < g.r && g.b < g.t
    ensures FourCuts(Top, f, Area(g)) == Common(f, g)
  {
  }

  lemma CommonFromLeft(f: Frame, g: Frame)
    requires f.l < f.r && f.b < f.t && g.l < g.r && g.b < g.t
    ensures FourCuts(Left, f, Area(g)) == Common(f, g)
  {
  }

  /** From whatever side the clipping starts, the common box is left. */
  lemma CutsGiveCommon(side: Side, f: Frame, g: Frame)
    requires f.l < f.r && f.b < f.t && g.l < g.r && g.b < g.t
    ensures FourCuts(side, f, Area(g)) == Common(f, g)
  {
    hide *;
    match side
    case Bottom => CommonFromBottom(f, g);
    case Right => CommonFromRight(f, g);
    case Top => CommonFromTop(f, g);
    case Left => CommonFromLeft(f, g);
  }

  /** Clipping by the four sides of a frame, from any of them. */
  lemma FourCutsShow(side: Side, f: Frame, g: Frame, q: Polygon)
    requires Roomy(f) && Roomy(g) && AllApart(f, g) && IsRotation(q, Corners(g))
    ensures var second, third, fourth := After(side), After(After(side)), After(After(After(side)));
            var q1 := Clip(StartOf(side, f), EndOf(side, f), q);
            var q2 := Clip(StartOf(second, f), EndOf(second, f), q1);
            var q3 := Clip(StartOf(third, f), EndOf(third, f), q2);
            Shows(Clip(StartOf(fourth, f), EndOf(fourth, f), q3), Common(f, g))
  {
    var second, third, fourth := After(side), After(After(side)), After(After(After(side)));
    var q1 := Clip(StartOf(side, f), EndOf(side, f), q);
    var q2 := Clip(StartOf(second, f), EndOf(second, f), q1);
    var q3 := Clip(StartOf(third, f), EndOf(third, f), q2);
    var g1 := CutRegion(side, f, Area(g));
    var g2 := CutRegion(second, f, g1);
    var g3 := CutRegion(third, f, g2);
    CutMixed(side, f, g, Area(g));
    CutMixed(second, f, g, g1);
    CutMixed(third, f, g, g2);
    CutsGiveCommon(side, f, g);
    assert Shows(q, Area(g)) && RoomyRegion(Area(g)) && RoomyRegion(g1) && RoomyRegion(g2) && RoomyRegion(g3);
    hide Clip; hide CutRegion; hide Common; hide StartOf; hide EndOf; hide Roomy; hide AllApart; hide Shows;
    hide Mixed; hide After; hide RoomyRegion;
    CutShows(side, f, q, Area(g));
    CutShows(second, f, q1, g1);
    CutShows(third, f, q2, g2);
    CutShows(fourth, f, q3, g3);
  }

  lemma RingStart(ring: Polygon, f: Frame) returns (side: Side)
    requires IsRotation(ring, Corners(f))
    ensures |ring| == 4 && ring[0] == StartOf(side, f) && ring[1] == StartOf(After(side), f)
    ensures ring[2] == StartOf(After(After(side)), f) && ring[3] == StartOf(After(After(After(side))), f)
  {
    var p := Corners(f);
    var k :| 0 <= k <= |p| && ring == p[k..] + p[..k];
    side := if k == 1 then Right else if k == 2 then Top else if k == 3 then Left else Bottom;
  }

  lemma ClipAll4(p: Polygon, ring: Polygon)
    requires |ring| == 4
    ensures ClipAll(p, ring, 4) ==
            Clip(ring[3], ring[0], Clip(ring[2], ring[3], Clip(ring[1], ring[2], Clip(ring[0], ring[1], p))))
  {
    hide Clip;
    assert ClipAll(p, ring, 1) == Clip(ring[0], ring[1], ClipAll(p, ring, 0));
    assert ClipAll(p, ring, 2) == Clip(ring[1], ring[2], ClipAll(p, ring, 1));
    assert ClipAll(p, ring, 3) == Clip(ring[2], ring[3], ClipAll(p, ring, 2));
  }

  lemma FullTurn(side: Side)
    ensures After(After(After(After(side)))) == side
  {
  }

  /** The intersection of two counter-clockwise rectangles shows their common box. */
  lemma IntersectionShows(left: Polygon, right: Polygon, f: Frame, g: Frame)
    requires Roomy(f) && Roomy(g) && AllApart(f, g)
    requires IsRotation(left, Corners(g)) && IsRotation(right, Corners(f))
    ensures Shows(Intersection(left, right), Common(f, g))
  {
    OrientedAgain(right, f.l, f.b, f.r, f.t);
    var side := RingStart(right, f);
    ClipAll4(left, right);
    FullTurn(side);
    hide Clip; hide StartOf; hide Shows; hide After; hide Common; hide IsRotation; hide Oriented; hide ClipAll;
    FourCutsShow(side, f, g, left);
  }

  // ----- areas ------------------------------------------------------------------------------------------------------

  /** The shoelace sum of a walk along one line, told by its ends. */
  function LineSum(upright: bool, v: real, from: Point, to: Point): real {
    if upright then v * (to.y - from.y) else v * (from.x - to.x)
  }

  lemma NoWalk(upright: bool, v: real, p: Point)
    ensures LineSum(upright, v, p, p) == 0.0
  {
    assert p.y - p.y == 0.0 && p.x - p.x == 0.0;
    assert v * 0.0 == 0.0;
  }

  lemma LongerWalk(upright: bool, v: real, a: Point, b: Point, c: Point)
    ensures LineSum(upright, v, a, b) + LineSum(upright, v, b, c) == LineSum(upright, v, a, c)
  {
    if upright {
      assert v * (b.y - a.y) + v * (c.y - b.y) == v * (c.y - a.y);
    } else {
      assert v * (a.x - b.x) + v * (b.x - c.x) == v * (a.x - c.x);
    }
  }

  lemma LineStep(upright: bool, v: real, a: Point, b: Point)
    requires if upright then a.x == v && b.x == v else a.y == v && b.y == v
    ensures Wedge(a, b) == LineSum(upright, v, a, b)
  {
  }

  lemma {:induction false} TrailFlat(prev: Point, p: Polygon, upright: bool, v: real)
    requires OnLine(p, upright, v) && (if upright then prev.x else prev.y) == v
    ensures Trail(prev, p) == LineSum(upright, v, prev, LastOf(prev, p))
  {
    hide LineSum; hide Wedge;
    if p == [] {
      NoWalk(upright, v, prev);
    } else {
      var init, last := p[..|p| - 1], p[|p| - 1];
      LastOnLine(p, upright, v);
      assert OnLine(init, upright, v);
      TrailFlat(prev, init, upright, v);
      var before := LastOf(prev, init);
      if init != [] {
        LastOnLine(init, upright, v);
      }
      LineStep(upright, v, before, last);
      LongerWalk(upright, v, prev, before, last);
    }
  }

  lemma LastOnLine(q: Polygon, upright: bool, v: real)
    requires q != [] && OnLine(q, upright, v)
    ensures (if upright then q[|q| - 1].x else q[|q| - 1].y) == v
  {
    assert q[|q| - 1] in q;
  }

  lemma FlatHasNoArea(q: Polygon)
    requires IsFlat(q)
    ensures PolygonArea(q) == 0.0
  {
    AreaIsLoop(q);
    var upright, v :| OnLine(q, upright, v);
    hide SignedArea; hide Trail; hide OnLine; hide LineSum;
    if q != [] {
      var last := q[|q| - 1];
      LastOnLine(q, upright, v);
      TrailFlat(last, q, upright, v);
      NoWalk(upright, v, last);
    }
  }

  function AreaOf(g: Region): real {
    match g case Gone => 0.0 case Area(f) => Size(f.l, f.b, f.r, f.t)
  }

  lemma ShownArea(q: Polygon, f: Frame, g: Frame)
    requires Shows(q, Common(f, g))
    ensures PolygonArea(q) == AreaOf(Common(f, g))
  {
    hide IsRotation; hide PolygonArea; hide Size; hide IsFlat;
    match Common(f, g)
    case Gone => FlatHasNoArea(q);
    case Area(h) => RectangleArea(q, h.l, h.b, h.r, h.t);
  }

  // ----- the bounding-box form ------------------------------------------------------------------------------------

  function Lowest(p: Polygon, upright: bool): real
    requires p != []
  {
    var last := if upright then p[|p| - 1].x else p[|p| - 1].y;
    if |p| == 1 then last else Min(Lowest(p[..|p| - 1], upright), last)
  }

  function Highest(p: Polygon, upright: bool): real
    requires p != []
  {
    var last := if upright then p[|p| - 1].x else p[|p| - 1].y;
    if |p| == 1 then last else Max(Highest(p[..|p| - 1], upright), last)
  }

  /** `bbox_from_polygon` */
  function BoundingBox(p: Polygon): Frame
    requires |p| >= 3
  {
    Frame(Lowest(p, true), Lowest(p, false), Highest(p, true), Highest(p, false))
  }

  /** `_iou` of element_match.py */
  function BoxIoU(left: Polygon, right: Polygon): real
    requires |left| >= 3 && |right| >= 3
  {
    FrameIoU(BoundingBox(left), BoundingBox(right))
  }

  function FrameIoU(a: Frame, b: Frame): real {
    var width, height := Min(a.r, b.r) - Max(a.l, b.l), Min(a.t, b.t) - Max(a.b, b.b);
    if width <= 0.0 || height <= 0.0 then 0.0 else Shared(AreaBySides(width, height), Extent(a), Extent(b))
  }

  /** The intersection over the union of two areas. */
  function Shared(inter: real, areaA: real, areaB: real): real {
    if areaA + areaB - inter <= 0.0 then 0.0 else inter / (areaA + areaB - inter)
  }

  function Extent(f: Frame): real {
    AreaBySides(Max(0.0, f.r - f.l), Max(0.0, f.t - f.b))
  }

  lemma ExtentIsSize(f: Frame)
    requires f.l < f.r && f.b < f.t
    ensures Extent(f) == Size(f.l, f.b, f.r, f.t)
  {
  }

  lemma {:induction false} LowestFacts(p: Polygon, upright: bool)
    requires p != []
    ensures exists q :: q in p && (if upright then q.x else q.y) == Lowest(p, upright)
    ensures forall q | q in p :: (if upright then q.x else q.y) >= Lowest(p, upright)
  {
    var init, last := p[..|p| - 1], p[|p| - 1];
    assert p == init + [last] && last in p;
    if init != [] {
      LowestFacts(init, upright);
    }
  }

  lemma {:induction false} HighestFacts(p: Polygon, upright: bool)
    requires p != []
    ensures exists q :: q in p && (if upright then q.x else q.y) == Highest(p, upright)
    ensures forall q | q in p :: (if upright then q.x else q.y) <= Highest(p, upright)
  {
    var init, last := p[..|p| - 1], p[|p| - 1];
    assert p == init + [last] && last in p;
    if init != [] {
      HighestFacts(init, upright);
    }
  }

  lemma RectangleCorners(p: Polygon, f: Frame)
    requires IsRectangle(p, f.l, f.b, f.r, f.t)
    ensures |p| >= 4 && forall q :: q in p <==> q in Corners(f)
  {
    var ring, box := OpenRing(p), Corners(f);
    hide IsRotation;
    ReverseMembers(box);
    ReverseEnds(box);
    if IsRotation(ring, box) {
      RotationMembers(ring, box);
    } else {
      RotationMembers(ring, Reverse(box));
    }
    hide Reverse;
    assert forall q :: q in ring <==> q in box;
    if ring != p {
      assert p == ring + [p[|p| - 1]] && p[0] in ring;
    }
  }

  lemma RectangleBounds(p: Polygon, f: Frame)
    requires IsRectangle(p, f.l, f.b, f.r, f.t)
    ensures |p| >= 3 && BoundingBox(p) == f
  {
    hide *;
    RectangleSpan(p, f);
    var low, high := Point(f.l, f.b), Point(f.r, f.t);
    Bounds(p, true, low, high);
    Bounds(p, false, low, high);
    BoxFromBounds(p, f);
  }

  lemma BoxFromBounds(p: Polygon, f: Frame)
    requires |p| >= 3 && Lowest(p, true) == f.l && Lowest(p, false) == f.b && Highest(p, true) == f.r
             && Highest(p, false) == f.t
    ensures BoundingBox(p) == f
  {
    hide Lowest; hide Highest;
  }

  lemma RectangleSpan(p: Polygon, f: Frame)
    requires IsRectangle(p, f.l, f.b, f.r, f.t)
    ensures |p| >= 3 && Point(f.l, f.b) in p && Point(f.r, f.t) in p
    ensures forall q | q in p :: f.l <= q.x <= f.r && f.b <= q.y <= f.t
  {
    RectangleCorners(p, f);
    assert f.l < f.r && f.b < f.t;
    CornerSpan(f);
    hide IsRectangle; hide Corners;
    forall q | q in p ensures f.l <= q.x <= f.r && f.b <= q.y <= f.t {
      assert q in Corners(f);
    }
  }

  lemma CornerSpan(f: Frame)
    requires f.l < f.r && f.b < f.t
    ensures Point(f.l, f.b) in Corners(f) && Point(f.r, f.t) in Corners(f)
    ensures forall q | q in Corners(f) :: f.l <= q.x <= f.r && f.b <= q.y <= f.t
  {
    var c := Corners(f);
    assert c[0] in c && c[2] in c;
  }

  lemma Bounds(p: Polygon, upright: bool, low: Point, high: Point)
    requires low in p && high in p
    requires forall q | q in p :: if upright then low.x <= q.x <= high.x else low.y <= q.y <= high.y
    ensures Lowest(p, upright) == if upright then low.x else low.y
    ensures Highest(p, upright) == if upright then high.x else high.y
  {
    LowestFacts(p, upright);
    HighestFacts(p, upright);
    hide Lowest; hide Highest;
  }

  // ----- agreement ---------------------------------------------------------------------------------------------------

  lemma SmallerProduct(w: real, h: real, width: real, height: real)
    requires 0.0 < w <= width && 0.0 < h <= height
    ensures 0.0 < w * h <= width * height
  {
    ProductPositive(w, h);
    ProductNonNegative(width - w, height);
    ProductNonNegative(w, height - h);
    assert width * height - w * h == (width - w) * height + w * (height - h);
  }

  lemma QuotientInside(inter: real, areaA: real, areaB: real)
    requires 0.0 <= inter <= areaA && inter <= areaB && areaB > AREA_EPS
    ensures areaA + areaB - inter > AREA_EPS
    ensures Max(0.0, Min(1.0, inter / (areaA + areaB - inter))) == inter / (areaA + areaB - inter)
  {
    var whole := areaA + areaB - inter;
    var ratio := inter / whole;
    assert ratio * whole == inter;
    if ratio > 1.0 {
      ProductPositive(ratio - 1.0, whole);
      assert (ratio - 1.0) * whole == inter - whole;
    }
    if ratio < 0.0 {
      ProductPositive(-ratio, whole);
      assert (-ratio) * whole == -inter;
    }
  }

  lemma CommonSmaller(f: Frame, g: Frame)
    requires f.l < f.r && f.b < f.t && g.l < g.r && g.b < g.t
    ensures 0.0 <= AreaOf(Common(f, g)) <= Size(f.l, f.b, f.r, f.t)
    ensures AreaOf(Common(f, g)) <= Size(g.l, g.b, g.r, g.t)
  {
    hide Size; hide Loop;
    if Common(f, g).Area? {
      var h := Common(f, g).frame;
      SmallerBox(h, f);
      SmallerBox(h, g);
    } else {
      BoxLoop(f.l, f.b, f.r, f.t);
      BoxLoop(g.l, g.b, g.r, g.t);
    }
  }

  lemma SmallerBox(h: Frame, f: Frame)
    requires f.l <= h.l < h.r <= f.r && f.b <= h.b < h.t <= f.t
    ensures 0.0 < Size(h.l, h.b, h.r, h.t) <= Size(f.l, f.b, f.r, f.t)
  {
    SmallerProduct(h.r - h.l, h.t - h.b, f.r - f.l, f.t - f.b);
  }

  lemma RoomyArea(f: Frame)
    requires Roomy(f)
    ensures Size(f.l, f.b, f.r, f.t) > AREA_EPS && f.l < f.r && f.b < f.t
  {
    BigProduct(f.r - f.l, f.t - f.b);
  }

  lemma BoxIoUMeaning(p: Polygon, q: Polygon, f: Frame, g: Frame)
    requires IsRectangle(p, f.l, f.b, f.r, f.t) && IsRectangle(q, g.l, g.b, g.r, g.t)
    requires Roomy(f) && Roomy(g)
    ensures |p| >= 3 && |q| >= 3
    ensures var inter := AreaOf(Common(g, f));
            var whole := Size(f.l, f.b, f.r, f.t) + Size(g.l, g.b, g.r, g.t) - inter;
            whole > AREA_EPS && BoxIoU(p, q) == inter / whole
  {
    hide *;
    RectangleBounds(p, f);
    RectangleBounds(q, g);
    RoomyArea(f);
    RoomyArea(g);
    CommonSmaller(g, f);
    QuotientInside(AreaOf(Common(g, f)), Size(f.l, f.b, f.r, f.t), Size(g.l, g.b, g.r, g.t));
    BoxIoUUnfolds(p, q, f, g);
  }

  lemma BoxIoUUnfolds(p: Polygon, q: Polygon, f: Frame, g: Frame)
    requires |p| >= 3 && |q| >= 3 && BoundingBox(p) == f && BoundingBox(q) == g
    requires f.l < f.r && f.b < f.t && g.l < g.r && g.b < g.t
    requires Size(f.l, f.b, f.r, f.t) + Size(g.l, g.b, g.r, g.t) - AreaOf(Common(g, f)) > AREA_EPS
    ensures var inter := AreaOf(Common(g, f));
            BoxIoU(p, q) == inter / (Size(f.l, f.b, f.r, f.t) + Size(g.l, g.b, g.r, g.t) - inter)
  {
    hide BoundingBox; hide FrameIoU; hide Size; hide Common; hide AreaOf;
    var inter, areaF, areaG := AreaOf(Common(g, f)), Size(f.l, f.b, f.r, f.t), Size(g.l, g.b, g.r, g.t);
    FrameShares(f, g);
    SharedMeaning(inter, areaF, areaG);
    hide Shared;
  }

  lemma FrameShares(f: Frame, g: Frame)
    requires f.l < f.r && f.b < f.t && g.l < g.r && g.b < g.t
    requires Size(f.l, f.b, f.r, f.t) + Size(g.l, g.b, g.r, g.t) - AreaOf(Common(g, f)) > AREA_EPS
    ensures FrameIoU(f, g) == Shared(AreaOf(Common(g, f)), Size(f.l, f.b, f.r, f.t), Size(g.l, g.b, g.r, g.t))
  {
    hide AreaBySides; hide Extent; hide Shared;
    ExtentIsSize(f);
    ExtentIsSize(g);
    SharedMeaning(AreaOf(Common(g, f)), Size(f.l, f.b, f.r, f.t), Size(g.l, g.b, g.r, g.t));
  }

  lemma SharedMeaning(inter: real, areaA: real, areaB: real)
    requires areaA + areaB - inter > 0.0
    ensures Shared(inter, areaA, areaB) == inter / (areaA + areaB - inter)
    ensures inter == 0.0 ==> inter / (areaA + areaB - inter) == 0.0
  {
  }

  lemma IoUMeaning(p: Polygon, q: Polygon, f: Frame, g: Frame)
    requires IsRectangle(p, f.l, f.b, f.r, f.t) && IsRectangle(q, g.l, g.b, g.r, g.t)
    requires Roomy(f) && Roomy(g) && AllApart(g, f)
    ensures var inter := AreaOf(Common(g, f));
            var whole := Size(f.l, f.b, f.r, f.t) + Size(g.l, g.b, g.r, g.t) - inter;
            whole > AREA_EPS && IoU(p, q) == inter / whole
  {
    hide *;
    var left, right := Oriented(p), Oriented(q);
    OrientedCorners(p, f);
    OrientedCorners(q, g);
    RoomyArea(f);
    RoomyArea(g);
    IntersectionShows(left, right, g, f);
    ShownArea(Intersection(left, right), g, f);
    CommonSmaller(g, f);
    QuotientInside(AreaOf(Common(g, f)), Size(f.l, f.b, f.r, f.t), Size(g.l, g.b, g.r, g.t));
    IoUUnfolds(p, q, left, right);
  }

  lemma IoUUnfolds(p: Polygon, q: Polygon, left: Polygon, right: Polygon)
    requires left == Oriented(p) && right == Oriented(q)
    requires PolygonArea(left) > AREA_EPS && PolygonArea(right) > AREA_EPS
    requires PolygonArea(left) + PolygonArea(right) - PolygonArea(Intersection(left, right)) > AREA_EPS
    ensures var inter := PolygonArea(Intersection(left, right));
            IoU(p, q) == Max(0.0, Min(1.0, inter / (PolygonArea(left) + PolygonArea(right) - inter)))
  {
    hide Oriented; hide PolygonArea; hide Intersection;
  }

  lemma OrientedCorners(p: Polygon, f: Frame)
    requires IsRectangle(p, f.l, f.b, f.r, f.t)
    ensures IsRotation(Oriented(p), Corners(f))
    ensures PolygonArea(Oriented(p)) == Size(f.l, f.b, f.r, f.t)
  {
    OrientedRectangle(p, f.l, f.b, f.r, f.t);
    RectangleArea(Oriented(p), f.l, f.b, f.r, f.t);
    hide Oriented; hide PolygonArea; hide Size; hide IsRotation;
  }

  /** Disjoint, touching, crossing or nested: the two forms of IoU agree on rectangles whose distinct
      coordinates differ by more than the gap. */
  lemma RectanglesAgree(p: Polygon, q: Polygon, f: Frame, g: Frame)
    requires IsRectangle(p, f.l, f.b, f.r, f.t) && IsRectangle(q, g.l, g.b, g.r, g.t)
    requires Roomy(f) && Roomy(g) && AllApart(g, f)
    ensures |p| >= 3 && |q| >= 3 && IoU(p, q) == BoxIoU(p, q)
  {
    hide *;
    BoxIoUMeaning(p, q, f, g);
    IoUMeaning(p, q, f, g);
  }
}
